/** Order-preserving filtering, the shape of every pandas row filter and list comprehension here. */
module Sequences {

  /** `a` can be obtained from `b` by deleting elements, so `a` keeps `b`'s relative order. */
  predicate IsSubsequence<T(==)>(a: seq<T>, b: seq<T>)
    decreases |b|
  {
    if a == [] then true
    else if b == [] then false
    else if a[0] == b[0] then IsSubsequence(a[1..], b[1..])
    else IsSubsequence(a, b[1..])
  }

  function Filter<T>(xs: seq<T>, keep: T -> bool): (r: seq<T>)
    ensures |r| <= |xs|
    ensures forall x :: x in r ==> x in xs && keep(x)
    ensures forall x :: x in xs && keep(x) ==> x in r
  {
    if xs == [] then []
    else
      assert xs == [xs[0]] + xs[1..];
      (if keep(xs[0]) then [xs[0]] else []) + Filter(xs[1..], keep)
  }

  /** Number of elements that pass `keep`. */
  function Count<T>(xs: seq<T>, keep: T -> bool): nat {
    if xs == [] then 0 else (if keep(xs[0]) then 1 else 0) + Count(xs[1..], keep)
  }

  lemma {:induction false} FilterKeepsOrder<T>(xs: seq<T>, keep: T -> bool)
    ensures IsSubsequence(Filter(xs, keep), xs)
    ensures |Filter(xs, keep)| == Count(xs, keep)
  {
    if xs != [] {
      FilterKeepsOrder(xs[1..], keep);
      if keep(xs[0]) {
        assert Filter(xs, keep) == [xs[0]] + Filter(xs[1..], keep);
      } else {
        assert Filter(xs, keep) == Filter(xs[1..], keep);
        SubsequenceSkip(Filter(xs[1..], keep), xs);
      }
    }
  }

  lemma {:induction false} SubsequenceSkip<T>(a: seq<T>, b: seq<T>)
    requires b != [] && IsSubsequence(a, b[1..])
    ensures IsSubsequence(a, b)
    decreases |a| + |b|
  {
    if a != [] && a[0] == b[0] {
      // `a[1..]` is a subsequence of `b[1..]` because `a` is.
      SubsequenceTail(a, b[1..]);
    }
  }

  lemma {:induction false} SubsequenceTail<T>(a: seq<T>, b: seq<T>)
    requires a != [] && IsSubsequence(a, b)
    ensures IsSubsequence(a[1..], b)
    decreases |a| + |b|
  {
    if a[0] == b[0] {
      SubsequenceSkip(a[1..], b);
    } else {
      SubsequenceTail(a, b[1..]);
      SubsequenceSkip(a[1..], b);
    }
  }

  /** Applying `f` to every element, as a pandas column assignment does row by row. */
  function Map<T, U>(xs: seq<T>, f: T -> U): (r: seq<U>)
    ensures |r| == |xs|
    ensures forall i :: 0 <= i < |xs| ==> r[i] == f(xs[i])
  {
    if xs == [] then [] else [f(xs[0])] + Map(xs[1..], f)
  }

  /** Two successive filters are one filter by the conjunction. */
  lemma {:induction false} FilterFilter<T>(xs: seq<T>, p: T -> bool, q: T -> bool, both: T -> bool)
    requires forall x :: both(x) == (p(x) && q(x))
    ensures Filter(Filter(xs, p), q) == Filter(xs, both)
  {
    if xs != [] {
      FilterFilter(xs[1..], p, q, both);
      var rest := Filter(xs[1..], p);
      if p(xs[0]) {
        assert Filter(xs, p) == [xs[0]] + rest;
        assert ([xs[0]] + rest)[1..] == rest;
      } else {
        assert Filter(xs, p) == rest;
      }
    }
  }

  /** Filtering mapped values is mapping the values whose image passes. */
  lemma {:induction false} FilterMap<T, U>(xs: seq<T>, f: T -> U, keep: U -> bool, keepBefore: T -> bool)
    requires forall x :: keepBefore(x) == keep(f(x))
    ensures Filter(Map(xs, f), keep) == Map(Filter(xs, keepBefore), f)
  {
    if xs != [] {
      FilterMap(xs[1..], f, keep, keepBefore);
      assert Map(xs, f)[1..] == Map(xs[1..], f);
      if keepBefore(xs[0]) {
        assert Filter(xs, keepBefore)[1..] == Filter(xs[1..], keepBefore);
      }
    }
  }

  /** The elements of `xs` that `f` maps to `v`. */
  ghost function Preimage<T, U>(xs: seq<T>, f: T -> U, v: U): set<T> {
    set x | x in xs && f(x) == v
  }

  /** Over distinct elements, a value occurs in the mapped sequence once per element mapped to it. */
  lemma {:induction false} MapOccurrences<T, U>(xs: seq<T>, f: T -> U, v: U)
    requires forall i, j :: 0 <= i < j < |xs| ==> xs[i] != xs[j]
    ensures multiset(Map(xs, f))[v] == |Preimage(xs, f, v)|
  {
    if xs == [] {
      assert Preimage(xs, f, v) == {};
    } else {
      DistinctTail(xs);
      MapOccurrences(xs[1..], f, v);
      assert Map(xs, f) == [f(xs[0])] + Map(xs[1..], f);
      PreimageSplit(xs, f, v);
    }
  }

  lemma DistinctTail<T>(xs: seq<T>)
    requires xs != []
    requires forall i, j :: 0 <= i < j < |xs| ==> xs[i] != xs[j]
    ensures xs[0] !in xs[1..]
    ensures forall i, j :: 0 <= i < j < |xs[1..]| ==> xs[1..][i] != xs[1..][j]
  {
    forall i, j | 0 <= i < j < |xs[1..]|
      ensures xs[1..][i] != xs[1..][j]
    {
      assert xs[1..][i] == xs[i + 1] && xs[1..][j] == xs[j + 1];
    }
    forall k | 0 <= k < |xs[1..]|
      ensures xs[1..][k] != xs[0]
    {
      assert xs[1..][k] == xs[k + 1];
    }
  }

  /** The elements mapped to `v` are the head, if it is one, and those of the tail. */
  lemma PreimageSplit<T, U>(xs: seq<T>, f: T -> U, v: U)
    requires xs != [] && xs[0] !in xs[1..]
    ensures |Preimage(xs, f, v)| == (if f(xs[0]) == v then 1 else 0) + |Preimage(xs[1..], f, v)|
  {
    var later := Preimage(xs[1..], f, v);
    assert xs == [xs[0]] + xs[1..];
    if f(xs[0]) == v {
      assert Preimage(xs, f, v) == {xs[0]} + later;
    } else {
      assert Preimage(xs, f, v) == later;
    }
  }

  /** Two successive maps are one map by the composition. */
  lemma {:induction false} MapMap<T, U, V>(xs: seq<T>, f: T -> U, g: U -> V, both: T -> V)
    requires forall x :: both(x) == g(f(x))
    ensures Map(Map(xs, f), g) == Map(xs, both)
  {
  }
}
