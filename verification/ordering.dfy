/**
  Orders used by the pipeline: Python compares strings code point by code point and
  `pathlib` paths component by component, both lexicographically.  This module defines
  lexicographic order over sequences, proves it is a total order when the element order is,
  and gives the two sorting operations the scripts rely on (`sorted(...)` of a set of
  identifiers and `sort_values` of a column).
*/
module Ordering {

  /** `le` is a total order: reflexive, antisymmetric, transitive and total. */
  ghost predicate TotalOrder<T(!new)>(le: (T, T) -> bool) {
    && (forall a :: le(a, a))
    && (forall a, b :: le(a, b) && le(b, a) ==> a == b)
    && (forall a, b, c :: le(a, b) && le(b, c) ==> le(a, c))
    && (forall a, b :: le(a, b) || le(b, a))
  }

  predicate Sorted<T>(xs: seq<T>, le: (T, T) -> bool) {
    forall i, j :: 0 <= i < j < |xs| ==> le(xs[i], xs[j])
  }

  /** Lexicographic order: a proper prefix comes first, otherwise the first differing element decides. */
  predicate LexLe<T(==)>(a: seq<T>, b: seq<T>, le: (T, T) -> bool) {
    if a == [] then true
    else if b == [] then false
    else if a[0] != b[0] then le(a[0], b[0])
    else LexLe(a[1..], b[1..], le)
  }

  lemma {:induction false} LexLeReflexive<T(!new)>(a: seq<T>, le: (T, T) -> bool)
    ensures LexLe(a, a, le)
  {
    if a != [] {
      LexLeReflexive(a[1..], le);
    }
  }

  lemma {:induction false} LexLeAntisymmetric<T(!new)>(a: seq<T>, b: seq<T>, le: (T, T) -> bool)
    requires TotalOrder(le)
    requires LexLe(a, b, le) && LexLe(b, a, le)
    ensures a == b
  {
    if a != [] && b != [] && a[0] == b[0] {
      LexLeAntisymmetric(a[1..], b[1..], le);
      assert a == [a[0]] + a[1..] && b == [b[0]] + b[1..];
    }
  }

  lemma {:induction false} LexLeTransitive<T(!new)>(a: seq<T>, b: seq<T>, c: seq<T>, le: (T, T) -> bool)
    requires TotalOrder(le)
    requires LexLe(a, b, le) && LexLe(b, c, le)
    ensures LexLe(a, c, le)
  {
    if a != [] && b != [] && c != [] && a[0] == b[0] && b[0] == c[0] {
      LexLeTransitive(a[1..], b[1..], c[1..], le);
    }
  }

  lemma {:induction false} LexLeTotal<T(!new)>(a: seq<T>, b: seq<T>, le: (T, T) -> bool)
    requires TotalOrder(le)
    ensures LexLe(a, b, le) || LexLe(b, a, le)
  {
    if a != [] && b != [] && a[0] == b[0] {
      LexLeTotal(a[1..], b[1..], le);
    }
  }

  predicate CharLe(x: char, y: char) {
    x <= y
  }

  /** Python's `str` comparison: code points, lexicographically. */
  predicate StrLe(a: string, b: string) {
    LexLe(a, b, CharLe)
  }

  lemma StrLeTotalOrder()
    ensures TotalOrder(StrLe)
  {
    assert TotalOrder(CharLe);
    forall a: string {
      LexLeReflexive(a, CharLe);
    }
    forall a: string, b: string | StrLe(a, b) && StrLe(b, a)
      ensures a == b
    {
      LexLeAntisymmetric(a, b, CharLe);
    }
    forall a: string, b: string, c: string | StrLe(a, b) && StrLe(b, c)
      ensures StrLe(a, c)
    {
      LexLeTransitive(a, b, c, CharLe);
    }
    forall a: string, b: string {
      LexLeTotal(a, b, CharLe);
    }
  }

  /** Inserts `x` before the first element it is not greater than. */
  function Insert<T(!new)>(x: T, xs: seq<T>, le: (T, T) -> bool): (r: seq<T>)
    ensures multiset(r) == multiset(xs) + multiset{x}
  {
    if xs == [] || le(x, xs[0]) then
      [x] + xs
    else
      assert xs == [xs[0]] + xs[1..];
      [xs[0]] + Insert(x, xs[1..], le)
  }

  /** Inserting into a sorted sequence keeps it sorted. */
  lemma {:induction false} InsertKeepsSorted<T(!new)>(x: T, xs: seq<T>, le: (T, T) -> bool)
    requires TotalOrder(le)
    requires Sorted(xs, le)
    ensures Sorted(Insert(x, xs, le), le)
  {
    if xs != [] && !le(x, xs[0]) {
      var rest := Insert(x, xs[1..], le);
      InsertKeepsSorted(x, xs[1..], le);
      assert le(xs[0], x);
      forall y | y in rest
        ensures le(xs[0], y)
      {
        assert y in multiset(rest);
        if y != x {
          assert y in multiset(xs[1..]);
          var k :| 0 <= k < |xs[1..]| && xs[1..][k] == y;
          assert xs[k + 1] == y;
        }
      }
      assert forall i :: 0 < i < |[xs[0]] + rest| ==> ([xs[0]] + rest)[i] in rest;
    }
  }

  /** Insertion sort; a model of a sort whose tie order does not matter to its callers. */
  function SortBy<T(!new)>(xs: seq<T>, le: (T, T) -> bool): (r: seq<T>)
    requires TotalOrder(le)
    ensures Sorted(r, le)
    ensures multiset(r) == multiset(xs)
  {
    if xs == [] then []
    else
      assert xs == [xs[0]] + xs[1..];
      InsertKeepsSorted(xs[0], SortBy(xs[1..], le), le);
      Insert(xs[0], SortBy(xs[1..], le), le)
  }

  predicate IsLeast<T>(m: T, s: set<T>, le: (T, T) -> bool) {
    m in s && forall x {:trigger le(m, x)} :: x in s ==> le(m, x)
  }

  lemma LeastIsBelow<T>(m: T, s: set<T>, le: (T, T) -> bool, x: T)
    requires IsLeast(m, s, le) && x in s
    ensures le(m, x)
  {
  }

  lemma {:induction false} LeastExists<T(!new)>(s: set<T>, le: (T, T) -> bool)
    requires s != {} && TotalOrder(le)
    ensures exists m :: IsLeast(m, s, le)
    decreases s
  {
    var x :| x in s;
    if s == {x} {
      assert IsLeast(x, s, le);
    } else {
      LeastExists(s - {x}, le);
      var m :| IsLeast(m, s - {x}, le);
      if le(x, m) {
        assert IsLeast(x, s, le);
      } else {
        assert IsLeast(m, s, le);
      }
    }
  }

  /** The smallest element of a non-empty finite set (the head of `sorted(s)`). */
  function Least<T(!new)>(s: set<T>, le: (T, T) -> bool): (m: T)
    requires s != {} && TotalOrder(le)
    ensures IsLeast(m, s, le)
  {
    LeastExists(s, le);
    forall m1, m2 | IsLeast(m1, s, le) && IsLeast(m2, s, le)
      ensures m1 == m2
    {
      assert le(m1, m2) && le(m2, m1);
    }
    var m :| IsLeast(m, s, le);
    m
  }

  /** `sorted(s)` for a set: its elements in ascending order, each once. */
  function SortedElements<T(!new)>(s: set<T>, le: (T, T) -> bool): (r: seq<T>)
    requires TotalOrder(le)
    ensures Sorted(r, le)
    ensures forall i, j :: 0 <= i < j < |r| ==> r[i] != r[j]
    ensures forall x :: x in r <==> x in s
    ensures |r| == |s|
    decreases s
  {
    if s == {} then []
    else
      var m := Least(s, le);
      var rest := SortedElements(s - {m}, le);
      [m] + rest
  }
}
