/**
  A `for` loop whose body may raise.  `Fold(step, stopped, start, xs, n)` is the state after
  the first `n` iterations over `xs`; once a state is `stopped` (an exception escaped the
  body), the remaining iterations do not run and the state is what the exception left.
*/
module Loops {

  function Fold<S, X>(step: (S, X, nat) -> S, stopped: S -> bool, start: S, xs: seq<X>, n: nat): S
    requires n <= |xs|
    decreases n
  {
    if n == 0 then start
    else
      var prev := Fold(step, stopped, start, xs, n - 1);
      if stopped(prev) then prev else step(prev, xs[n - 1], n - 1)
  }

  /** A stopped loop stays where it stopped. */
  lemma {:induction false} StoppedStays<S, X>(step: (S, X, nat) -> S, stopped: S -> bool, start: S, xs: seq<X>, n: nat, m: nat)
    requires n <= m <= |xs|
    requires stopped(Fold(step, stopped, start, xs, n))
    ensures Fold(step, stopped, start, xs, m) == Fold(step, stopped, start, xs, n)
    decreases m
  {
    if m > n {
      StoppedStays(step, stopped, start, xs, n, m - 1);
    }
  }

  /**
    A property of the state after `n` iterations that the first iteration starts with, that
    every iteration that runs carries from `n` to `n + 1`, and that a stopped state keeps.
  */
  lemma {:induction false} FoldInvariant<S, X>(step: (S, X, nat) -> S, stopped: S -> bool, start: S, xs: seq<X>, n: nat, inv: (S, nat) -> bool)
    requires n <= |xs|
    requires inv(start, 0)
    requires forall st, i :: 0 <= i < |xs| && inv(st, i) && !stopped(st) ==> inv(step(st, xs[i], i), i + 1)
    requires forall st, i :: 0 <= i < |xs| && inv(st, i) && stopped(st) ==> inv(st, i + 1)
    ensures inv(Fold(step, stopped, start, xs, n), n)
    decreases n
  {
    if n > 0 {
      FoldInvariant(step, stopped, start, xs, n - 1, inv);
    }
  }
}
