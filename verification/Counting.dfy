/** Sums over a row of workers, how one worker's move changes them, and sequences
    without repeats. */
module Counting {
  ghost predicate NoRepeats<T>(s: seq<T>) { forall i, j :: 0 <= i < j < |s| ==> s[i] != s[j] }

  function Sum<T>(xs: seq<T>, f: T -> nat): nat {
    if xs == [] then 0 else f(xs[0]) + Sum(xs[1..], f)
  }

  lemma {:induction false} SumUpdate<T>(xs: seq<T>, i: nat, x: T, f: T -> nat)
    requires i < |xs|
    ensures Sum(xs[i := x], f) + f(xs[i]) == Sum(xs, f) + f(x)
  {
    if i > 0 {
      assert xs[i := x][1..] == xs[1..][i - 1 := x];
      SumUpdate(xs[1..], i - 1, x, f);
    } else {
      assert xs[i := x][1..] == xs[1..];
    }
  }

  lemma {:induction false} SumZero<T>(xs: seq<T>, f: T -> nat)
    ensures Sum(xs, f) == 0 <==> forall x <- xs :: f(x) == 0
  {
    if xs != [] {
      SumZero(xs[1..], f);
      assert xs == [xs[0]] + xs[1..];
    }
  }

  lemma {:induction false} SumBound<T>(xs: seq<T>, f: T -> nat, most: nat)
    requires forall x <- xs :: f(x) <= most
    ensures Sum(xs, f) <= most * |xs|
  {
    if xs != [] {
      SumBound(xs[1..], f, most);
      assert xs == [xs[0]] + xs[1..];
      assert most * |xs| == most * (|xs| - 1) + most;
    }
  }
}
