/** Sums over all threads of a system: how many are at some place, how much they have left. */
module Sums {

  function Sum<T>(xs: seq<T>, f: T -> nat): nat {
    if xs == [] then 0 else f(xs[0]) + Sum(xs[1..], f)
  }

  lemma {:induction false} SumUpdate<T>(xs: seq<T>, i: nat, x: T, f: T -> nat)
    requires i < |xs|
    ensures Sum(xs[i := x], f) + f(xs[i]) == Sum(xs, f) + f(x)
  {
    if i == 0 {
      assert xs[i := x] == [x] + xs[1..];
    } else {
      SumUpdate(xs[1..], i - 1, x, f);
      assert xs[i := x] == [xs[0]] + xs[1..][i - 1 := x];
    }
  }

  /** Two different threads count at most as much as all. */
  lemma {:induction false} SumOfTwo<T>(xs: seq<T>, i: nat, j: nat, f: T -> nat)
    requires i < j < |xs|
    ensures f(xs[i]) + f(xs[j]) <= Sum(xs, f)
  {
    if i == 0 {
      SumOfOne(xs[1..], j - 1, f);
    } else {
      SumOfTwo(xs[1..], i - 1, j - 1, f);
    }
  }

  lemma {:induction false} SumOfOne<T>(xs: seq<T>, i: nat, f: T -> nat)
    requires i < |xs|
    ensures f(xs[i]) <= Sum(xs, f)
  {
    if i == 0 {
    } else {
      SumOfOne(xs[1..], i - 1, f);
    }
  }

  lemma {:induction false} SumIsZero<T>(xs: seq<T>, f: T -> nat)
    requires forall i | 0 <= i < |xs| :: f(xs[i]) == 0
    ensures Sum(xs, f) == 0
  {
    if xs == [] {
    } else {
      SumIsZero(xs[1..], f);
    }
  }

  lemma {:induction false} SumIsPositive<T>(xs: seq<T>, f: T -> nat) returns (i: nat)
    requires Sum(xs, f) > 0
    ensures i < |xs| && f(xs[i]) > 0
  {
    if f(xs[0]) > 0 {
      i := 0;
    } else {
      var k := SumIsPositive(xs[1..], f);
      i := k + 1;
    }
  }

  lemma {:induction false} SumOfEqual<T>(n: nat, x: T, f: T -> nat)
    ensures Sum(seq(n, _ => x), f) == n * f(x)
  {
    if n == 0 {
    } else {
      SumOfEqual(n - 1, x, f);
      assert seq(n, _ => x)[1..] == seq(n - 1, _ => x);
      assert n * f(x) == (n - 1) * f(x) + f(x);
    }
  }
}
