/** Sums of a weight over a sequence. */
module Sums {
  function Sum<T>(xs: seq<T>, weight: T -> int): int {
    if xs == [] then 0 else weight(xs[0]) + Sum(xs[1..], weight)
  }

  lemma {:induction false} SumAppend<T>(xs: seq<T>, ys: seq<T>, weight: T -> int)
    ensures Sum(xs + ys, weight) == Sum(xs, weight) + Sum(ys, weight)
  {
    if xs == [] {
      assert xs + ys == ys;
    } else {
      assert (xs + ys)[1..] == xs[1..] + ys;
      SumAppend(xs[1..], ys, weight);
    }
  }

  lemma {:induction false} SumUpdate<T>(xs: seq<T>, i: nat, x: T, weight: T -> int)
    requires i < |xs|
    ensures Sum(xs[i := x], weight) == Sum(xs, weight) - weight(xs[i]) + weight(x)
  {
    if i == 0 {
      assert xs[0 := x][1..] == xs[1..];
    } else {
      assert xs[i := x][1..] == xs[1..][i - 1 := x];
      SumUpdate(xs[1..], i - 1, x, weight);
    }
  }

  /** A non-negative weight sums to no less than any one element weighs. */
  lemma {:induction false} SumAtLeast<T>(xs: seq<T>, i: nat, weight: T -> int)
    requires i < |xs| && forall x :: x in xs ==> weight(x) >= 0
    ensures Sum(xs, weight) >= weight(xs[i])
  {
    SumNonNegative(xs[1..], weight);
    if i > 0 {
      SumAtLeast(xs[1..], i - 1, weight);
    }
  }

  /** ... nor than any two. */
  lemma {:induction false} SumAtLeastTwo<T>(xs: seq<T>, i: nat, j: nat, weight: T -> int)
    requires i < j < |xs| && forall x :: x in xs ==> weight(x) >= 0
    ensures Sum(xs, weight) >= weight(xs[i]) + weight(xs[j])
  {
    if i == 0 {
      SumAtLeast(xs[1..], j - 1, weight);
    } else {
      SumAtLeastTwo(xs[1..], i - 1, j - 1, weight);
    }
  }

  lemma {:induction false} SumNonNegative<T>(xs: seq<T>, weight: T -> int)
    requires forall x :: x in xs ==> weight(x) >= 0
    ensures Sum(xs, weight) >= 0
  {
    if xs == [] {
    } else {
      SumNonNegative(xs[1..], weight);
    }
  }

  lemma {:induction false} SumIsZero<T>(xs: seq<T>, weight: T -> int)
    requires forall x :: x in xs ==> weight(x) >= 0
    ensures Sum(xs, weight) == 0 <==> forall x :: x in xs ==> weight(x) == 0
  {
    if xs == [] {
    } else {
      assert xs == [xs[0]] + xs[1..];
      SumNonNegative(xs[1..], weight);
      SumIsZero(xs[1..], weight);
    }
  }

  lemma SumSingle<T>(x: T, weight: T -> int)
    ensures Sum([x], weight) == weight(x)
  {
    assert [x][1..] == [];
  }

  /** Weights that agree on every element have the same sum; a sum of sums is the sum. */
  lemma {:induction false} SumSplit<T>(xs: seq<T>, weight: T -> int, part: T -> int, rest: T -> int)
    requires forall x :: x in xs ==> weight(x) == part(x) + rest(x)
    ensures Sum(xs, weight) == Sum(xs, part) + Sum(xs, rest)
  {
    if xs == [] {
    } else {
      SumSplit(xs[1..], weight, part, rest);
    }
  }
}
