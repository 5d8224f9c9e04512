/** Finite sums of integer sequences, used for counters and progress measures. */
module Sums {

  function Sum(xs: seq<int>): int {
    if xs == [] then 0 else Sum(xs[..|xs| - 1]) + xs[|xs| - 1]
  }

  /** Changing one entry changes the sum by the difference. */
  lemma {:induction false} SumUpdate(xs: seq<int>, i: nat, v: int)
    requires i < |xs|
    ensures Sum(xs[i := v]) == Sum(xs) - xs[i] + v
  {
    var last := |xs| - 1;
    if i == last {
      assert xs[i := v][..last] == xs[..last];
    } else {
      assert xs[i := v][..last] == xs[..last][i := v];
      SumUpdate(xs[..last], i, v);
    }
  }

  /** A sequence bounded entry by entry is bounded in sum. */
  lemma {:induction false} SumBound(xs: seq<int>, bound: int)
    requires forall i | 0 <= i < |xs| :: xs[i] <= bound
    ensures Sum(xs) <= |xs| * bound
  {
    if xs == [] {
    } else {
      var last := |xs| - 1;
      SumBound(xs[..last], bound);
      assert |xs| * bound == last * bound + bound;
    }
  }

  lemma {:induction false} SumNonNegative(xs: seq<int>)
    requires forall i | 0 <= i < |xs| :: xs[i] >= 0
    ensures Sum(xs) >= 0
  {
    if xs == [] {
    } else {
      SumNonNegative(xs[..|xs| - 1]);
    }
  }

  lemma {:induction false} SumConstant(xs: seq<int>, v: int)
    requires forall i | 0 <= i < |xs| :: xs[i] == v
    ensures Sum(xs) == |xs| * v
  {
    if xs == [] {
    } else {
      var last := |xs| - 1;
      SumConstant(xs[..last], v);
      assert |xs| * v == last * v + v;
    }
  }
}
