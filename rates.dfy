/**
 * Rates and averages that the controllers report. Dafny's `real` is exact,
 * so these are the mathematical values that the double arithmetic and the
 * `toFixed(1)` formatting approximate.
 */
module Rates {

  /** `correct / total * 100`, or 0 when there is nothing to count. */
  function Percent(correct: nat, total: nat): (r: real)
    requires correct <= total
    ensures 0.0 <= r <= 100.0
    ensures total == 0 ==> r == 0.0
    ensures total > 0 ==> r * (total as real) == 100.0 * (correct as real)
    ensures total > 0 ==> (r == 100.0 <==> correct == total) && (r == 0.0 <==> correct == 0)
  {
    if total == 0 then 0.0
    else
      var t, c := total as real, correct as real;
      assert c / t <= 1.0 by {
        assert c <= t;
      }
      100.0 * c / t
  }

  /** The sum that `reduce((sum, x) => sum + x, 0)` computes. */
  function Sum(xs: seq<nat>): nat {
    if xs == [] then 0 else Sum(xs[..|xs| - 1]) + xs[|xs| - 1]
  }

  /** The arithmetic mean, or 0 for an empty list. */
  function Mean(xs: seq<nat>): (r: real)
    ensures xs == [] ==> r == 0.0
    ensures xs != [] ==> r * (|xs| as real) == Sum(xs) as real
    ensures 0.0 <= r
  {
    if xs == [] then 0.0 else (Sum(xs) as real) / (|xs| as real)
  }

  /** A sum of values each at most `bound` is at most `bound` times their number. */
  lemma {:induction false} SumBounded(xs: seq<nat>, bound: nat)
    requires forall i | 0 <= i < |xs| :: xs[i] <= bound
    ensures Sum(xs) <= bound * |xs|
  {
    if xs != [] {
      SumBounded(xs[..|xs| - 1], bound);
    }
  }

  /** The mean lies within every bound that all the values respect. */
  lemma MeanBounded(xs: seq<nat>, bound: nat)
    requires forall i | 0 <= i < |xs| :: xs[i] <= bound
    ensures Mean(xs) <= bound as real
  {
    if xs != [] {
      SumBounded(xs, bound);
      var n := |xs| as real;
      assert Mean(xs) * n <= (bound as real) * n;
    }
  }
}
