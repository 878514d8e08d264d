/** The lower credible bound of a reliability posterior, found by bisection of a
    distribution function that is left abstract. */
module Reliability {

  /** What the bisection relies on: a rising function from 0 at 0 to 1 at 1. */
  ghost predicate IsDistribution(cdf: real -> real) {
    cdf(0.0) == 0.0 && cdf(1.0) == 1.0 && forall x, y :: x <= y ==> cdf(x) <= cdf(y)
  }

  const TOLERANCE := 0.0000000001

  /** The width of the bracket after `i` halvings. */
  function Width(i: nat): real {
    if i == 0 then 1.0 else Width(i - 1) / 2.0
  }

  lemma {:induction false} WidthShrinks(i: nat, j: nat)
    requires i <= j
    ensures 0.0 < Width(j) <= Width(i)
  {
    if i < j {
      WidthShrinks(i, j - 1);
    } else if 0 < j {
      WidthShrinks(i - 1, j - 1);
    }
  }

  lemma {:induction false} WidthAt34()
    ensures Width(34) <= TOLERANCE
  {
    assert Width(8) == 1.0 / 256.0;
    assert Width(16) == 1.0 / 65536.0;
    assert Width(24) == 1.0 / 16777216.0;
    assert Width(32) == 1.0 / 4294967296.0;
  }

  /** The returned bound is within half the tolerance of where the distribution
      function first reaches the tail the credible level leaves. */
  method ReliabilityLowerBound(cdf: real -> real, credibleLevel: real) returns (bound: real)
    requires 0.5 < credibleLevel < 1.0
    ensures 0.0 <= bound <= 1.0
    ensures IsDistribution(cdf) ==> forall x :: x <= bound - TOLERANCE / 2.0 ==> cdf(x) < 1.0 - credibleLevel
    ensures IsDistribution(cdf) ==> forall x :: bound + TOLERANCE / 2.0 <= x ==> cdf(x) >= 1.0 - credibleLevel
  {
    var target := 1.0 - credibleLevel;
    var low, high := 0.0, 1.0;
    var i := 0;
    while i < 200 && high - low > TOLERANCE
      invariant 0 <= i <= 200
      invariant 0.0 <= low <= high <= 1.0
      invariant high - low == Width(i)
      invariant low == 0.0 || cdf(low) < target
      invariant high == 1.0 || cdf(high) >= target
    {
      var mid := (low + high) / 2.0;
      if cdf(mid) < target {
        low := mid;
      } else {
        high := mid;
      }
      i := i + 1;
    }
    if high - low > TOLERANCE {
      WidthShrinks(34, 200);
      WidthAt34();
    }
    bound := (low + high) / 2.0;
    assert bound - TOLERANCE / 2.0 <= low && high <= bound + TOLERANCE / 2.0;
  }
}
