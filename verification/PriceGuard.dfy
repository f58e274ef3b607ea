/** The deviation guard of StabilizationVault.executeArbitrage. */
module PriceGuard {
  import opened Evm
  import opened Rounding
  import opened PriceConversion

  /** Deviation of the floored price from the target in basis points; dividing
      by a zero target reverts. */
  function DeviationBps(current: nat, target: nat): Outcome<nat> {
    if target == 0 then Revert
    else
      var diff := if current > target then current - target else target - current;
      match CheckedMul(diff, 10000)
      case Ok(scaled) => Ok(scaled / target)
      case Revert => Revert
  }

  predicate GuardPasses(current: nat, target: nat, thresholdBps: nat) {
    match DeviationBps(current, target)
    case Ok(bps) => thresholdBps <= bps
    case Revert => false
  }

  /** One unit of floored price is at least the threshold exactly when target *
      threshold is at most 10000; there the guard only asks whether the floored
      price differs from the target at all. */
  lemma GuardIgnoresThreshold(current: nat, target: nat, thresholdBps: nat)
    requires current < TWO_64 && 0 < target < TWO_64 && 0 < thresholdBps
    ensures target * thresholdBps <= 10000 ==> (GuardPasses(current, target, thresholdBps) <==> current != target)
    ensures 10000 < target * thresholdBps ==> !GuardPasses(target - 1, target, thresholdBps)
  {
    var diff := if current > target then current - target else target - current;
    AtLeast(diff * 10000, target, thresholdBps);
    AtLeast(10000, target, thresholdBps);
  }

  function Apart(a: nat, b: nat): nat {
    if a < b then b - a else a - b
  }

  /** In general the guard compares the whole-number deviation with the threshold's
      share of the target. */
  lemma GuardIff(current: nat, target: nat, thresholdBps: nat)
    requires current < TWO_64 && target < TWO_64
    ensures GuardPasses(current, target, thresholdBps)
       <==> 0 < target && thresholdBps * target <= 10000 * Apart(current, target)
  {
    if 0 < target {
      var diff := if current > target then current - target else target - current;
      AtLeast(diff * 10000, target, thresholdBps);
    }
  }

  /** k <= floor(n / d) iff k * d <= n. */
  lemma AtLeast(n: nat, d: nat, k: nat)
    requires 0 < d
    ensures k <= n / d <==> d * k <= n
  {
    var q := n / d;
    assert q * d <= n < (q + 1) * d by { FloorBounds(n, d); }
    if k <= q { MulMono(k, q, d); } else { MulMono(q + 1, k, d); }
  }

  /** On the pool's own root price: within the threshold's reach, the guard passes
      exactly outside the whole unit interval [target, target + 1) of prices. */
  lemma GuardOnRootPrice(sqrtPriceX96: nat, target: nat, thresholdBps: nat)
    requires sqrtPriceX96 < TWO_128 && 0 < target < TWO_64 && 0 < thresholdBps && target * thresholdBps <= 10000
    ensures FloorPrice(sqrtPriceX96).Ok?
    ensures GuardPasses(FloorPrice(sqrtPriceX96).value, target, thresholdBps)
       <==> sqrtPriceX96 * sqrtPriceX96 < target * TWO_192 || (target + 1) * TWO_192 <= sqrtPriceX96 * sqrtPriceX96
  {
    FloorPriceComputed(sqrtPriceX96);
    var square := sqrtPriceX96 * sqrtPriceX96;
    var current := square / TWO_192;
    GuardIgnoresThreshold(current, target, thresholdBps);
    assert current == target <==> target * TWO_192 <= square < (target + 1) * TWO_192;
  }

  /** So a pool one unit below its peg passes at every allowed threshold, and one
      almost twice above it never does. */
  lemma GuardAtPeg(thresholdBps: nat)
    requires 0 < thresholdBps <= 1000
    ensures FloorPrice(TWO_96 - 1).Ok? && GuardPasses(FloorPrice(TWO_96 - 1).value, 1, thresholdBps)
    ensures 19 * TWO_192 < 10 * (TWO_96 / 5 * 7) * (TWO_96 / 5 * 7)
    ensures FloorPrice(TWO_96 / 5 * 7).Ok? && !GuardPasses(FloorPrice(TWO_96 / 5 * 7).value, 1, thresholdBps)
  {
    GuardOnRootPrice(TWO_96 - 1, 1, thresholdBps);
    GuardOnRootPrice(TWO_96 / 5 * 7, 1, thresholdBps);
  }
}
