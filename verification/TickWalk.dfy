/** The walk of StabilizationVault.amountInToReachTarget over initialised ticks. */
module TickWalk {
  import opened Evm
  import opened PoolModel
  import opened SwapMath

  predicate Toward(zeroForOne: bool, price: nat, target: nat) {
    if zeroForOne then target <= price else price <= target
  }

  predicate Walkable(p: Pool, zeroForOne: bool, tick: int, price: nat, target: nat) {
    InTick(p, tick, price) && InRange(p, price) && InRange(p, target) && Toward(zeroForOne, price, target)
  }

  function StepTarget(zeroForOne: bool, edge: nat, target: nat): nat {
    if zeroForOne then (if edge < target then target else edge)
    else (if edge > target then target else edge)
  }

  /** The tick after crossing the stop `next`. */
  function Crossed(zeroForOne: bool, next: int): int {
    if zeroForOne then next - 1 else next
  }

  /** The tick after a step towards the stop `next`: past it when the step ends
      on it, and the tick of the price otherwise. */
  function TickAfter(p: Pool, zeroForOne: bool, next: int, stepTarget: nat): int
    requires p.minTick <= p.maxTick && InRange(p, stepTarget)
  {
    if stepTarget == p.ratio(next) then Crossed(zeroForOne, next) else TickAt(p, stepTarget)
  }

  /** The running liquidity after that step. */
  function LiquidityAfter(p: Pool, zeroForOne: bool, next: int, stepTarget: nat, liquidity: int): int {
    if stepTarget != p.ratio(next) then liquidity
    else if zeroForOne then liquidity - NetAt(p, next)
    else liquidity + NetAt(p, next)
  }

  /** The steps of a walk, each at one liquidity, up to the final tick. */
  datatype Path = Arrived(tick: int) | Step(liquidity: nat, price: SqrtPrice, stepTarget: SqrtPrice, rest: Path)
  {
    function FinalTick(): int {
      match this
      case Arrived(t) => t
      case Step(_, _, _, rest) => rest.FinalTick()
    }

    function Steps(): nat {
      match this
      case Arrived(_) => 0
      case Step(_, _, _, rest) => 1 + rest.Steps()
    }

    function AmountIn(): nat {
      match this
      case Arrived(_) => 0
      case Step(liquidity, price, stepTarget, rest) => StepAmount(liquidity, price, stepTarget) + rest.AmountIn()
    }
  }

  /** The stop lies ahead, with no initialised tick before it. */
  ghost predicate IsStop(p: Pool, zeroForOne: bool, tick: int, price: nat, next: int) {
    && p.minTick <= next <= p.maxTick
    && Toward(zeroForOne, price, p.ratio(next))
    && (if zeroForOne then next <= tick && (forall k | next < k <= tick :: k !in p.net)
        else tick < next && (forall k | tick < k < next :: k !in p.net))
  }

  lemma StopAhead(p: Pool, zeroForOne: bool, tick: int, price: nat, target: nat)
    requires IncreasingRatios(p) && Walkable(p, zeroForOne, tick, price, target) && price != target
    ensures IsStop(p, zeroForOne, tick, price, NextTick(p, tick, zeroForOne))
  {
  }

  /** Bounds the steps still to come. */
  function Distance(p: Pool, zeroForOne: bool, tick: int, price: nat, target: nat): int {
    if price == target then 0 else if zeroForOne then tick - p.minTick + 2 else p.maxTick - tick + 1
  }

  lemma CrossedInTick(p: Pool, zeroForOne: bool, next: int)
    requires IncreasingRatios(p) && p.minTick <= next <= p.maxTick
    ensures InTick(p, Crossed(zeroForOne, next), p.ratio(next)) && InRange(p, p.ratio(next))
  {
  }

  lemma TickAtBounds(p: Pool, price: nat, t: int)
    requires IncreasingRatios(p) && InRange(p, price) && p.minTick <= t <= p.maxTick
    ensures p.ratio(t) <= price ==> t <= TickAt(p, price)
    ensures price < p.ratio(t) ==> TickAt(p, price) < t
  {
  }

  lemma PastStop(p: Pool, zeroForOne: bool, tick: int, price: nat, target: nat, next: int)
    requires IncreasingRatios(p) && Walkable(p, zeroForOne, tick, price, target) && price != target
    requires IsStop(p, zeroForOne, tick, price, next)
    ensures var stepTarget := StepTarget(zeroForOne, p.ratio(next), target);
            && InRange(p, stepTarget) && Toward(zeroForOne, price, stepTarget)
            && var after := TickAfter(p, zeroForOne, next, stepTarget);
            && Walkable(p, zeroForOne, after, stepTarget, target)
            && (if zeroForOne then next - 1 <= after <= tick else tick <= after <= next)
            && (stepTarget != target ==> after == Crossed(zeroForOne, next))
            && (stepTarget != p.ratio(next) ==>
                  p.minTick <= after && if zeroForOne then next <= after else after < next)
  {
    CrossedInTick(p, zeroForOne, next);
    var stepTarget := StepTarget(zeroForOne, p.ratio(next), target);
    if stepTarget != p.ratio(next) {
      TickAtBounds(p, target, next);
      if zeroForOne && tick < p.maxTick {
        TickAtBounds(p, target, tick + 1);
      }
      if !zeroForOne && p.minTick <= tick {
        TickAtBounds(p, target, tick);
      }
    }
  }

  /** A step keeps the walk walkable; unless it arrives, the tick moves strictly
      towards the target. */
  lemma StepFacts(p: Pool, zeroForOne: bool, tick: int, price: nat, target: nat)
    requires IncreasingRatios(p) && Walkable(p, zeroForOne, tick, price, target) && price != target
    ensures var next := NextTick(p, tick, zeroForOne);
            var stepTarget := StepTarget(zeroForOne, p.ratio(next), target);
            && InRange(p, stepTarget) && Toward(zeroForOne, price, stepTarget)
            && var after := TickAfter(p, zeroForOne, next, stepTarget);
            && Walkable(p, zeroForOne, after, stepTarget, target)
            && 0 <= Distance(p, zeroForOne, after, stepTarget, target) < Distance(p, zeroForOne, tick, price, target)
            && (stepTarget != target ==> if zeroForOne then after < tick else tick < after)
  {
    var next := NextTick(p, tick, zeroForOne);
    assert IsStop(p, zeroForOne, tick, price, next) by { StopAhead(p, zeroForOne, tick, price, target); }
    PastStop(p, zeroForOne, tick, price, target, next);
  }

  /** The running liquidity stays that of the tick reached. */
  lemma StepKeepsLiquidity(p: Pool, zeroForOne: bool, tick: int, price: nat, target: nat)
    requires IncreasingRatios(p) && Walkable(p, zeroForOne, tick, price, target) && price != target
    ensures var next := NextTick(p, tick, zeroForOne);
            var stepTarget := StepTarget(zeroForOne, p.ratio(next), target);
            && InRange(p, stepTarget)
            && Active(p, TickAfter(p, zeroForOne, next, stepTarget))
                 == LiquidityAfter(p, zeroForOne, next, stepTarget, Active(p, tick))
  {
    var next := NextTick(p, tick, zeroForOne);
    assert IsStop(p, zeroForOne, tick, price, next) by { StopAhead(p, zeroForOne, tick, price, target); }
    LiquidityPastStop(p, zeroForOne, tick, price, target, next);
  }

  lemma LiquidityPastStop(p: Pool, zeroForOne: bool, tick: int, price: nat, target: nat, next: int)
    requires IncreasingRatios(p) && Walkable(p, zeroForOne, tick, price, target) && price != target
    requires IsStop(p, zeroForOne, tick, price, next)
    ensures var stepTarget := StepTarget(zeroForOne, p.ratio(next), target);
            && InRange(p, stepTarget)
            && Active(p, TickAfter(p, zeroForOne, next, stepTarget))
                 == LiquidityAfter(p, zeroForOne, next, stepTarget, Active(p, tick))
  {
    PastStop(p, zeroForOne, tick, price, target, next);
    var stepTarget := StepTarget(zeroForOne, p.ratio(next), target);
    if stepTarget == p.ratio(next) {
      LiquidityCrossed(p, zeroForOne, tick, next);
    } else {
      LiquidityLanded(p, zeroForOne, tick, price, next, TickAfter(p, zeroForOne, next, stepTarget));
    }
  }

  lemma LiquidityCrossed(p: Pool, zeroForOne: bool, tick: int, next: int)
    requires p.minTick - 1 <= tick && p.minTick <= next
    requires if zeroForOne then next <= tick && (forall k | next < k <= tick :: k !in p.net)
             else tick < next && (forall k | tick < k < next :: k !in p.net)
    ensures Active(p, Crossed(zeroForOne, next))
         == if zeroForOne then Active(p, tick) - NetAt(p, next) else Active(p, tick) + NetAt(p, next)
  {
    if zeroForOne {
      ActiveFlat(p, next, tick);
    } else {
      ActiveFlat(p, tick, next - 1);
    }
  }

  /** Short of the stop the landing tick lies between the two, at the same liquidity. */
  lemma LiquidityLanded(p: Pool, zeroForOne: bool, tick: int, price: nat, next: int, landing: int)
    requires p.minTick - 1 <= tick && p.minTick <= landing && IsStop(p, zeroForOne, tick, price, next)
    requires if zeroForOne then next <= landing <= tick else tick <= landing < next
    ensures Active(p, landing) == Active(p, tick)
  {
    if zeroForOne {
      ActiveFlat(p, landing, tick);
    } else {
      ActiveFlat(p, tick, landing);
    }
  }

  /** The walk itself, one stop at a time. */
  ghost function Walk(p: Pool, zeroForOne: bool, tick: int, price: nat, target: nat): (path: Path)
    requires WellFormed(p) && Walkable(p, zeroForOne, tick, price, target)
    ensures InTick(p, path.FinalTick(), target)
    decreases Distance(p, zeroForOne, tick, price, target)
  {
    if price == target then Arrived(tick)
    else
      StepFacts(p, zeroForOne, tick, price, target);
      var next := NextTick(p, tick, zeroForOne);
      var stepTarget := StepTarget(zeroForOne, p.ratio(next), target);
      Step(Active(p, tick), price, stepTarget,
           Walk(p, zeroForOne, TickAfter(p, zeroForOne, next, stepTarget), stepTarget, target))
  }

  /** A walk has at most one step per tick of the range, plus two. */
  lemma {:induction false} StepsBound(p: Pool, zeroForOne: bool, tick: int, price: nat, target: nat)
    requires WellFormed(p) && Walkable(p, zeroForOne, tick, price, target)
    ensures Walk(p, zeroForOne, tick, price, target).Steps() <= Distance(p, zeroForOne, tick, price, target)
    decreases Distance(p, zeroForOne, tick, price, target)
  {
    if price == target {
    } else {
      StepFacts(p, zeroForOne, tick, price, target);
      var next := NextTick(p, tick, zeroForOne);
      var stepTarget := StepTarget(zeroForOne, p.ratio(next), target);
      StepsBound(p, zeroForOne, TickAfter(p, zeroForOne, next, stepTarget), stepTarget, target);
    }
  }

  /** Every step of a walk costs at most MAX_STEP. */
  lemma {:induction false} AmountBound(p: Pool, zeroForOne: bool, tick: int, price: nat, target: nat)
    requires WellFormed(p) && Walkable(p, zeroForOne, tick, price, target)
    ensures var path := Walk(p, zeroForOne, tick, price, target);
            path.AmountIn() <= path.Steps() * MAX_STEP
    decreases Distance(p, zeroForOne, tick, price, target)
  {
    if price == target {
    } else {
      StepFacts(p, zeroForOne, tick, price, target);
      var next := NextTick(p, tick, zeroForOne);
      var stepTarget := StepTarget(zeroForOne, p.ratio(next), target);
      StepAmountFits(Active(p, tick), price, stepTarget);
      AmountBound(p, zeroForOne, TickAfter(p, zeroForOne, next, stepTarget), stepTarget, target);
    }
  }

  /** So the sum of a walk never overflows 256 bits, even after one more step. */
  lemma WalkFits(p: Pool, zeroForOne: bool, tick: int, price: nat, target: nat)
    requires WellFormed(p) && Walkable(p, zeroForOne, tick, price, target)
    ensures Walk(p, zeroForOne, tick, price, target).AmountIn() + MAX_STEP < TWO_256
  {
    StepsBound(p, zeroForOne, tick, price, target);
    AmountBound(p, zeroForOne, tick, price, target);
  }
}
