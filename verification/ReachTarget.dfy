/** StabilizationVault.amountInToReachTarget: the loop, for either direction flag
    and from any current price. */
module ReachTarget {
  import opened Evm
  import opened SwapMath
  import opened PoolModel
  import opened TickWalk

  datatype Reached = Reached(amountIn: nat, finalTick: int, finalLiquidity: nat)

  /** The caller's current price need not lie in the pool's current tick, unless
      slot0's tick is at an end of the tick range. */
  ghost predicate Startable(p: Pool, price: nat) {
    WellFormed(p) && InRange(p, price) && (InTick(p, p.tick, price) || p.minTick <= p.tick < p.maxTick)
  }

  /** What the loop returns. Its first step goes, at the pool's liquidity, to the
      nearer of the first stop and the target in the flag's order; from a stop the
      rest is a walk. */
  ghost function ReachedFrom(p: Pool, price: nat, target: nat, zeroForOne: bool): Reached
    requires Startable(p, price) && InRange(p, target)
  {
    var next := NextTick(p, p.tick, zeroForOne);
    var edge := p.ratio(next);
    if price == target then Reached(0, p.tick, p.liquidity)
    else if StepTarget(zeroForOne, edge, target) != edge then ByJump(p, price, target)
    else
      ByStop(p, price, target, zeroForOne, next)
  }

  /** What a first step to a stop and the walk from there return. */
  ghost function ByStop(p: Pool, price: nat, target: nat, zeroForOne: bool, next: int): Reached
    requires WellFormed(p) && InRange(p, price) && InRange(p, target)
    requires p.minTick <= next <= p.maxTick && Toward(zeroForOne, p.ratio(next), target)
  {
    CrossedInTick(p, zeroForOne, next);
    var path := Walk(p, zeroForOne, Crossed(zeroForOne, next), p.ratio(next), target);
    Reached(StepAmount(p.liquidity, price, p.ratio(next)) + path.AmountIn(),
            path.FinalTick(), Active(p, path.FinalTick()))
  }

  /** What a walk from the pool's tick returns, and what a jump to the target does. */
  ghost function ByWalk(p: Pool, price: nat, target: nat, zeroForOne: bool): Reached
    requires WellFormed(p) && Walkable(p, zeroForOne, p.tick, price, target)
  {
    var path := Walk(p, zeroForOne, p.tick, price, target);
    Reached(path.AmountIn(), path.FinalTick(), Active(p, path.FinalTick()))
  }

  ghost function ByJump(p: Pool, price: nat, target: nat): Reached
    requires WellFormed(p) && InRange(p, price) && InRange(p, target)
  {
    Reached(StepAmount(p.liquidity, price, target), TickAt(p, target), p.liquidity)
  }

  /** From inside the pool's tick that is the whole walk when the flag agrees with
      the price move, and a single step at the starting liquidity when it does not. */
  lemma ReachedInTick(p: Pool, price: nat, target: nat, zeroForOne: bool)
    requires Startable(p, price) && InTick(p, p.tick, price) && InRange(p, target) && price != target
    ensures ReachedFrom(p, price, target, zeroForOne)
         == if Toward(zeroForOne, price, target) then ByWalk(p, price, target, zeroForOne) else ByJump(p, price, target)
  {
    if Toward(zeroForOne, price, target) {
      WalkFromTick(p, price, target, zeroForOne, NextTick(p, p.tick, zeroForOne));
    } else {
      OppositeFlagJumps(p, price, target, zeroForOne);
    }
  }

  lemma WalkFromTick(p: Pool, price: nat, target: nat, zeroForOne: bool, next: int)
    requires WellFormed(p) && Walkable(p, zeroForOne, p.tick, price, target) && price != target
    requires next == NextTick(p, p.tick, zeroForOne)
    ensures ReachedFrom(p, price, target, zeroForOne) == ByWalk(p, price, target, zeroForOne)
  {
    var stepTarget := StepTarget(zeroForOne, p.ratio(next), target);
    if stepTarget == p.ratio(next) {
      CrossedInTick(p, zeroForOne, next);
      var rest := Walk(p, zeroForOne, Crossed(zeroForOne, next), stepTarget, target);
      assert Walk(p, zeroForOne, p.tick, price, target) == Step(p.liquidity, price, stepTarget, rest) by {
        StepFacts(p, zeroForOne, p.tick, price, target);
      }
    } else {
      WalkLands(p, price, target, zeroForOne, next);
    }
  }

  /** A walk whose first stop lies beyond the target is the jump. */
  lemma WalkLands(p: Pool, price: nat, target: nat, zeroForOne: bool, next: int)
    requires WellFormed(p) && Walkable(p, zeroForOne, p.tick, price, target) && price != target
    requires next == NextTick(p, p.tick, zeroForOne) && StepTarget(zeroForOne, p.ratio(next), target) != p.ratio(next)
    ensures ByWalk(p, price, target, zeroForOne) == ByJump(p, price, target)
  {
    var landing := TickAt(p, target);
    assert Walk(p, zeroForOne, p.tick, price, target) == Step(p.liquidity, price, target, Arrived(landing)) by {
      StepFacts(p, zeroForOne, p.tick, price, target);
      assert Walk(p, zeroForOne, landing, target, target) == Arrived(landing);
    }
    assert Active(p, landing) == p.liquidity by { StepKeepsLiquidity(p, zeroForOne, p.tick, price, target); }
    OneStepPath(p.liquidity, price, target, landing);
  }

  lemma OneStepPath(liquidity: nat, price: SqrtPrice, target: SqrtPrice, tick: int)
    ensures var path := Step(liquidity, price, target, Arrived(tick));
            path.AmountIn() == StepAmount(liquidity, price, target) && path.FinalTick() == tick
  {
  }

  /** Against its flag the walk sees every stop behind it and jumps to the target. */
  lemma OppositeFlagJumps(p: Pool, price: nat, target: nat, zeroForOne: bool)
    requires WellFormed(p) && InTick(p, p.tick, price) && InRange(p, price) && InRange(p, target)
    requires !Toward(zeroForOne, price, target)
    ensures var edge := p.ratio(NextTick(p, p.tick, zeroForOne));
            StepTarget(zeroForOne, edge, target) == target && edge != target
  {
  }

  /** getTickAtSqrtRatio refuses the largest ratio, which only a jump asks it for. */
  predicate Refused(p: Pool, price: nat, target: nat, zeroForOne: bool) {
    && price != target && target == p.ratio(p.maxTick)
    && zeroForOne && p.ratio(NextTick(p, p.tick, true)) < target
  }

  /** From inside the pool's tick that is a rise to the very top against the flag. */
  lemma RefusedInTick(p: Pool, price: nat, target: nat, zeroForOne: bool)
    requires Startable(p, price) && InTick(p, p.tick, price) && InRange(p, target)
    ensures Refused(p, price, target, zeroForOne) <==> zeroForOne && price < target == p.ratio(p.maxTick)
  {
    if zeroForOne && price < target {
      OppositeFlagJumps(p, price, target, zeroForOne);
    }
  }

  /** The swap step as the loop calls it; it drops the fee amount. */
  method UnlimitedStep(price: SqrtPrice, stepTarget: SqrtPrice, liquidity: nat, fee: nat) returns (amountIn: nat)
    requires fee < PIPS && liquidity < TWO_128 && price < TWO_160 && stepTarget < TWO_160
    ensures amountIn == StepAmount(liquidity, price, stepTarget)
  {
    UnlimitedStepReaches(price, stepTarget, liquidity, fee);
    var step := ComputeSwapStep(price, stepTarget, liquidity, MAX_INT256, fee);
    amountIn := step.amountIn;
  }

  method AmountInToReachTarget(p: Pool, currentSqrtPriceX96: nat, targetSqrtPriceX96: nat, zeroForOne: bool)
    returns (r: Outcome<Reached>)
    requires Startable(p, currentSqrtPriceX96) && InRange(p, targetSqrtPriceX96)
    ensures r.Revert? <==>
              || p.liquidity == 0 || targetSqrtPriceX96 == p.sqrtPriceX96
              || Refused(p, currentSqrtPriceX96, targetSqrtPriceX96, zeroForOne)
    ensures r.Ok? ==> r.value == ReachedFrom(p, currentSqrtPriceX96, targetSqrtPriceX96, zeroForOne)
  {
    if p.liquidity == 0 || targetSqrtPriceX96 == p.sqrtPriceX96 {
      return Revert;
    }
    var price: nat, tick, liquidity: nat, amountIn: nat := currentSqrtPriceX96, p.tick, p.liquidity, 0;
    ghost var result := ReachedFrom(p, price, targetSqrtPriceX96, zeroForOne);
    ghost var refused := Refused(p, price, targetSqrtPriceX96, zeroForOne);
    while price != targetSqrtPriceX96
      invariant LoopState(p, currentSqrtPriceX96, targetSqrtPriceX96, zeroForOne, result,
                          price, tick, liquidity, amountIn)
      invariant refused ==> price != targetSqrtPriceX96
      decreases Distance(p, zeroForOne, tick, price, targetSqrtPriceX96)
    {
      LoopStep(p, currentSqrtPriceX96, targetSqrtPriceX96, zeroForOne, result, price, tick, liquidity, amountIn);
      var next := NextTick(p, tick, zeroForOne);
      var edge := p.ratio(next);
      var stepTarget := StepTarget(zeroForOne, edge, targetSqrtPriceX96);
      var stepIn := UnlimitedStep(price, stepTarget, liquidity, if zeroForOne then p.fee else 0);
      amountIn := CheckedAdd(amountIn, stepIn).value;
      if stepTarget != edge && stepTarget == p.ratio(p.maxTick) {
        return Revert;
      }
      price := stepTarget;
      liquidity := LiquidityAfter(p, zeroForOne, next, price, liquidity);
      tick := TickAfter(p, zeroForOne, next, price);
      assert LoopState(p, currentSqrtPriceX96, targetSqrtPriceX96, zeroForOne, result,
                       price, tick, liquidity, amountIn);
      if price == targetSqrtPriceX96 {
        break;
      }
    }
    return Ok(Reached(amountIn, tick, liquidity));
  }

  /** Before the first step nothing has changed; afterwards the rest of the walk
      completes the result, and at the target nothing is left. */
  ghost predicate LoopState(p: Pool, start: nat, target: nat, zeroForOne: bool, result: Reached,
                            price: nat, tick: int, liquidity: nat, paid: nat)
    requires WellFormed(p)
  {
    if price == target then result == Reached(paid, tick, liquidity)
    else if Fresh(p, start, price, tick, paid) then liquidity == p.liquidity
    else Walks(p, zeroForOne, tick, price, target, liquidity, paid, result)
  }

  predicate Fresh(p: Pool, start: nat, price: nat, tick: int, paid: nat) {
    price == start && tick == p.tick && paid == 0
  }

  /** What was paid so far and what the rest of the walk pays make up the result. */
  ghost predicate Walks(p: Pool, zeroForOne: bool, tick: int, price: nat, target: nat,
                        liquidity: nat, paid: nat, result: Reached)
    requires WellFormed(p)
  {
    && Walkable(p, zeroForOne, tick, price, target) && liquidity == Active(p, tick)
    && var path := Walk(p, zeroForOne, tick, price, target);
    && paid + path.AmountIn() == result.amountIn < TWO_256
    && path.FinalTick() == result.finalTick && Active(p, path.FinalTick()) == result.finalLiquidity
  }

  /** One turn of the loop; it asks for the tick of the largest ratio exactly when
      the call is refused. */
  lemma LoopStep(p: Pool, start: nat, target: nat, zeroForOne: bool, result: Reached,
                 price: nat, tick: int, liquidity: nat, paid: nat)
    requires Startable(p, start) && InRange(p, target) && price != target
    requires result == ReachedFrom(p, start, target, zeroForOne)
    requires LoopState(p, start, target, zeroForOne, result, price, tick, liquidity, paid)
    ensures var next := NextTick(p, tick, zeroForOne);
            var stepTarget := StepTarget(zeroForOne, p.ratio(next), target);
            && StepDone(p, start, target, zeroForOne, result, price, tick, liquidity, paid, next, stepTarget)
            && liquidity < TWO_128 && price < TWO_160 && stepTarget < TWO_160
            && (stepTarget != p.ratio(next) && stepTarget == p.ratio(p.maxTick)
                <==> Refused(p, start, target, zeroForOne))
  {
    var next := NextTick(p, tick, zeroForOne);
    var stepTarget := StepTarget(zeroForOne, p.ratio(next), target);
    if Fresh(p, start, price, tick, paid) {
      if stepTarget == p.ratio(next) {
        FirstStop(p, start, target, zeroForOne, next);
        FirstStepToStop(p, start, target, zeroForOne, result, next);
      } else {
        FirstStepJumps(p, start, target, zeroForOne, result, next);
      }
    } else {
      LaterStep(p, start, target, zeroForOne, result, price, tick, liquidity, paid, next, stepTarget);
    }
  }

  /** The state after a step to stepTarget, with nothing overflowing on the way. */
  ghost predicate StepDone(p: Pool, start: nat, target: nat, zeroForOne: bool, result: Reached,
                           price: nat, tick: int, liquidity: nat, paid: nat, next: int, stepTarget: nat)
    requires WellFormed(p)
  {
    && InRange(p, stepTarget) && 0 < price
    && var after, later := TickAfter(p, zeroForOne, next, stepTarget),
                           LiquidityAfter(p, zeroForOne, next, stepTarget, liquidity);
    && 0 <= later && CheckedAdd(paid, StepAmount(liquidity, price, stepTarget)).Ok?
    && LoopState(p, start, target, zeroForOne, result, stepTarget, after, later,
                 CheckedAdd(paid, StepAmount(liquidity, price, stepTarget)).value)
    && 0 <= Distance(p, zeroForOne, after, stepTarget, target) < Distance(p, zeroForOne, tick, price, target)
  }

  /** The liquidity past the first stop. */
  lemma LiquidityAtStop(p: Pool, zeroForOne: bool, next: int)
    requires WellFormed(p) && p.minTick - 1 <= p.tick && IsFirstStop(p, zeroForOne, next)
    ensures 0 <= LiquidityAfter(p, zeroForOne, next, p.ratio(next), p.liquidity) == Active(p, Crossed(zeroForOne, next))
  {
    LiquidityCrossed(p, zeroForOne, p.tick, next);
  }

  /** The first step, from wherever the price is to the first stop. */
  lemma FirstStepToStop(p: Pool, start: nat, target: nat, zeroForOne: bool, result: Reached, next: int)
    requires WellFormed(p) && InRange(p, start) && InRange(p, target) && start != target && p.minTick - 1 <= p.tick
    requires IsFirstStop(p, zeroForOne, next) && Toward(zeroForOne, p.ratio(next), target)
    requires result == ByStop(p, start, target, zeroForOne, next)
    ensures StepDone(p, start, target, zeroForOne, result, start, p.tick, p.liquidity, 0, next, p.ratio(next))
  {
    LiquidityAtStop(p, zeroForOne, next);
    StepAmountFits(p.liquidity, start, p.ratio(next));
    var later := Active(p, Crossed(zeroForOne, next));
    WalkFromStop(p, start, target, zeroForOne, result, next, later);
    StepIsDone(p, start, target, zeroForOne, result, next, Crossed(zeroForOne, next), later,
               StepAmount(p.liquidity, start, p.ratio(next)));
  }

  lemma StepIsDone(p: Pool, start: nat, target: nat, zeroForOne: bool, result: Reached,
                   next: int, crossed: int, later: nat, step: nat)
    requires WellFormed(p) && InRange(p, start) && InRange(p, p.ratio(next)) && start != target
    requires crossed == Crossed(zeroForOne, next) && IsFirstStop(p, zeroForOne, next)
    requires later == LiquidityAfter(p, zeroForOne, next, p.ratio(next), p.liquidity)
    requires step == StepAmount(p.liquidity, start, p.ratio(next)) <= MAX_STEP
    requires LoopState(p, start, target, zeroForOne, result, p.ratio(next), crossed, later, step)
    ensures StepDone(p, start, target, zeroForOne, result, start, p.tick, p.liquidity, 0, next, p.ratio(next))
  {
  }

  lemma WalkFromStop(p: Pool, start: nat, target: nat, zeroForOne: bool, result: Reached, next: int, later: nat)
    requires WellFormed(p) && InRange(p, start) && InRange(p, target)
    requires p.minTick <= next <= p.maxTick && Toward(zeroForOne, p.ratio(next), target)
    requires result == ByStop(p, start, target, zeroForOne, next)
    requires later == Active(p, Crossed(zeroForOne, next))
    ensures LoopState(p, start, target, zeroForOne, result, p.ratio(next), Crossed(zeroForOne, next), later,
                      StepAmount(p.liquidity, start, p.ratio(next)))
  {
    CrossedInTick(p, zeroForOne, next);
    StepAmountFits(p.liquidity, start, p.ratio(next));
    WalkFits(p, zeroForOne, Crossed(zeroForOne, next), p.ratio(next), target);
    WalksIsState(p, start, target, zeroForOne, result, p.ratio(next), Crossed(zeroForOne, next), later,
                 StepAmount(p.liquidity, start, p.ratio(next)));
  }

  /** A walk that makes up the result is a state of the loop. */
  lemma WalksIsState(p: Pool, start: nat, target: nat, zeroForOne: bool, result: Reached,
                     price: nat, tick: int, liquidity: nat, paid: nat)
    requires WellFormed(p) && Walks(p, zeroForOne, tick, price, target, liquidity, paid, result)
    ensures LoopState(p, start, target, zeroForOne, result, price, tick, liquidity, paid)
  {
  }

  lemma FirstStepJumps(p: Pool, start: nat, target: nat, zeroForOne: bool, result: Reached, next: int)
    requires Startable(p, start) && InRange(p, target) && start != target
    requires next == NextTick(p, p.tick, zeroForOne) && StepTarget(zeroForOne, p.ratio(next), target) != p.ratio(next)
    requires result == ByJump(p, start, target)
    ensures StepDone(p, start, target, zeroForOne, result, start, p.tick, p.liquidity, 0, next, target)
  {
    StepAmountFits(p.liquidity, start, target);
  }

  lemma LaterStep(p: Pool, start: nat, target: nat, zeroForOne: bool, result: Reached,
                  price: nat, tick: int, liquidity: nat, paid: nat, next: int, stepTarget: nat)
    requires WellFormed(p) && price != target
    requires next == NextTick(p, tick, zeroForOne) && stepTarget == StepTarget(zeroForOne, p.ratio(next), target)
    requires Walks(p, zeroForOne, tick, price, target, liquidity, paid, result)
    ensures StepDone(p, start, target, zeroForOne, result, price, tick, liquidity, paid, next, stepTarget)
  {
    StepFacts(p, zeroForOne, tick, price, target);
    var after, step := TickAfter(p, zeroForOne, next, stepTarget), StepAmount(liquidity, price, stepTarget);
    var later := LiquidityAfter(p, zeroForOne, next, stepTarget, liquidity);
    assert later == Active(p, after) by { StepKeepsLiquidity(p, zeroForOne, tick, price, target); }
    var rest := Walk(p, zeroForOne, after, stepTarget, target);
    assert Walk(p, zeroForOne, tick, price, target) == Step(liquidity, price, stepTarget, rest);
    assert Walks(p, zeroForOne, after, stepTarget, target, later, paid + step, result);
    WalksIsState(p, start, target, zeroForOne, result, stepTarget, after, later, paid + step);
  }

  /** The stop is past the pool's tick, over no initialised tick in between. */
  ghost predicate IsFirstStop(p: Pool, zeroForOne: bool, next: int) {
    && p.minTick <= next <= p.maxTick
    && (if zeroForOne then next <= p.tick && (forall k | next < k <= p.tick :: k !in p.net)
        else p.tick < next && (forall k | p.tick < k < next :: k !in p.net))
  }

  /** A first step that ends on a stop ends on such a one. */
  lemma FirstStop(p: Pool, start: nat, target: nat, zeroForOne: bool, next: int)
    requires Startable(p, start) && InRange(p, target) && start != target
    requires next == NextTick(p, p.tick, zeroForOne) && StepTarget(zeroForOne, p.ratio(next), target) == p.ratio(next)
    ensures IsFirstStop(p, zeroForOne, next)
  {
  }
}
