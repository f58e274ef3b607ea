/** What the walk over initialised ticks promises about the tick-by-tick cost. */
module WalkRefinement {
  import opened Rounding
  import opened SwapMath
  import opened PoolModel
  import opened TickWalk
  import opened TickSum

  function PaidToken(zeroForOne: bool): Token {
    if zeroForOne then Token0 else Token1
  }

  /** Between the price and the step target only one liquidity is active. */
  lemma StepIsFlat(p: Pool, zeroForOne: bool, tick: int, price: SqrtPrice, target: SqrtPrice)
    requires WellFormed(p) && Walkable(p, zeroForOne, tick, price, target) && price != target
    ensures var stepTarget := StepTarget(zeroForOne, p.ratio(NextTick(p, tick, zeroForOne)), target);
            && InRange(p, stepTarget) && Toward(zeroForOne, price, stepTarget)
            && var lo, hi := Min(price, stepTarget), Max(price, stepTarget);
            TickCost(p, PaidToken(zeroForOne), lo, hi)
              == ExactCost(PaidToken(zeroForOne), Active(p, tick), lo, hi)
  {
    var next := NextTick(p, tick, zeroForOne);
    var stepTarget := StepTarget(zeroForOne, p.ratio(next), target);
    StopAhead(p, zeroForOne, tick, price, target);
    var t, u := if zeroForOne then next else tick, if zeroForOne then tick else next - 1;
    forall j | t <= j <= u && p.minTick <= j
      ensures Active(p, j) == Active(p, tick)
    {
      if zeroForOne {
        ActiveFlat(p, j, tick);
      } else {
        ActiveFlat(p, tick, j);
      }
    }
    CostBetween(p, PaidToken(zeroForOne), t, Min(price, stepTarget), u, Max(price, stepTarget), Active(p, tick));
  }

  lemma CostBetween(p: Pool, token: Token, t: int, lo: SqrtPrice, u: int, hi: SqrtPrice, liquidity: int)
    requires IncreasingRatios(p) && lo <= hi && InRange(p, lo) && InRange(p, hi)
    requires p.minTick - 1 <= t <= p.maxTick && (p.minTick <= t ==> p.ratio(t) <= lo)
    requires p.minTick - 1 <= u <= p.maxTick && (u < p.maxTick ==> hi <= p.ratio(u + 1))
    requires forall j | t <= j <= u && p.minTick <= j :: Active(p, j) == liquidity
    ensures TickCost(p, token, lo, hi) == ExactCost(token, liquidity, lo, hi)
  {
    forall j | p.minTick <= j < p.maxTick && Overlaps(p, j, lo, hi)
      ensures Active(p, j) == liquidity
    {
      TicksBetween(p, j, t, lo, u, hi);
    }
    FlatCost(p, token, p.minTick, lo, hi, liquidity);
  }

  /** An overlapping tick lies between the ticks that bound the interval. */
  lemma TicksBetween(p: Pool, j: int, t: int, lo: SqrtPrice, u: int, hi: SqrtPrice)
    requires IncreasingRatios(p) && p.minTick <= j < p.maxTick && Overlaps(p, j, lo, hi)
    requires p.minTick - 1 <= t <= p.maxTick && (p.minTick <= t ==> p.ratio(t) <= lo)
    requires p.minTick - 1 <= u <= p.maxTick && (u < p.maxTick ==> hi <= p.ratio(u + 1))
    ensures t <= j <= u
  {
  }

  /** The charge covers the exact cost, with at most one rounding per step. */
  ghost predicate Charges(token: Token, exact: real, amount: nat, steps: nat) {
    exact <= amount as real <= exact + Allowance(token, steps)
  }

  function Allowance(token: Token, steps: nat): real {
    if steps == 0 then 0.0 else Slack(token) + Allowance(token, steps - 1)
  }

  lemma {:induction false} AllowanceIsProduct(token: Token, steps: nat)
    ensures Allowance(token, steps) == steps as real * Slack(token)
  {
    if steps == 0 {
    } else {
      AllowanceIsProduct(token, steps - 1);
      assert steps as real * Slack(token) == (steps - 1) as real * Slack(token) + Slack(token);
    }
  }

  lemma {:induction false} AllowanceSplits(token: Token, n: nat, n': nat)
    ensures Allowance(token, n + n') == Allowance(token, n) + Allowance(token, n')
  {
    if n == 0 {
    } else {
      AllowanceSplits(token, n - 1, n');
    }
  }

  lemma ChargesAdd(token: Token, e: real, a: nat, n: nat, e': real, a': nat, n': nat)
    requires Charges(token, e, a, n) && Charges(token, e', a', n')
    ensures Charges(token, e + e', a + a', n + n')
  {
    AllowanceSplits(token, n, n');
  }

  /** The walk refines the tick-by-tick sum: it never undercharges, and rounding
      adds less than one unit a step, wherever word boundaries interrupt it. */
  lemma {:induction false} WalkRefinesTickSum(p: Pool, zeroForOne: bool, tick: int, price: SqrtPrice, target: SqrtPrice)
    requires WellFormed(p) && Walkable(p, zeroForOne, tick, price, target)
    ensures var path := Walk(p, zeroForOne, tick, price, target);
            var exact := TickCost(p, PaidToken(zeroForOne), Min(price, target), Max(price, target));
            Charges(PaidToken(zeroForOne), exact, path.AmountIn(), path.Steps())
    decreases Distance(p, zeroForOne, tick, price, target)
  {
    if price == target {
      NoIntervalNoCost(p, PaidToken(zeroForOne), price);
    } else {
      var path := Walk(p, zeroForOne, tick, price, target);
      StepFacts(p, zeroForOne, tick, price, target);
      StepIsCharged(p, zeroForOne, tick, price, target);
      var next := NextTick(p, tick, zeroForOne);
      var after := TickAfter(p, zeroForOne, next, path.stepTarget);
      WalkRefinesTickSum(p, zeroForOne, after, path.stepTarget, target);
      StepThenRestCharges(p, PaidToken(zeroForOne), price, path.stepTarget, target, path);
    }
  }

  lemma StepThenRestCharges(p: Pool, token: Token, price: SqrtPrice, stepTarget: SqrtPrice, target: SqrtPrice,
                            path: Path)
    requires price <= stepTarget <= target || target <= stepTarget <= price
    requires path.Step? && path.price == price && path.stepTarget == stepTarget
    ensures var first := TickCost(p, token, Min(price, stepTarget), Max(price, stepTarget));
            var later := TickCost(p, token, Min(stepTarget, target), Max(stepTarget, target));
            && Charges(token, first, StepAmount(path.liquidity, price, stepTarget), 1)
            && Charges(token, later, path.rest.AmountIn(), path.rest.Steps())
            ==> Charges(token, TickCost(p, token, Min(price, target), Max(price, target)),
                        path.AmountIn(), path.Steps())
  {
    var first := TickCost(p, token, Min(price, stepTarget), Max(price, stepTarget));
    var later := TickCost(p, token, Min(stepTarget, target), Max(stepTarget, target));
    CostSplits(p, token, p.minTick, Min(price, target), stepTarget, Max(price, target));
    var step, rest, n := StepAmount(path.liquidity, price, stepTarget), path.rest.AmountIn(), path.rest.Steps();
    if Charges(token, first, step, 1) && Charges(token, later, rest, n) {
      ChargesAdd(token, first, step, 1, later, rest, n);
    }
  }

  lemma StepIsCharged(p: Pool, zeroForOne: bool, tick: int, price: SqrtPrice, target: SqrtPrice)
    requires WellFormed(p) && Walkable(p, zeroForOne, tick, price, target) && price != target
    ensures var stepTarget := StepTarget(zeroForOne, p.ratio(NextTick(p, tick, zeroForOne)), target);
            && InRange(p, stepTarget) && Toward(zeroForOne, price, stepTarget)
            && Charges(PaidToken(zeroForOne),
                 TickCost(p, PaidToken(zeroForOne), Min(price, stepTarget), Max(price, stepTarget)),
                 StepAmount(Active(p, tick), price, stepTarget), 1)
  {
    StepIsFlat(p, zeroForOne, tick, price, target);
    var stepTarget: SqrtPrice := StepTarget(zeroForOne, p.ratio(NextTick(p, tick, zeroForOne)), target);
    StepIsRounded(zeroForOne, Active(p, tick), price, stepTarget);
  }

  /** A step in the walk's direction is rounded in the token the walk pays, even
      when it does not move the price. */
  lemma StepIsRounded(zeroForOne: bool, liquidity: nat, price: SqrtPrice, stepTarget: SqrtPrice)
    requires Toward(zeroForOne, price, stepTarget)
    ensures var exact := ExactCost(PaidToken(zeroForOne), liquidity, Min(price, stepTarget), Max(price, stepTarget));
            Charges(PaidToken(zeroForOne), exact, StepAmount(liquidity, price, stepTarget), 1)
  {
    if price == stepTarget {
      NoMoveIsFree(liquidity, price);
      ZeroCost(PaidToken(zeroForOne), liquidity, price);
    } else {
      StepRounding(liquidity, price, stepTarget);
    }
    assert Allowance(PaidToken(zeroForOne), 1) == Slack(PaidToken(zeroForOne)) + Allowance(PaidToken(zeroForOne), 0);
  }

  /** What rounding adds along a path, step by step in closed form. */
  function Gains(path: Path): real {
    match path
    case Arrived(_) => 0.0
    case Step(liquidity, price, stepTarget, rest) => StepGain(liquidity, price, stepTarget) + Gains(rest)
  }

  lemma {:induction false} GainsBelowSteps(path: Path)
    ensures 0.0 <= Gains(path)
    ensures path.Step? ==> Gains(path) < path.Steps() as real
  {
    if path.Arrived? {
    } else {
      GainsBelowSteps(path.rest);
      StepGainBelowOne(path.liquidity, path.price, path.stepTarget);
    }
  }

  /** So the sandwich is exact: the walk's input is the tick-by-tick cost plus
      those gains, which stay strictly below one unit a step. */
  lemma {:induction false} WalkIsCostAndGains(p: Pool, zeroForOne: bool, tick: int, price: SqrtPrice, target: SqrtPrice)
    requires WellFormed(p) && Walkable(p, zeroForOne, tick, price, target)
    ensures var path := Walk(p, zeroForOne, tick, price, target);
            var exact := TickCost(p, PaidToken(zeroForOne), Min(price, target), Max(price, target));
            path.AmountIn() as real == exact + Gains(path)
    decreases Distance(p, zeroForOne, tick, price, target)
  {
    if price == target {
      NoIntervalNoCost(p, PaidToken(zeroForOne), price);
    } else {
      var path, token := Walk(p, zeroForOne, tick, price, target), PaidToken(zeroForOne);
      StepFacts(p, zeroForOne, tick, price, target);
      var mid: SqrtPrice := path.stepTarget;
      assert StepAmount(path.liquidity, price, mid) as real
          == TickCost(p, token, Min(price, mid), Max(price, mid)) + StepGain(path.liquidity, price, mid) by {
        StepIsFlat(p, zeroForOne, tick, price, target);
        StepChargesGain(zeroForOne, path.liquidity, price, mid);
      }
      WalkIsCostAndGains(p, zeroForOne, TickAfter(p, zeroForOne, NextTick(p, tick, zeroForOne), mid), mid, target);
      CostSplits(p, token, p.minTick, Min(price, target), mid, Max(price, target));
    }
  }

  lemma StepChargesGain(zeroForOne: bool, liquidity: nat, price: SqrtPrice, stepTarget: SqrtPrice)
    requires Toward(zeroForOne, price, stepTarget)
    ensures StepAmount(liquidity, price, stepTarget) as real
         == ExactCost(PaidToken(zeroForOne), liquidity, Min(price, stepTarget), Max(price, stepTarget))
          + StepGain(liquidity, price, stepTarget)
  {
    StepIsWorthAndGain(liquidity, price, stepTarget);
    ZeroCost(PaidToken(zeroForOne), liquidity, price);
    ZeroCost(Token0, liquidity, price);
  }

  /** From one pool state, a farther target in the same direction never needs less input. */
  lemma {:induction false} WalkIsMonotone(p: Pool, zeroForOne: bool, tick: int, price: SqrtPrice,
                                          near: SqrtPrice, far: SqrtPrice)
    requires WellFormed(p) && Walkable(p, zeroForOne, tick, price, near) && Walkable(p, zeroForOne, tick, price, far)
    requires Toward(zeroForOne, near, far)
    ensures Walk(p, zeroForOne, tick, price, near).AmountIn() <= Walk(p, zeroForOne, tick, price, far).AmountIn()
    decreases Distance(p, zeroForOne, tick, price, near)
  {
    if price == near {
    } else {
      StepFacts(p, zeroForOne, tick, price, near);
      StepFacts(p, zeroForOne, tick, price, far);
      var next := NextTick(p, tick, zeroForOne);
      var s: SqrtPrice := StepTarget(zeroForOne, p.ratio(next), near);
      var s': SqrtPrice := StepTarget(zeroForOne, p.ratio(next), far);
      StepMonotone(Active(p, tick), price, s, s');
      if s != near {
        WalkIsMonotone(p, zeroForOne, TickAfter(p, zeroForOne, next, s), s, near, far);
      }
    }
  }

  /** Where the walk may pause in (lo, hi]: initialised ticks and word boundaries. */
  ghost function Pauses(p: Pool, zeroForOne: bool, lo: int, hi: int): nat
    decreases hi - lo
  {
    if hi <= lo then 0
    else
      var pause := if hi in p.net || hi % 256 == (if zeroForOne then 0 else 255) then 1 else 0;
      pause + Pauses(p, zeroForOne, lo, hi - 1)
  }

  lemma {:induction false} PausesSplit(p: Pool, zeroForOne: bool, lo: int, mid: int, hi: int)
    requires lo <= mid <= hi
    ensures Pauses(p, zeroForOne, lo, hi) == Pauses(p, zeroForOne, lo, mid) + Pauses(p, zeroForOne, mid, hi)
    decreases hi - mid
  {
    if mid == hi {
    } else {
      PausesSplit(p, zeroForOne, lo, mid, hi - 1);
    }
  }

  lemma PauseCounts(p: Pool, zeroForOne: bool, lo: int, next: int, hi: int)
    requires lo < next <= hi
    requires next in p.net || next % 256 == (if zeroForOne then 0 else 255)
    ensures 1 + Pauses(p, zeroForOne, next, hi) <= Pauses(p, zeroForOne, lo, hi)
    ensures 1 + Pauses(p, zeroForOne, lo, next - 1) <= Pauses(p, zeroForOne, lo, hi)
  {
    PausesSplit(p, zeroForOne, lo, next, hi);
  }

  /** A step that does not arrive ends on an initialised tick or a word boundary. */
  lemma PauseIsStop(p: Pool, zeroForOne: bool, tick: int, price: nat, target: nat)
    requires IncreasingRatios(p) && Walkable(p, zeroForOne, tick, price, target) && price != target
    requires StepTarget(zeroForOne, p.ratio(NextTick(p, tick, zeroForOne)), target) != target
    ensures var next := NextTick(p, tick, zeroForOne);
            next in p.net || next % 256 == (if zeroForOne then 0 else 255)
  {
    assert p.ratio(p.minTick) <= target <= p.ratio(p.maxTick);
  }

  /** The number of roundings: one per pause between the two ticks, and one more. */
  lemma {:induction false} StepsArePauses(p: Pool, zeroForOne: bool, tick: int, price: nat, target: nat)
    requires WellFormed(p) && Walkable(p, zeroForOne, tick, price, target)
    ensures var path := Walk(p, zeroForOne, tick, price, target);
            var lo, hi := if zeroForOne then path.FinalTick() else tick, if zeroForOne then tick else path.FinalTick();
            lo <= hi && path.Steps() <= 1 + Pauses(p, zeroForOne, lo, hi)
    decreases Distance(p, zeroForOne, tick, price, target)
  {
    if price == target {
    } else {
      StepFacts(p, zeroForOne, tick, price, target);
      var next := NextTick(p, tick, zeroForOne);
      var stepTarget := StepTarget(zeroForOne, p.ratio(next), target);
      var after := TickAfter(p, zeroForOne, next, stepTarget);
      var rest := Walk(p, zeroForOne, after, stepTarget, target);
      PastStop(p, zeroForOne, tick, price, target, next) by { StopAhead(p, zeroForOne, tick, price, target); }
      if stepTarget != target {
        StepsArePauses(p, zeroForOne, after, stepTarget, target);
        PauseIsStop(p, zeroForOne, tick, price, target);
        if zeroForOne {
          PauseCounts(p, true, rest.FinalTick(), next, tick);
        } else {
          PauseCounts(p, false, tick, next, rest.FinalTick());
        }
      }
    }
  }
}
