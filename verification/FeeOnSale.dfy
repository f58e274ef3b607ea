/** Selling the quote through the pool, which takes its fee before the price moves. */
module FeeOnSale {
  import opened Evm
  import opened Rounding
  import opened SwapMath
  import opened PriceConversion
  import opened PoolModel
  import opened TickWalk
  import opened WalkRefinement
  import opened Crossings
  import opened SwapQuote

  /** Selling `amount` along a path: each step takes its input and the fee on it from
      what is left, and a swap with nothing left ends where it is. */
  predicate SaleArrives(path: Path, amount: nat, fee: nat)
    requires fee < PIPS
  {
    match path
    case Arrived(_) => true
    case Step(liquidity, price, stepTarget, rest) =>
      var step := ComputeSwapStep(price, stepTarget, liquidity, amount, fee);
      && 0 < amount && step.Reaches?
      && step.amountIn + step.feeAmount <= amount
      && SaleArrives(rest, amount - step.amountIn - step.feeAmount, fee)
  }

  /** All fees along a path. */
  function Fees(path: Path, fee: nat): nat
    requires fee < PIPS
  {
    match path
    case Arrived(_) => 0
    case Step(liquidity, price, stepTarget, rest) =>
      FeeOn(StepAmount(liquidity, price, stepTarget), fee) + Fees(rest, fee)
  }

  /** The last step costs nothing; something must be left to take it. */
  predicate EndsFree(path: Path) {
    && path.Step?
    && if path.rest.Step? then EndsFree(path.rest) else StepAmount(path.liquidity, path.price, path.stepTarget) == 0
  }

  /** What a sale must bring. */
  function Needed(path: Path, fee: nat): nat
    requires fee < PIPS
  {
    path.AmountIn() + Fees(path, fee) + if EndsFree(path) then 1 else 0
  }

  /** A sale arrives exactly when it brings the inputs and fees of all steps: paying
      step by step and paying at once are the same. */
  lemma {:induction false} ArrivesIff(path: Path, amount: nat, fee: nat)
    requires fee < PIPS
    ensures SaleArrives(path, amount, fee) <==> Needed(path, fee) <= amount
  {
    if path.Arrived? {
    } else {
      var step := StepAmount(path.liquidity, path.price, path.stepTarget);
      var paid := step + FeeOn(step, fee);
      PayableIff(step, amount, fee);
      if paid <= amount {
        ArrivesIff(path.rest, amount - paid, fee);
      }
      if path.rest.Step? && !EndsFree(path) {
        NotFree(path.rest);
      }
    }
  }

  lemma {:induction false} NotFree(path: Path)
    requires path.Step? && !EndsFree(path)
    ensures 0 < path.AmountIn()
  {
    if path.rest.Arrived? {
    } else {
      NotFree(path.rest);
    }
  }

  /** What rounding the fee on a step adds, in parts of PIPS - fee. */
  function FeeLack(step: nat, fee: nat): nat
    requires fee < PIPS
  {
    Shortfall(step * fee, PIPS - fee)
  }

  function FeeLacks(path: Path, fee: nat): nat
    requires fee < PIPS
  {
    match path
    case Arrived(_) => 0
    case Step(liquidity, price, stepTarget, rest) =>
      FeeLack(StepAmount(liquidity, price, stepTarget), fee) + FeeLacks(rest, fee)
  }

  lemma CeilIsShortfall(n: nat, d: nat)
    requires 0 < d
    ensures DivUp(n, d) * d == n + Shortfall(n, d)
  {
    var m, k := Shortfall(n, d), -(n as int);
    var q := -(k / d);
    assert n + m == q * d;
    DivUpUnique(n, d, q);
  }

  /** Fees are the exact share of the inputs and those roundings. */
  lemma {:induction false} FeesExact(path: Path, fee: nat)
    requires fee < PIPS
    ensures (PIPS - fee) * (path.AmountIn() + Fees(path, fee)) == PIPS * path.AmountIn() + FeeLacks(path, fee)
  {
    if path.Arrived? {
    } else {
      FeesExact(path.rest, fee);
      StepShare(StepAmount(path.liquidity, path.price, path.stepTarget), fee, path.rest.AmountIn(),
                path.rest.AmountIn() + Fees(path.rest, fee), FeeLacks(path.rest, fee));
    }
  }

  lemma StepShare(step: nat, fee: nat, restIn: nat, rest: nat, restLack: nat)
    requires fee < PIPS && (PIPS - fee) * rest == PIPS * restIn + restLack
    ensures (PIPS - fee) * (step + FeeOn(step, fee) + rest) == PIPS * (step + restIn) + (FeeLack(step, fee) + restLack)
  {
    CeilIsShortfall(step * fee, PIPS - fee);
    ShareSplits(step, FeeOn(step, fee), FeeLack(step, fee), restIn, rest, restLack, fee);
  }

  lemma ShareSplits(step: nat, extra: nat, lack: nat, restIn: nat, rest: nat, restLack: nat, fee: nat)
    requires fee < PIPS
    requires extra * (PIPS - fee) == step * fee + lack
    requires (PIPS - fee) * rest == PIPS * restIn + restLack
    ensures (PIPS - fee) * (step + extra + rest) == PIPS * (step + restIn) + (lack + restLack)
  {
    var kept := PIPS - fee;
    assert kept * (step + extra + rest) == kept * step + kept * extra + kept * rest;
    assert kept * step == PIPS * step - step * fee;
  }

  /** Before the sale, from the pool alone: what the target needs, times PIPS - fee. */
  ghost function NeededScaled(p: Pool, target: SqrtPrice): real
    requires WellFormed(p) && InRange(p, target)
  {
    var walk := FullWalk(p, target);
    PIPS as real * (OneStepCost(p, target) + CrossingCost(p, target) + Gains(walk))
      + FeeLacks(walk, p.fee) as real + if EndsFree(walk) then (PIPS - p.fee) as real else 0.0
  }

  lemma NeededIsScaled(p: Pool, target: SqrtPrice)
    requires WellFormed(p) && InRange(p, target)
    ensures NeededScaled(p, target) == ((PIPS - p.fee) * Needed(FullWalk(p, target), p.fee)) as real
  {
    NeededExact(FullWalk(p, target), p.fee);
    StepCoversCost(p, target);
    QuoteError(p, target);
  }

  lemma NeededExact(path: Path, fee: nat)
    requires fee < PIPS
    ensures (PIPS - fee) * Needed(path, fee)
         == PIPS * path.AmountIn() + FeeLacks(path, fee) + if EndsFree(path) then PIPS - fee else 0
  {
    var paid, kept := path.AmountIn() + Fees(path, fee), PIPS - fee;
    assert kept * paid == PIPS * path.AmountIn() + FeeLacks(path, fee) by { FeesExact(path, fee); }
    assert kept * (paid + 1) == kept * paid + kept;
  }

  lemma ArrivesScaled(p: Pool, target: SqrtPrice, amount: nat)
    requires WellFormed(p) && InRange(p, target)
    ensures SaleArrives(FullWalk(p, target), amount, p.fee)
       <==> NeededScaled(p, target) <= ((PIPS - p.fee) * amount) as real
  {
    var needed := Needed(FullWalk(p, target), p.fee);
    NeededIsScaled(p, target);
    ArrivesIff(FullWalk(p, target), amount, p.fee);
    ScaledCompare(needed, amount, PIPS - p.fee);
  }

  lemma ScaledCompare(a: nat, b: nat, k: nat)
    requires 0 < k
    ensures a <= b <==> k * a <= k * b
  {
    if a <= b {
      MulMono(a, b, k);
    } else {
      MulMono(b + 1, a, k);
    }
  }

  /** The quote moves the price to its target exactly when, of one step and the least
      amount, the larger pays the curve, the crossed ticks, the roundings and the fee. */
  lemma QuoteArrivesIff(p: Pool, target: nat, decimals0: nat, decimals1: nat)
    requires WellFormed(p) && target < TWO_64
    ensures var quote, root := SwapAmount(p, target, decimals0, decimals1), PriceToSqrtPriceX96(target);
            quote.Ok? ==>
              && InRange(p, root)
              && var minAmount := Pow10(if p.sqrtPriceX96 < root then decimals0 else decimals1);
              (SaleArrives(FullWalk(p, root), quote.value, p.fee) <==>
                 NeededScaled(p, root) <= ((PIPS - p.fee) * Max(OneStep(p, root), minAmount)) as real)
  {
    QuoteIsOneStep(p, target, decimals0, decimals1);
    var quote, root := SwapAmount(p, target, decimals0, decimals1), PriceToSqrtPriceX96(target);
    if quote.Ok? {
      ArrivesScaled(p, root, quote.value);
    }
  }

  /** Selling the quote at a fee, with nothing between the price and the target's
      root but one liquidity: it arrives without a fee, and at any other only when
      the least amount, less the fee, covers the step. */
  lemma OneStretchArrivesIff(p: Pool, target: nat, decimals0: nat, decimals1: nat)
    requires WellFormed(p) && target < TWO_64
    ensures var quote, root := SwapAmount(p, target, decimals0, decimals1), PriceToSqrtPriceX96(target);
            var minAmount := Pow10(if p.sqrtPriceX96 < root then decimals0 else decimals1);
            quote.Ok? ==>
              && InRange(p, root)
              && (NoStopBefore(p, root) ==>
                    (SaleArrives(FullWalk(p, root), quote.value, p.fee) <==>
                       p.fee == 0 || PIPS * OneStep(p, root) <= (PIPS - p.fee) * minAmount))
  {
    QuoteIsOneStep(p, target, decimals0, decimals1);
    var quote, root := SwapAmount(p, target, decimals0, decimals1), PriceToSqrtPriceX96(target);
    if quote.Ok? && NoStopBefore(p, root) {
      OneStretchArrives(p, root, Pow10(if p.sqrtPriceX96 < root then decimals0 else decimals1));
    }
  }

  lemma OneStretchArrives(p: Pool, target: SqrtPrice, minAmount: nat)
    requires WellFormed(p) && InRange(p, target) && target != p.sqrtPriceX96 && NoStopBefore(p, target)
    requires p.liquidity != 0
    ensures SaleArrives(FullWalk(p, target), Max(OneStep(p, target), minAmount), p.fee)
       <==> p.fee == 0 || PIPS * OneStep(p, target) <= (PIPS - p.fee) * minAmount
  {
    OneStretchWalk(p, target);
    OneStepArrives(FullWalk(p, target), OneStep(p, target), minAmount, p.fee);
  }

  lemma OneStepArrives(path: Path, step: nat, minAmount: nat, fee: nat)
    requires path.Step? && path.rest.Arrived? && fee < PIPS
    requires step == StepAmount(path.liquidity, path.price, path.stepTarget) && 0 < step
    ensures SaleArrives(path, Max(step, minAmount), fee)
       <==> fee == 0 || PIPS * step <= (PIPS - fee) * minAmount
  {
    OneStepPays(path, step, Max(step, minAmount), fee);
    LargerPays(step, minAmount, fee);
  }

  lemma OneStepPays(path: Path, step: nat, amount: nat, fee: nat)
    requires path.Step? && path.rest.Arrived? && fee < PIPS
    requires step == StepAmount(path.liquidity, path.price, path.stepTarget) && 0 < step
    ensures SaleArrives(path, amount, fee) <==> PIPS * step <= (PIPS - fee) * amount
  {
    ArrivesIff(path, amount, fee);
    PayableIff(step, amount, fee);
  }

  /** The first stop in the direction of the move is no nearer than the target. */
  predicate NoStopBefore(p: Pool, target: nat) {
    var zeroForOne := target <= p.sqrtPriceX96;
    StepTarget(zeroForOne, p.ratio(NextTick(p, p.tick, zeroForOne)), target) == target
  }

  lemma OneStretchWalk(p: Pool, target: SqrtPrice)
    requires WellFormed(p) && InRange(p, target) && target != p.sqrtPriceX96 && NoStopBefore(p, target)
    requires p.liquidity != 0
    ensures 0 < OneStep(p, target)
    ensures FullWalk(p, target).Step? && FullWalk(p, target).rest.Arrived?
    ensures var step := FullWalk(p, target);
            StepAmount(step.liquidity, step.price, step.stepTarget) == OneStep(p, target)
  {
    var zeroForOne, s := target <= p.sqrtPriceX96, p.sqrtPriceX96;
    var after := TickAfter(p, zeroForOne, NextTick(p, p.tick, zeroForOne), target);
    assert FullWalk(p, target) == Step(p.liquidity, s, target, Arrived(after)) by {
      StepFacts(p, zeroForOne, p.tick, s, target);
      assert Walk(p, zeroForOne, after, target, target) == Arrived(after);
    }
    assert 0 < OneStep(p, target) by { StepCostsSomething(p.liquidity, s, target); }
  }

  lemma StepCostsSomething(liquidity: nat, price: SqrtPrice, stepTarget: SqrtPrice)
    requires 0 < liquidity && price != stepTarget
    ensures 0 < StepAmount(liquidity, price, stepTarget)
  {
    if stepTarget <= price {
      var n: nat := liquidity * TWO_96 * (price - stepTarget);
      assert 0 < n by { MulMono(1, price - stepTarget, liquidity * TWO_96); }
    } else {
      var n: nat := liquidity * (stepTarget - price);
      assert 0 < n by { MulMono(1, stepTarget - price, liquidity); }
    }
  }

  /** Of a step and a least amount, the larger pays for the step at a fee exactly
      when there is none or the least amount does. */
  lemma LargerPays(step: nat, minAmount: nat, fee: nat)
    requires fee < PIPS && 0 < step
    ensures PIPS * step <= (PIPS - fee) * Max(step, minAmount) <==> fee == 0 || PIPS * step <= (PIPS - fee) * minAmount
  {
    var kept := PIPS - fee;
    if fee != 0 {
      MulMono(kept + 1, PIPS, step);
    } else if minAmount < step {
    } else {
      MulMono(step, minAmount, PIPS);
    }
  }

  /** At any fee, then, a quote above the least amount stops short of its target,
      unless the crossed ticks take liquidity away. */
  lemma FeeLeavesShort(p: Pool, target: nat, decimals0: nat, decimals1: nat)
    requires WellFormed(p) && target < TWO_64 && 0 < p.fee
    ensures var quote, root := SwapAmount(p, target, decimals0, decimals1), PriceToSqrtPriceX96(target);
            var minAmount := Pow10(if p.sqrtPriceX96 < root then decimals0 else decimals1);
            quote.Ok? ==>
              && InRange(p, root)
              && (0.0 <= CrossingCost(p, root) && (PIPS - p.fee) * minAmount < PIPS * OneStep(p, root) ==>
                    !SaleArrives(FullWalk(p, root), quote.value, p.fee))
  {
    QuoteIsOneStep(p, target, decimals0, decimals1);
    var quote, root := SwapAmount(p, target, decimals0, decimals1), PriceToSqrtPriceX96(target);
    var minAmount := Pow10(if p.sqrtPriceX96 < root then decimals0 else decimals1);
    if quote.Ok? && 0.0 <= CrossingCost(p, root) && (PIPS - p.fee) * minAmount < PIPS * OneStep(p, root) {
      StopsShort(p, root, minAmount);
    }
  }

  lemma StopsShort(p: Pool, target: SqrtPrice, minAmount: nat)
    requires WellFormed(p) && InRange(p, target) && 0 < p.fee && 0.0 <= CrossingCost(p, target)
    requires (PIPS - p.fee) * minAmount < PIPS * OneStep(p, target)
    ensures !SaleArrives(FullWalk(p, target), Max(OneStep(p, target), minAmount), p.fee)
  {
    WalkCostsStep(p, target);
    PathStopsShort(FullWalk(p, target), OneStep(p, target), minAmount, p.fee);
  }

  lemma PathStopsShort(path: Path, step: nat, minAmount: nat, fee: nat)
    requires 0 < fee < PIPS && step <= path.AmountIn() && (PIPS - fee) * minAmount < PIPS * step
    ensures !SaleArrives(path, Max(step, minAmount), fee)
  {
    if SaleArrives(path, Max(step, minAmount), fee) {
      ArrivesPays(path, Max(step, minAmount), fee, step);
      LargerPays(step, minAmount, fee);
    }
  }

  lemma ArrivesPays(path: Path, amount: nat, fee: nat, step: nat)
    requires fee < PIPS && step <= path.AmountIn() && SaleArrives(path, amount, fee)
    ensures PIPS * step <= (PIPS - fee) * amount
  {
    ArrivesIff(path, amount, fee);
    SharePaid(path, amount, fee, step);
  }

  lemma WalkCostsStep(p: Pool, target: SqrtPrice)
    requires WellFormed(p) && InRange(p, target) && 0.0 <= CrossingCost(p, target)
    ensures OneStep(p, target) <= FullWalk(p, target).AmountIn()
  {
    StepCoversCost(p, target);
    QuoteError(p, target);
    StepIsWorthAndGain(p.liquidity, p.sqrtPriceX96, target);
    StepGainBelowOne(p.liquidity, p.sqrtPriceX96, target);
  }

  lemma SharePaid(path: Path, amount: nat, fee: nat, step: nat)
    requires fee < PIPS && step <= path.AmountIn() && path.AmountIn() + Fees(path, fee) <= amount
    ensures PIPS * step <= (PIPS - fee) * amount
  {
    var paid, inputs, kept := path.AmountIn() + Fees(path, fee), path.AmountIn(), PIPS - fee;
    assert PIPS * inputs <= kept * paid by { FeesExact(path, fee); }
    assert kept * paid <= kept * amount by { ScaledCompare(paid, amount, kept); }
  }

  /** In numbers, at the fee of one hundredth of a percent that the deployment sets: a
      step of three million needs three hundred and one more. */
  lemma HundredPips()
    ensures LessFee(3_000_000, 100) == 2_999_700 && FeeOn(3_000_000, 100) == 301
  {
    FloorUnique(3_000_000 * 999_900, 1_000_000, 2_999_700);
    DivUpUnique(3_000_000 * 100, 999_900, 301);
  }

  /** Over every table, with no liquidity to cross: a million units of liquidity quote
      3 units of token1 for a rise from price 1 to 16. That is exactly what the curve
      takes, and at any fee it stops short. */
  lemma FlatPoolStopsShort(table: Pool)
    requires TickTable(table) && 1 < table.maxTick && 0 < table.fee
    ensures var p := DeepeningPool(table, 1_000_000, 1, 0);
            && WellFormed(p) && InRange(p, 4 * TWO_96) && PriceToSqrtPriceX96(16) == 4 * TWO_96
            && SwapAmount(p, 16, 6, 6) == Ok(3_000_000) && CurveCost(p, 4 * TWO_96) == 3_000_000.0
            && !SaleArrives(FullWalk(p, 4 * TWO_96), 3_000_000, p.fee)
  {
    var p, root: SqrtPrice := DeepeningPool(table, 1_000_000, 1, 0), 4 * TWO_96;
    QuoteOfThree(table, 0);
    assert CrossingCost(p, root) == 0.0 by {
      DeepeningCrossing(table, 1_000_000, 1, 0, root);
      NoLiquidityNoCost(Token1, p.ratio(1), root);
    }
    assert CurveCost(p, root) == 3_000_000.0 by { QuoteError(p, root); }
    StopsShort(p, root, 1_000_000);
  }
}
