/** StabilizationVault.calculateSwapAmount: the price comparison, the direction
    flag it passes to the walk, and what the returned quote is worth. */
module SwapQuote {
  import opened Evm
  import opened Rounding
  import opened Powers
  import opened SwapMath
  import opened IntegerSqrt
  import opened PriceConversion
  import opened PoolModel
  import opened TickWalk
  import opened TickSum
  import opened WalkRefinement
  import opened ReachTarget
  import opened Crossings

  function Pow10(d: nat): nat {
    Power(10, d)
  }

  /** `10 ** decimals` as the least amount; it reverts when it overflows. */
  function AtLeastOneUnit(amountIn: nat, decimals: nat): Outcome<nat> {
    var minAmount := Pow10(decimals);
    if TWO_256 <= minAmount then Revert else if amountIn < minAmount then Ok(minAmount) else Ok(amountIn)
  }

  /** The quote against a floored current price. Targets whose root no tick
      covers revert: the library refuses price zero, and a walk towards it runs
      out of gas. */
  ghost function QuoteAgainst(p: Pool, current: nat, target: Uint256, decimals0: nat, decimals1: nat): Outcome<nat>
    requires WellFormed(p)
  {
    var zeroForOne := target > current;
    var root := PriceToSqrtPriceX96(target);
    if p.liquidity == 0 || !InRange(p, root) || root == p.sqrtPriceX96 then Revert
    else
      AtLeastOneUnit(ReachedFrom(p, p.sqrtPriceX96, root, zeroForOne).amountIn,
                     if zeroForOne then decimals0 else decimals1)
  }

  ghost function SwapAmount(p: Pool, target: Uint256, decimals0: nat, decimals1: nat): Outcome<nat>
    requires WellFormed(p)
  {
    match FloorPrice(p.sqrtPriceX96)
    case Revert => Revert
    case Ok(current) => QuoteAgainst(p, current, target, decimals0, decimals1)
  }

  method CalculateSwapAmount(p: Pool, target: Uint256, decimals0: nat, decimals1: nat) returns (r: Outcome<nat>)
    requires WellFormed(p)
    ensures r == SwapAmount(p, target, decimals0, decimals1)
  {
    var current := FloorPrice(p.sqrtPriceX96);
    if current.Revert? {
      return Revert;
    }
    r := ComputeQuote(p, current.value, target, decimals0, decimals1);
  }

  method ComputeQuote(p: Pool, current: nat, target: Uint256, decimals0: nat, decimals1: nat) returns (r: Outcome<nat>)
    requires WellFormed(p)
    ensures r == QuoteAgainst(p, current, target, decimals0, decimals1)
  {
    if p.liquidity == 0 {
      return Revert;
    }
    var zeroForOne := target > current;
    var targetSqrtPriceX96 := ComputeSqrtPriceX96(target);
    if !InRange(p, targetSqrtPriceX96) {
      return Revert;
    }
    RootBelowTop(p, target);
    var reached := AmountInToReachTarget(p, p.sqrtPriceX96, targetSqrtPriceX96, zeroForOne);
    if reached.Revert? {
      return Revert;
    }
    return AtLeastOneUnit(reached.value.amountIn, if zeroForOne then decimals0 else decimals1);
  }

  /** No root reaches the top of the table. */
  lemma RootBelowTop(p: Pool, target: Uint256)
    requires RatiosReach(p)
    ensures PriceToSqrtPriceX96(target) < p.ratio(p.maxTick)
  {
    OnlyLow64BitsMatter(target);
    ConversionIsExact(target % TWO_64);
  }

  /** Exactly the multiples of 2^64 have no usable root. */
  lemma RootInRange(p: Pool, target: Uint256)
    requires WellFormed(p)
    ensures InRange(p, PriceToSqrtPriceX96(target)) <==> target % TWO_64 != 0
  {
    OnlyLow64BitsMatter(target);
    var low := target % TWO_64;
    ConversionIsExact(low);
    if low != 0 {
      var r := FloorSqrt(low * TWO_192);
      FloorSqrtBounds(low * TWO_192);
      assert TWO_96 * TWO_96 <= low * TWO_192 < (r + 1) * (r + 1);
      SquareCancel(TWO_96, r + 1);
      assert p.ratio(p.minTick) < p.ratio(0);
    } else {
      FloorSqrtUnique(0, 0);
    }
  }

  /** The walk over the ticks in the direction of the move. */
  ghost function FullWalk(p: Pool, target: SqrtPrice): Path
    requires WellFormed(p) && InRange(p, target)
  {
    Walk(p, target <= p.sqrtPriceX96, p.tick, p.sqrtPriceX96, target)
  }

  /** From the pool's own price: against the flag one step, with the flag raised the
      walk of a falling price or one step of a rising one. */
  lemma ReachAtPrice(p: Pool, root: SqrtPrice)
    requires WellFormed(p) && InRange(p, root) && root != p.sqrtPriceX96
    ensures var s := p.sqrtPriceX96;
            && ReachedFrom(p, s, root, s < root).amountIn == StepAmount(p.liquidity, s, root)
            && ReachedFrom(p, s, root, true).amountIn
                 == if root < s then FullWalk(p, root).AmountIn() else StepAmount(p.liquidity, s, root)
  {
    ReachedInTick(p, p.sqrtPriceX96, root, p.sqrtPriceX96 < root);
    ReachedInTick(p, p.sqrtPriceX96, root, true);
  }

  /** As wired, the flag always opposes the price move, so for every target below
      2^64 the quote is one step on the starting liquidity, floored by one unit of
      a token: token0 when the price must rise and token1 is paid, and vice versa. */
  lemma QuoteIsOneStep(p: Pool, target: nat, decimals0: nat, decimals1: nat)
    requires WellFormed(p) && target < TWO_64
    ensures InRange(p, PriceToSqrtPriceX96(target)) <==> target != 0
    ensures var s, root := p.sqrtPriceX96, PriceToSqrtPriceX96(target);
            var minAmount := Pow10(if s < root then decimals0 else decimals1);
            SwapAmount(p, target, decimals0, decimals1)
              == if p.liquidity == 0 || TWO_128 <= s || s == root || !InRange(p, root) || TWO_256 <= minAmount
                 then Revert
                 else Ok(Max(StepAmount(p.liquidity, s, root), minAmount))
  {
    var s, root := p.sqrtPriceX96, PriceToSqrtPriceX96(target);
    assert InRange(p, root) <==> target != 0 by { RootInRange(p, target); }
    assert FloorPrice(s).Ok? <==> s < TWO_128 by { FloorPriceComputed(s); }
    if s < TWO_128 {
      var current := FloorPrice(s).value;
      if s != root {
        assert target > current <==> s < root by { DirectionDecided(target, s); }
      }
      QuoteByFlag(p, current, target, decimals0, decimals1);
    }
  }

  /** The quote against a floored price that decides the direction rightly or lies
      below the target anyway. */
  lemma QuoteByFlag(p: Pool, current: nat, target: Uint256, decimals0: nat, decimals1: nat)
    requires WellFormed(p)
    requires target <= current ==> PriceToSqrtPriceX96(target) <= p.sqrtPriceX96
    ensures var s, root := p.sqrtPriceX96, PriceToSqrtPriceX96(target);
            QuoteAgainst(p, current, target, decimals0, decimals1)
              == if p.liquidity == 0 || !InRange(p, root) || root == s then Revert
                 else AtLeastOneUnit(
                   if current < target && root < s then FullWalk(p, root).AmountIn()
                   else StepAmount(p.liquidity, s, root),
                   if current < target then decimals0 else decimals1)
  {
    var root := PriceToSqrtPriceX96(target);
    if InRange(p, root) && root != p.sqrtPriceX96 {
      ReachAtPrice(p, root);
    }
  }

  /** The flag agrees with the price move only when the shift drops high bits of
      the target and what is left lies below the price. */
  lemma FlagAgreesIff(p: Pool, target: Uint256)
    requires WellFormed(p) && p.sqrtPriceX96 < TWO_128 && p.sqrtPriceX96 != PriceToSqrtPriceX96(target)
    ensures FloorPrice(p.sqrtPriceX96).Ok?
    ensures Toward(target > FloorPrice(p.sqrtPriceX96).value, p.sqrtPriceX96, PriceToSqrtPriceX96(target))
       <==> TWO_64 <= target && PriceToSqrtPriceX96(target) < p.sqrtPriceX96
  {
    FloorPriceComputed(p.sqrtPriceX96);
    if target < TWO_64 {
      DirectionDecided(target, p.sqrtPriceX96);
    }
  }

  lemma AtMost64Bits(s: nat)
    ensures FloorPrice(s).Ok? <==> s < TWO_128
    ensures s < TWO_128 ==> FloorPrice(s).value < TWO_64
  {
    FloorPriceComputed(s);
  }

  /** Exactly then the quote is a full walk; every other target of at least 2^64
      is again one step, against the flag. */
  lemma HighTargetQuote(p: Pool, target: Uint256, decimals0: nat, decimals1: nat)
    requires WellFormed(p) && TWO_64 <= target
    ensures InRange(p, PriceToSqrtPriceX96(target)) <==> target % TWO_64 != 0
    ensures var s, root, minAmount := p.sqrtPriceX96, PriceToSqrtPriceX96(target), Pow10(decimals0);
            SwapAmount(p, target, decimals0, decimals1)
              == if p.liquidity == 0 || TWO_128 <= s || s == root || !InRange(p, root) || TWO_256 <= minAmount
                 then Revert
                 else if root < s then Ok(Max(FullWalk(p, root).AmountIn(), minAmount))
                 else Ok(Max(StepAmount(p.liquidity, s, root), minAmount))
  {
    var s := p.sqrtPriceX96;
    assert InRange(p, PriceToSqrtPriceX96(target)) <==> target % TWO_64 != 0 by { RootInRange(p, target); }
    assert FloorPrice(s).Ok? <==> s < TWO_128 by { AtMost64Bits(s); }
    if s < TWO_128 {
      var current := FloorPrice(s).value;
      assert current < TWO_64 by { AtMost64Bits(s); }
      QuoteByFlag(p, current, target, decimals0, decimals1);
    }
  }

  /** The part of a move's cost that the one-step quote leaves out: what the ticks
      crossed on the way add to the starting liquidity. */
  ghost function CrossingCost(p: Pool, target: SqrtPrice): real
    requires 0 < p.sqrtPriceX96
  {
    if target <= p.sqrtPriceX96 then -NetTo(p, Token0, p.tick, target, p.sqrtPriceX96)
    else NetFrom(p, Token1, p.tick + 1, p.sqrtPriceX96, target)
  }

  /** What the curve itself takes for a move, without rounding and before any fee. */
  ghost function CurveCost(p: Pool, target: SqrtPrice): real
    requires 0 < p.sqrtPriceX96
  {
    TickCost(p, TokenIn(p.sqrtPriceX96, target), Min(p.sqrtPriceX96, target), Max(p.sqrtPriceX96, target))
  }

  /** The exact worth of the one step the quote takes. */
  ghost function OneStepCost(p: Pool, target: SqrtPrice): real
    requires 0 < p.sqrtPriceX96
  {
    var s := p.sqrtPriceX96;
    ExactCost(TokenIn(s, target), p.liquidity, Min(s, target), Max(s, target))
  }

  /** The charge of that step, which is the quote before the least amount. */
  ghost function OneStep(p: Pool, target: SqrtPrice): nat
    requires 0 < p.sqrtPriceX96
  {
    StepAmount(p.liquidity, p.sqrtPriceX96, target)
  }

  /** What rounding adds to that charge, in closed form. */
  ghost function OneStepGain(p: Pool, target: SqrtPrice): real
    requires 0 < p.sqrtPriceX96
  {
    StepGain(p.liquidity, p.sqrtPriceX96, target)
  }

  /** That cost parts from the worth of one step by exactly the crossing cost. */
  lemma QuoteError(p: Pool, target: SqrtPrice)
    requires WellFormed(p) && InRange(p, target)
    ensures CurveCost(p, target) == OneStepCost(p, target) + CrossingCost(p, target)
  {
    var s := p.sqrtPriceX96;
    if target <= s {
      CostDownwards(p, Token0, p.tick, target, s);
    } else {
      CostUpwards(p, Token1, p.tick, s, target);
    }
  }

  /** So before fees one step pays for the whole move exactly when what the crossed
      ticks add does not exceed what rounding adds; and it stays below the walk over
      the ticks exactly when it does not make up for the walk's own rounding as well. */
  lemma StepCoversCost(p: Pool, target: SqrtPrice)
    requires WellFormed(p) && InRange(p, target)
    ensures CurveCost(p, target) <= OneStep(p, target) as real <==> CrossingCost(p, target) <= OneStepGain(p, target)
    ensures FullWalk(p, target).AmountIn() as real == CurveCost(p, target) + Gains(FullWalk(p, target))
    ensures 0.0 <= Gains(FullWalk(p, target))
    ensures OneStep(p, target) < FullWalk(p, target).AmountIn()
       <==> OneStepGain(p, target) < CrossingCost(p, target) + Gains(FullWalk(p, target))
  {
    QuoteError(p, target);
    StepIsWorthAndGain(p.liquidity, p.sqrtPriceX96, target);
    WalkIsCostAndGains(p, target <= p.sqrtPriceX96, p.tick, p.sqrtPriceX96, target);
    GainsBelowSteps(FullWalk(p, target));
  }

  /** For the quote itself, still before fees, the least amount may cover more than
      rounding does. */
  lemma QuoteCoversCost(p: Pool, target: nat, decimals0: nat, decimals1: nat)
    requires WellFormed(p) && target < TWO_64
    ensures var quote, root := SwapAmount(p, target, decimals0, decimals1), PriceToSqrtPriceX96(target);
            quote.Ok? ==>
              && InRange(p, root)
              && var minAmount := Pow10(if p.sqrtPriceX96 < root then decimals0 else decimals1);
              && (CurveCost(p, root) <= quote.value as real <==>
                    || CrossingCost(p, root) <= OneStepGain(p, root)
                    || CrossingCost(p, root) <= minAmount as real - OneStepCost(p, root))
              && (quote.value as real < CurveCost(p, root) ==> quote.value < FullWalk(p, root).AmountIn())
  {
    QuoteIsOneStep(p, target, decimals0, decimals1);
    var root := PriceToSqrtPriceX96(target);
    if SwapAmount(p, target, decimals0, decimals1).Ok? {
      StepCoversCost(p, root);
      QuoteError(p, root);
    }
  }

  /** A tick table under which the code can meet a pool. */
  ghost predicate TickTable(table: Pool) {
    IncreasingRatios(table) && WidthsFit(table) && RatiosReach(table)
  }

  /** A pool at price 1 whose liquidity grows at tick t, over any table. */
  function DeepeningPool(table: Pool, liquidity: nat, t: int, added: nat): Pool {
    table.(sqrtPriceX96 := TWO_96, tick := 0, liquidity := liquidity,
           net := map[0 := liquidity, t := added, table.maxTick := -(liquidity + added)])
  }

  lemma {:induction false} DeepeningActive(table: Pool, liquidity: nat, t: int, added: nat, k: int)
    requires table.minTick < 0 < t < table.maxTick && table.minTick - 1 <= k <= table.maxTick
    ensures Active(DeepeningPool(table, liquidity, t, added), k)
         == if k < 0 || k == table.maxTick then 0 else if k < t then liquidity else liquidity + added
    decreases k - table.minTick
  {
    if k < table.minTick {
    } else {
      DeepeningActive(table, liquidity, t, added, k - 1);
    }
  }

  lemma DeepeningIsWellFormed(table: Pool, liquidity: nat, t: int, added: nat)
    requires TickTable(table) && 0 < t < table.maxTick && liquidity + added < TWO_128
    ensures WellFormed(DeepeningPool(table, liquidity, t, added))
  {
    var p := DeepeningPool(table, liquidity, t, added);
    forall k | p.minTick - 1 <= k <= p.maxTick
      ensures 0 <= Active(p, k) < TWO_128
    {
      DeepeningActive(table, liquidity, t, added, k);
    }
    DeepeningActive(table, liquidity, t, added, 0);
  }

  /** Its crossing cost is what tick t adds for the rest of the way. */
  lemma DeepeningCrossing(table: Pool, liquidity: nat, t: int, added: nat, target: SqrtPrice)
    requires TickTable(table) && 0 < t < table.maxTick
    requires TWO_96 < target <= table.ratio(table.maxTick)
    ensures var p := DeepeningPool(table, liquidity, t, added);
            CrossingCost(p, target)
              == if target <= p.ratio(t) then 0.0 else ExactCost(Token1, added, p.ratio(t), target)
  {
    var p := DeepeningPool(table, liquidity, t, added);
    NetSkips(p, Token1, 1, t, TWO_96, target);
    NetSkips(p, Token1, t + 1, p.maxTick, TWO_96, target);
    ZeroCost(Token1, NetAt(p, p.maxTick), target);
    ZeroCost(Token1, added, target);
    assert NetFrom(p, Token1, p.maxTick + 1, TWO_96, target) == 0.0;
    assert p.ratio(0) < p.ratio(t);
  }

  /** Before fees one step pays for a rise in such a pool exactly when, in 2^96ths of
      a unit, the new liquidity's share fits what rounding adds. */
  lemma DeepeningCoveredIff(table: Pool, liquidity: nat, t: int, added: nat, target: SqrtPrice)
    requires TickTable(table) && 0 < t < table.maxTick && liquidity + added < TWO_128
    requires TWO_96 < target <= table.ratio(table.maxTick)
    ensures var p := DeepeningPool(table, liquidity, t, added);
            && WellFormed(p) && InRange(p, target)
            && (CurveCost(p, target) <= OneStep(p, target) as real <==>
                  || target <= p.ratio(t)
                  || added * (target - p.ratio(t)) <= Shortfall(liquidity * (target - TWO_96), TWO_96))
  {
    var p := DeepeningPool(table, liquidity, t, added);
    DeepeningIsWellFormed(table, liquidity, t, added);
    assert InRange(p, target);
    StepCoversCost(p, target);
    DeepeningCrossing(table, liquidity, t, added, target);
    if p.ratio(t) < target {
      ShareFitsIff(added, p.ratio(t), target, liquidity, TWO_96);
    }
  }

  /** Token1 owed for one interval against what rounding adds to a step over another. */
  lemma ShareFitsIff(added: nat, lo: SqrtPrice, hi: SqrtPrice, liquidity: nat, start: SqrtPrice)
    requires lo < hi && start < hi
    ensures ExactCost(Token1, added, lo, hi) <= StepGain(liquidity, start, hi)
       <==> added * (hi - lo) <= Shortfall(liquidity * (hi - start), TWO_96)
  {
    var share: nat := added * (hi - lo);
    Exact1(added, lo, hi);
    FractionsCompare(share, Shortfall(liquidity * (hi - start), TWO_96));
  }

  lemma FractionsCompare(a: nat, b: nat)
    ensures a as real / TWO_96 as real <= b as real / TWO_96 as real <==> a <= b
  {
  }

  /** So one step falls short of the walk whenever that share reaches a unit. */
  lemma DeepeningFallsShort(table: Pool, liquidity: nat, t: int, added: nat, target: SqrtPrice)
    requires TickTable(table) && 0 < t < table.maxTick && liquidity + added < TWO_128
    requires TWO_96 < target <= table.ratio(table.maxTick)
    requires TWO_96 <= added * (target - table.ratio(t))
    ensures var p := DeepeningPool(table, liquidity, t, added);
            WellFormed(p) && InRange(p, target) && OneStep(p, target) < FullWalk(p, target).AmountIn()
  {
    var p := DeepeningPool(table, liquidity, t, added);
    DeepeningCoveredIff(table, liquidity, t, added, target);
    assert !(CurveCost(p, target) <= OneStep(p, target) as real) by {
      if target <= table.ratio(t) {
        MulMono(target - table.ratio(t), 0, added);
      }
    }
    StepCoversCost(p, target);
  }

  /** Its quote for a price above 1 is that step. */
  lemma DeepeningQuote(table: Pool, liquidity: nat, t: int, added: nat, target: nat, decimals0: nat, decimals1: nat)
    requires TickTable(table) && 0 < t < table.maxTick && 0 < liquidity && liquidity + added < TWO_128
    requires 1 < target < TWO_64 && 0 < PriceToSqrtPriceX96(target)
    requires Pow10(decimals0) <= StepAmount(liquidity, TWO_96, PriceToSqrtPriceX96(target))
    ensures var p, root := DeepeningPool(table, liquidity, t, added), PriceToSqrtPriceX96(target);
            && WellFormed(p) && TWO_96 < root <= table.ratio(table.maxTick)
            && SwapAmount(p, target, decimals0, decimals1) == Ok(OneStep(p, root))
  {
    var p, root := DeepeningPool(table, liquidity, t, added), PriceToSqrtPriceX96(target);
    assert TWO_96 < root < TWO_128 by { PriceAboveOne(target); }
    DeepeningIsWellFormed(table, liquidity, t, added);
    assert OneStep(p, root) < TWO_256 by { StepAmountFits(liquidity, TWO_96, root); }
    QuoteIsOneStep(p, target, decimals0, decimals1);
  }

  /** Then the quote falls short of what the move needs. */
  lemma QuoteFallsShort(table: Pool, liquidity: nat, t: int, added: nat, target: nat, decimals0: nat, decimals1: nat)
    requires TickTable(table) && 0 < t < table.maxTick && 0 < liquidity && liquidity + added < TWO_128
    requires 1 < target < TWO_64 && TWO_96 <= added * (PriceToSqrtPriceX96(target) - table.ratio(t))
    requires Pow10(decimals0) <= StepAmount(liquidity, TWO_96, PriceToSqrtPriceX96(target))
    ensures var p, root := DeepeningPool(table, liquidity, t, added), PriceToSqrtPriceX96(target);
            && WellFormed(p) && InRange(p, root)
            && SwapAmount(p, target, decimals0, decimals1) == Ok(OneStep(p, root))
            && OneStep(p, root) < FullWalk(p, root).AmountIn()
  {
    DeepeningQuote(table, liquidity, t, added, target, decimals0, decimals1);
    DeepeningFallsShort(table, liquidity, t, added, PriceToSqrtPriceX96(target));
  }

  lemma PriceAboveOne(target: nat)
    requires 1 < target < TWO_64
    ensures TWO_96 < PriceToSqrtPriceX96(target) < TWO_128
  {
    ConversionIsExact(1);
    ConversionIsExact(target);
    ConversionIsMonotone(1, target);
    FloorSqrtUnique(TWO_192, TWO_96);
  }

  /** For a rise from price 1 to 16, a million units of liquidity quote 3 units of
      token1, whatever tick 1 adds to them. */
  lemma QuoteOfThree(table: Pool, added: nat)
    requires TickTable(table) && 1_000_000 + added < TWO_128 && 1 < table.maxTick
    ensures var p := DeepeningPool(table, 1_000_000, 1, added);
            && WellFormed(p) && InRange(p, 4 * TWO_96) && PriceToSqrtPriceX96(16) == 4 * TWO_96
            && OneStep(p, 4 * TWO_96) == 3_000_000 && OneStepCost(p, 4 * TWO_96) == 3_000_000.0
            && SwapAmount(p, 16, 6, 6) == Ok(3_000_000)
  {
    var p, root: SqrtPrice := DeepeningPool(table, 1_000_000, 1, added), 4 * TWO_96;
    FloorSqrtUnique(16 * TWO_192, root);
    ConversionIsExact(16);
    DivUpUnique(1_000_000 * (3 * TWO_96), TWO_96, 3_000_000);
    PowersOfTen();
    DeepeningIsWellFormed(table, 1_000_000, 1, added);
    QuoteIsOneStep(p, 16, 6, 6);
    Exact1(1_000_000, TWO_96, root);
  }

  /** The least amount in numbers: with a step of 300000 units the same rise quotes a
      million at 6 decimals and 10^18 at 18, by the decimals of token0. */
  lemma LeastAmountQuoted(table: Pool, decimals1: nat)
    requires TickTable(table) && 1 < table.maxTick
    ensures var p := DeepeningPool(table, 100_000, 1, 0);
            && WellFormed(p)
            && SwapAmount(p, 16, 0, decimals1) == Ok(300_000)
            && SwapAmount(p, 16, 6, decimals1) == Ok(1_000_000)
            && SwapAmount(p, 16, 18, decimals1) == Ok(1_000_000_000_000_000_000)
  {
    var p, root: SqrtPrice := DeepeningPool(table, 100_000, 1, 0), 4 * TWO_96;
    FloorSqrtUnique(16 * TWO_192, root);
    ConversionIsExact(16);
    DivUpUnique(100_000 * (3 * TWO_96), TWO_96, 300_000);
    PowersOfTen();
    DeepeningIsWellFormed(table, 100_000, 1, 0);
    QuoteIsOneStep(p, 16, 0, decimals1);
    QuoteIsOneStep(p, 16, 6, decimals1);
    QuoteIsOneStep(p, 16, 18, decimals1);
  }

  /** A rise takes the decimals of token0 and a fall those of token1; no quote has
      more than 77, and none is below the unit they make. */
  lemma LeastAmountByDirection(p: Pool, target: nat, decimals0: nat, decimals1: nat)
    requires WellFormed(p) && target < TWO_64
    ensures var quote, root := SwapAmount(p, target, decimals0, decimals1), PriceToSqrtPriceX96(target);
            var decimals := if p.sqrtPriceX96 < root then decimals0 else decimals1;
            && (quote.Ok? ==> decimals <= 77)
            && (quote.Ok? && decimals == 6 ==> 1_000_000 <= quote.value)
            && (quote.Ok? && decimals == 18 ==> 1_000_000_000_000_000_000 <= quote.value)
  {
    QuoteIsOneStep(p, target, decimals0, decimals1);
    PowersOfTen();
    DecimalsFitIff(if p.sqrtPriceX96 < PriceToSqrtPriceX96(target) then decimals0 else decimals1);
  }

  /** Over every table whose tick 1 is priced at most 4, as Uniswap's is at 1.0001,
      such a pool quotes 3 units for a rise that needs 17 even before fees. */
  lemma QuoteOfThreeForSeventeen(table: Pool)
    requires TickTable(table) && table.ratio(1) <= 2 * TWO_96
    ensures var p := DeepeningPool(table, 1_000_000, 1, 7_000_000);
            && WellFormed(p) && InRange(p, 4 * TWO_96) && PriceToSqrtPriceX96(16) == 4 * TWO_96
            && SwapAmount(p, 16, 6, 6) == Ok(3_000_000)
            && 17_000_000 <= FullWalk(p, 4 * TWO_96).AmountIn()
  {
    var p, root: SqrtPrice := DeepeningPool(table, 1_000_000, 1, 7_000_000), 4 * TWO_96;
    QuoteOfThree(table, 7_000_000);
    DeepeningCrossing(table, 1_000_000, 1, 7_000_000, root);
    Exact1(7_000_000, p.ratio(1), root);
    StepCoversCost(p, root);
    QuoteError(p, root);
  }
}
