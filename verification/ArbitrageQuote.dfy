/** What executeArbitrage sells, and when it cannot sell at all. */
module ArbitrageQuote {
  import opened Evm
  import opened Rounding
  import opened Powers
  import opened SwapMath
  import opened PriceConversion
  import opened PriceGuard
  import opened PoolModel
  import opened SwapQuote
  import opened FeeOnSale
  import opened VaultModel

  /** The step to the target's root pays with the token the arbitrage sells,
      except when the floored price already equals the target. */
  lemma SoldTokenPays(sqrtPriceX96: SqrtPrice, current: nat, target: nat)
    requires target < TWO_64
    ensures var root := PriceToSqrtPriceX96(target);
            FloorPrice(sqrtPriceX96) == Ok(current) && sqrtPriceX96 != root > 0 ==>
              (TokenIn(sqrtPriceX96, root) == TokenSold(current, target) <==> current != target)
  {
    if FloorPrice(sqrtPriceX96) == Ok(current) && sqrtPriceX96 != PriceToSqrtPriceX96(target) {
      FloorPriceComputed(sqrtPriceX96);
      DirectionDecided(target, sqrtPriceX96);
    }
  }

  /** What an arbitrage sells: one step on the starting liquidity, but never less
      than one unit by the decimals of the token the step does not pay with. The
      step is priced in the token sold unless the floored price is the target,
      which only a zero threshold lets through. */
  lemma ArbitrageAmount(s: VaultState, sender: Address, p: Pool, decimals0: nat, decimals1: nat)
    requires WellFormed(p) && s.targetPrice < TWO_64
    ensures var sale, root := AmountToSell(s, sender, p, decimals0, decimals1), PriceToSqrtPriceX96(s.targetPrice);
            sale.Ok? ==>
              && 0 < root
              && sale.value == Max(StepAmount(p.liquidity, p.sqrtPriceX96, root),
                                   Pow10(if p.sqrtPriceX96 < root then decimals0 else decimals1))
              && var current := FloorPrice(p.sqrtPriceX96).value;
              && (TokenIn(p.sqrtPriceX96, root) == TokenSold(current, s.targetPrice) <==> current != s.targetPrice)
              && (0 < s.rebalanceThresholdBps ==> current != s.targetPrice)
  {
    if AmountToSell(s, sender, p, decimals0, decimals1).Ok? {
      FloorPriceComputed(p.sqrtPriceX96);
      QuoteIsOneStep(p, s.targetPrice, decimals0, decimals1);
      if 0 < s.rebalanceThresholdBps {
        NoGuardAtTarget(s.targetPrice, s.rebalanceThresholdBps);
      }
      SoldTokenPays(p.sqrtPriceX96, FloorPrice(p.sqrtPriceX96).value, s.targetPrice);
    }
  }

  /** When it may sell at all, from what can be read before the call: the owner calls,
      the breaker is down, the pool has liquidity at a price that can be squared and is
      not the target's root, the whole-number deviation reaches the threshold, and the
      vault holds the amount of the token it sells. */
  lemma ArbitrageIff(s: VaultState, sender: Address, p: Pool, decimals0: nat, decimals1: nat)
    requires WellFormed(p) && s.targetPrice < TWO_64
    ensures var sale, price := AmountToSell(s, sender, p, decimals0, decimals1), p.sqrtPriceX96;
            sale.Ok? <==>
              && price < TWO_128
              && sender == s.owner && !s.circuitBreakerActive
              && MaySell(s, p, price * price / TWO_192, decimals0, decimals1)
  {
    var price := p.sqrtPriceX96;
    if price < TWO_128 {
      var current := price * price / TWO_192;
      assert FloorPrice(price) == Ok(current) && current < TWO_64 by { FloorPriceComputed(price); }
      ArbitrageAtPrice(s, sender, p, decimals0, decimals1, current);
    } else {
      assert FloorPrice(price).Revert? by { FloorPriceComputed(price); }
    }
  }

  /** At a floored price, what an owner's call with the breaker down still needs. */
  ghost predicate MaySell(s: VaultState, p: Pool, current: nat, decimals0: nat, decimals1: nat)
    requires WellFormed(p)
  {
    var target, price, root := s.targetPrice, p.sqrtPriceX96, PriceToSqrtPriceX96(s.targetPrice);
    var minAmount := Pow10(if price < root then decimals0 else decimals1);
    && 0 < target && 0 < root && p.liquidity != 0 && price != root && minAmount < TWO_256
    && s.rebalanceThresholdBps * target <= 10000 * Apart(current, target)
    && Max(StepAmount(p.liquidity, price, root), minAmount)
         <= if target < current then s.holding0.balance else s.holding1.balance
  }

  lemma ArbitrageAtPrice(s: VaultState, sender: Address, p: Pool, decimals0: nat, decimals1: nat, current: nat)
    requires WellFormed(p) && s.targetPrice < TWO_64
    requires FloorPrice(p.sqrtPriceX96) == Ok(current) && current < TWO_64
    ensures AmountToSell(s, sender, p, decimals0, decimals1).Ok?
       <==> sender == s.owner && !s.circuitBreakerActive && MaySell(s, p, current, decimals0, decimals1)
  {
    var target := s.targetPrice;
    GuardIff(current, target, s.rebalanceThresholdBps);
    assert p.sqrtPriceX96 < TWO_128 by { FloorPriceComputed(p.sqrtPriceX96); }
    PowerPositive(if p.sqrtPriceX96 < PriceToSqrtPriceX96(target) then decimals0 else decimals1);
    QuoteIsOneStep(p, target, decimals0, decimals1);
  }

  /** The token an arbitrage sells is the one its step pays with, for any threshold
      above zero: token0 when the price stands above the target's root. */
  lemma SellsWhatFalls(s: VaultState, sender: Address, p: Pool, decimals0: nat, decimals1: nat)
    requires WellFormed(p) && s.targetPrice < TWO_64 && 0 < s.rebalanceThresholdBps
    ensures AmountToSell(s, sender, p, decimals0, decimals1).Ok? ==>
              (s.targetPrice < FloorPrice(p.sqrtPriceX96).value
               <==> PriceToSqrtPriceX96(s.targetPrice) < p.sqrtPriceX96)
  {
    ArbitrageAmount(s, sender, p, decimals0, decimals1);
  }

  lemma PowerPositive(d: nat)
    ensures 0 < Pow10(d)
  {
    PowerGrows(10, 0, d);
  }

  /** The other token's holding has no say. */
  lemma OtherHoldingIsFree(s: VaultState, sender: Address, p: Pool, decimals0: nat, decimals1: nat, other: Holding)
    requires WellFormed(p) && FloorPrice(p.sqrtPriceX96).Ok?
    ensures var sells0 := s.targetPrice < FloorPrice(p.sqrtPriceX96).value;
            var s' := if sells0 then s.(holding1 := other) else s.(holding0 := other);
            AmountToSell(s', sender, p, decimals0, decimals1) == AmountToSell(s, sender, p, decimals0, decimals1)
  {
  }

  /** What the swap may do then: the router takes at most the amount, out of the
      token sold, and must report an output; both reserves become the balances. */
  lemma SwapIff(s: VaultState, sold: Token, amountIn: nat, spent: nat, received: nat, amountOut: nat)
    requires amountIn <= s.Of(sold).balance
    ensures var after := AfterSwap(s, sold, amountIn, Swapped(spent, received, amountOut));
            && (after.Ok? <==> spent <= amountIn && 0 < amountOut)
            && (after.Ok? ==>
                  var h0, h1 := after.value.holding0, after.value.holding1;
                  && (if sold.Token0? then h0.balance + spent == s.holding0.balance
                      else h0.balance == s.holding0.balance + received)
                  && (if sold.Token0? then h1.balance == s.holding1.balance + received
                      else h1.balance + spent == s.holding1.balance)
                  && h0.reserve == h0.balance && h1.reserve == h1.balance
                  && h0.wallet == s.holding0.wallet && h1.wallet == s.holding1.wallet)
  {
  }

  /** So an arbitrage goes through exactly when it may sell and the router behaves. */
  lemma ArbitrageStepIff(s: VaultState, call: Call)
    requires ValidCall(call) && call.ExecuteArbitrage?
    ensures var sale := AmountToSell(s, call.sender, call.pool, call.decimals0, call.decimals1);
            Step(s, call).Ok? <==>
              && sale.Ok? && call.router.Swapped?
              && call.router.spent <= sale.value && 0 < call.router.amountOut
  {
    var sale := AmountToSell(s, call.sender, call.pool, call.decimals0, call.decimals1);
    if sale.Ok? && call.router.Swapped? {
      var sold := TokenSold(FloorPrice(call.pool.sqrtPriceX96).value, s.targetPrice);
      SwapIff(s, sold, sale.value, call.router.spent, call.router.received, call.router.amountOut);
    }
  }

  /** At a positive fee such a sale stops short of the target, unless the crossed
      ticks take liquidity away or the least amount, less the fee, covers the step. */
  lemma ArbitrageStopsShort(s: VaultState, sender: Address, p: Pool, decimals0: nat, decimals1: nat)
    requires WellFormed(p) && s.targetPrice < TWO_64 && 0 < p.fee
    ensures var sale, root := AmountToSell(s, sender, p, decimals0, decimals1), PriceToSqrtPriceX96(s.targetPrice);
            var minAmount := Pow10(if p.sqrtPriceX96 < root then decimals0 else decimals1);
            sale.Ok? ==>
              && InRange(p, root)
              && (0.0 <= CrossingCost(p, root) && (PIPS - p.fee) * minAmount < PIPS * OneStep(p, root) ==>
                    !SaleArrives(FullWalk(p, root), sale.value, p.fee))
  {
    FeeLeavesShort(p, s.targetPrice, decimals0, decimals1);
  }

  lemma NoGuardAtTarget(target: nat, thresholdBps: nat)
    requires 0 < thresholdBps
    ensures !GuardPasses(target, target, thresholdBps)
  {
    if target != 0 {
      assert 0 / target == 0;
    }
  }

  /** With the pool at the exact root of the target there is nothing to walk, and
      every arbitrage reverts. */
  lemma StuckAtRoot(s: VaultState, call: Call)
    requires ValidCall(call) && call.ExecuteArbitrage? && s.targetPrice < TWO_64
    ensures call.pool.sqrtPriceX96 == PriceToSqrtPriceX96(s.targetPrice) ==> Step(s, call) == Revert
  {
    QuoteIsOneStep(call.pool, s.targetPrice, call.decimals0, call.decimals1);
  }

  /** Yet the guard sees a deviation there exactly when the target is no perfect square. */
  lemma GuardAtRoot(target: nat, thresholdBps: nat)
    requires 0 < target < TWO_64 && 0 < thresholdBps && target * thresholdBps <= 10000
    ensures FloorPrice(PriceToSqrtPriceX96(target)).Ok?
    ensures GuardPasses(FloorPrice(PriceToSqrtPriceX96(target)).value, target, thresholdBps) == !PerfectSquare(target)
  {
    ConversionNearlyInverts(target);
    var current := FloorPrice(PriceToSqrtPriceX96(target)).value;
    GuardIgnoresThreshold(current, target, thresholdBps);
  }
}
