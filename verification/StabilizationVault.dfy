/** The contract itself: storage, the pair tokens' balances it can see, and its
    external functions. `false` stands for a revert. */
module StabilizationVault {
  import opened Evm
  import opened SwapMath
  import opened PriceConversion
  import opened PriceGuard
  import opened PoolModel
  import opened SwapQuote
  import opened VaultModel
  import opened VaultSolvency

  /** A call's effect on the books is that of the value model; a revert has none. */
  ghost predicate Performs(b: Book, call: Call, ok: bool, b': Book)
    requires ValidCall(call)
  {
    b' == BookCall(b, call) && ok == Step(b.state, call).Ok?
  }

  class Vault {
    const owner: Address
    var reserve0: nat
    var reserve1: nat
    var circuitBreakerActive: bool
    var rebalanceThresholdBps: nat
    var targetPrice: Uint256

    // The tokens' own storage: balances of the vault and of its owner.
    var balance0: nat
    var balance1: nat
    var wallet0: nat
    var wallet1: nat

    // The books at deployment and every call since.
    ghost const deployed: Book
    ghost var calls: seq<Call>

    function State(): VaultState
      reads this
    {
      VaultState(owner, Holding(reserve0, balance0, wallet0), Holding(reserve1, balance1, wallet1),
                 circuitBreakerActive, rebalanceThresholdBps, targetPrice)
    }

    /** The books after all calls. */
    ghost function Books(): Book
      reads this`calls
      requires ValidRun(calls)
    {
      Run(deployed, calls)
    }

    /** The storage is what the run of calls leaves, and its books balance. */
    ghost predicate Valid()
      reads this
    {
      && Deployed(deployed) && ValidRun(calls)
      && State() == Books().state
      && BothBalanced(deployed.state.holding0.balance, deployed.state.holding1.balance, Books())
    }

    constructor (owner: Address, balance0: nat, balance1: nat, wallet0: nat, wallet1: nat)
      ensures Valid() && calls == [] && Books() == deployed
      ensures State() == VaultState(owner, Holding(0, balance0, wallet0), Holding(0, balance1, wallet1), false, 20, 1)
    {
      this.owner := owner;
      reserve0, reserve1, circuitBreakerActive, rebalanceThresholdBps, targetPrice := 0, 0, false, 20, 1;
      this.balance0, this.balance1, this.wallet0, this.wallet1 := balance0, balance1, wallet0, wallet1;
      calls := [];
      deployed := Book(
        VaultState(owner, Holding(0, balance0, wallet0), Holding(0, balance1, wallet1), false, 20, 1),
        Flows(0, 0, 0, 0, 0, 0, balance0, 0), Flows(0, 0, 0, 0, 0, 0, balance1, 0));
    }

    /** Every external call joins the run; its body then owes the storage of the new books. */
    ghost method Enter(call: Call)
      requires Valid() && ValidCall(call)
      modifies this`calls
      ensures calls == old(calls) + [call] && ValidRun(calls)
      ensures Books() == BookCall(old(Books()), call) && Books().state == Next(State(), call)
      ensures BothBalanced(deployed.state.holding0.balance, deployed.state.holding1.balance, Books())
    {
      CallKeepsBalanced(Books(), call, deployed.state.holding0.balance, deployed.state.holding1.balance);
      RunExtends(deployed, calls, call);
      calls := calls + [call];
    }

    method Deposit(sender: Address, amount0: nat, amount1: nat, allowance0: nat, allowance1: nat) returns (ok: bool)
      requires Valid()
      modifies this
      ensures Valid()
      ensures Performs(old(Books()), Call.Deposit(sender, amount0, amount1, allowance0, allowance1), ok, Books())
    {
      Enter(Call.Deposit(sender, amount0, amount1, allowance0, allowance1));
      if sender != owner || (amount0 == 0 && amount1 == 0) {
        return false;
      }
      ok := TakeIn(amount0, amount1, allowance0, allowance1);
    }

    /** Both transfers from the owner, then both additions to the reserves. */
    method TakeIn(amount0: nat, amount1: nat, allowance0: nat, allowance1: nat) returns (ok: bool)
      modifies this`reserve0, this`reserve1, this`balance0, this`balance1, this`wallet0, this`wallet1
      ensures var s := old(State());
              var h0, h1 := TakeDeposit(s.holding0, amount0, allowance0), TakeDeposit(s.holding1, amount1, allowance1);
              && ok == (h0.Ok? && h1.Ok?)
              && State() == if ok then s.(holding0 := h0.value, holding1 := h1.value) else s
    {
      if 0 < amount0 && (wallet0 < amount0 || allowance0 < amount0) {
        return false;
      }
      if 0 < amount1 && (wallet1 < amount1 || allowance1 < amount1) {
        return false;
      }
      var sum0, sum1 := CheckedAdd(reserve0, amount0), CheckedAdd(reserve1, amount1);
      if sum0.Revert? || sum1.Revert? {
        return false;
      }
      wallet0, balance0 := wallet0 - amount0, balance0 + amount0;
      wallet1, balance1 := wallet1 - amount1, balance1 + amount1;
      reserve0 := sum0.value;
      reserve1 := sum1.value;
      return true;
    }

    method Withdraw(sender: Address, amount0: nat, amount1: nat) returns (ok: bool)
      requires Valid()
      modifies this
      ensures Valid() && Performs(old(Books()), Call.Withdraw(sender, amount0, amount1), ok, Books())
    {
      Enter(Call.Withdraw(sender, amount0, amount1));
      if sender != owner || (amount0 == 0 && amount1 == 0) {
        return false;
      }
      ok := PayOut(amount0, amount1);
    }

    /** Both reserve checks and subtractions, then both transfers to the owner. */
    method PayOut(amount0: nat, amount1: nat) returns (ok: bool)
      modifies this`reserve0, this`reserve1, this`balance0, this`balance1, this`wallet0, this`wallet1
      ensures var s := old(State());
              var h0, h1 := PayWithdrawal(s.holding0, amount0), PayWithdrawal(s.holding1, amount1);
              && ok == (h0.Ok? && h1.Ok?)
              && State() == if ok then s.(holding0 := h0.value, holding1 := h1.value) else s
    {
      if reserve0 < amount0 || reserve1 < amount1 || balance0 < amount0 || balance1 < amount1 {
        return false;
      }
      reserve0 := reserve0 - amount0;
      reserve1 := reserve1 - amount1;
      balance0, wallet0 := balance0 - amount0, wallet0 + amount0;
      balance1, wallet1 := balance1 - amount1, wallet1 + amount1;
      return true;
    }

    /** The checks of executeArbitrage up to the swap: the token to sell and the amount to approve. */
    method PlanArbitrage(sender: Address, pool: Pool, decimals0: nat, decimals1: nat)
      returns (amount: Outcome<nat>, sold: Token)
      requires WellFormed(pool)
      ensures amount == AmountToSell(State(), sender, pool, decimals0, decimals1)
      ensures amount.Ok? ==> sold == TokenSold(FloorPrice(pool.sqrtPriceX96).value, targetPrice)
    {
      sold := Token0;
      if sender != owner || circuitBreakerActive {
        return Revert, sold;
      }
      var currentPrice := FloorPrice(pool.sqrtPriceX96);
      if currentPrice.Revert? || !GuardPasses(currentPrice.value, targetPrice, rebalanceThresholdBps) {
        return Revert, sold;
      }
      sold := if currentPrice.value > targetPrice then Token0 else Token1;
      amount := CalculateSwapAmount(pool, targetPrice, decimals0, decimals1);
      if amount.Revert? || amount.value == 0 || (if sold.Token0? then balance0 else balance1) < amount.value {
        return Revert, sold;
      }
    }

    /** The swap through the router, and both reserves set to the balances it leaves. */
    method SwapAndSettle(sold: Token, amountIn: nat, router: RouterReply) returns (ok: bool)
      modifies this`reserve0, this`reserve1, this`balance0, this`balance1
      ensures match AfterSwap(old(State()), sold, amountIn, router)
              case Ok(next) => ok && State() == next
              case Revert => !ok && State() == old(State())
    {
      var balBefore := if sold.Token0? then balance0 else balance1;
      if router.SwapFails? || amountIn < router.spent || balBefore < router.spent || router.amountOut == 0 {
        return false;
      }
      if sold.Token0? {
        balance0, balance1 := balance0 - router.spent, balance1 + router.received;
      } else {
        balance1, balance0 := balance1 - router.spent, balance0 + router.received;
      }
      reserve0 := balance0;
      reserve1 := balance1;
      return true;
    }

    method ExecuteArbitrage(sender: Address, pool: Pool, decimals0: nat, decimals1: nat, router: RouterReply)
      returns (ok: bool)
      requires Valid() && WellFormed(pool)
      modifies this
      ensures Valid()
      ensures Performs(old(Books()), Call.ExecuteArbitrage(sender, pool, decimals0, decimals1, router), ok, Books())
    {
      Enter(Call.ExecuteArbitrage(sender, pool, decimals0, decimals1, router));
      var amountIn, sold := PlanArbitrage(sender, pool, decimals0, decimals1);
      if amountIn.Revert? {
        return false;
      }
      ok := SwapAndSettle(sold, amountIn.value, router);
    }

    method TriggerCircuitBreaker(sender: Address) returns (ok: bool)
      requires Valid()
      modifies this
      ensures Valid() && Performs(old(Books()), Call.TriggerCircuitBreaker(sender), ok, Books())
    {
      Enter(Call.TriggerCircuitBreaker(sender));
      if sender != owner {
        return false;
      }
      circuitBreakerActive := true;
      return true;
    }

    method ReleaseCircuitBreaker(sender: Address) returns (ok: bool)
      requires Valid()
      modifies this
      ensures Valid() && Performs(old(Books()), Call.ReleaseCircuitBreaker(sender), ok, Books())
    {
      Enter(Call.ReleaseCircuitBreaker(sender));
      if sender != owner {
        return false;
      }
      circuitBreakerActive := false;
      return true;
    }

    method SetRebalanceThresholdBps(sender: Address, bps: nat) returns (ok: bool)
      requires Valid()
      modifies this
      ensures Valid() && Performs(old(Books()), Call.SetRebalanceThresholdBps(sender, bps), ok, Books())
    {
      Enter(Call.SetRebalanceThresholdBps(sender, bps));
      if sender != owner || bps > 1000 {
        return false;
      }
      rebalanceThresholdBps := bps;
      return true;
    }

    method SetTargetPrice(sender: Address, price: Uint256) returns (ok: bool)
      requires Valid()
      modifies this
      ensures Valid() && Performs(old(Books()), Call.SetTargetPrice(sender, price), ok, Books())
    {
      Enter(Call.SetTargetPrice(sender, price));
      if sender != owner {
        return false;
      }
      targetPrice := price;
      return true;
    }

    /** safeTransfer of a pair token out of the vault. */
    method SendPairToken(token: Token, to: Recipient, amount: nat) returns (ok: bool)
      modifies this`balance0, this`balance1, this`wallet0, this`wallet1
      ensures var s, h := old(State()), SendAway(old(State()).Of(token), to, amount);
              && ok == h.Ok?
              && State() == if !ok then s
                            else if token.Token0? then s.(holding0 := h.value) else s.(holding1 := h.value)
    {
      if (if token.Token0? then balance0 else balance1) < amount {
        return false;
      }
      if to.Vault? {
        return true;
      }
      if token.Token0? {
        balance0 := balance0 - amount;
        wallet0 := if to.Owner? then wallet0 + amount else wallet0;
      } else {
        balance1 := balance1 - amount;
        wallet1 := if to.Owner? then wallet1 + amount else wallet1;
      }
      return true;
    }

    method EmergencyWithdraw(sender: Address, asset: Asset, to: Recipient, amount: nat) returns (ok: bool)
      requires Valid()
      modifies this
      ensures Valid() && Performs(old(Books()), Call.EmergencyWithdraw(sender, asset, to, amount), ok, Books())
    {
      Enter(Call.EmergencyWithdraw(sender, asset, to, amount));
      if sender != owner || to.ZeroAddress? {
        return false;
      }
      if asset.OtherToken? {
        return true;
      }
      ok := SendPairToken(asset.token, to, amount);
    }

    /** A plain transfer to the vault, which runs none of its code. */
    method Donate(token: Token, amount: nat) returns (ok: bool)
      requires Valid()
      modifies this
      ensures Valid() && Performs(old(Books()), Call.Donate(token, amount), ok, Books())
    {
      Enter(Call.Donate(token, amount));
      if token.Token0? {
        balance0 := balance0 + amount;
      } else {
        balance1 := balance1 + amount;
      }
      return true;
    }
  }

  /** Of every vault in every reachable state: the balances cover the reserves
      exactly when no more was drained than donated since the last arbitrage. */
  lemma CoveredUnlessDrained(v: Vault)
    requires v.Valid()
    ensures v.reserve0 <= v.balance0 <==> v.Books().flows0.drainedSince <= v.Books().flows0.donatedSince
    ensures v.reserve1 <= v.balance1 <==> v.Books().flows1.drainedSince <= v.Books().flows1.donatedSince
  {
    assert v.State().holding0.reserve == v.reserve0 && v.State().holding1.reserve == v.reserve1;
  }
}
