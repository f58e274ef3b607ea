/** Whole-run accounting of the vault. */
module VaultSolvency {
  import opened Evm
  import opened SwapMath
  import opened PriceConversion
  import opened VaultModel

  /** What one pair token saw since deployment. The last two count donations and
      emergency withdrawals since the last successful arbitrage only. */
  datatype Flows = Flows(
    deposited: nat, withdrawn: nat, received: nat, spent: nat, donated: nat, drained: nat,
    donatedSince: nat, drainedSince: nat)
  {
    function Drain(amount: nat): Flows {
      this.(drained := drained + amount, drainedSince := drainedSince + amount)
    }

    function Give(amount: nat): Flows {
      this.(donated := donated + amount, donatedSince := donatedSince + amount)
    }

    function Swap(spentNow: nat, receivedNow: nat): Flows {
      this.(spent := spent + spentNow, received := received + receivedNow, donatedSince := 0, drainedSince := 0)
    }
  }

  /** The token a call of executeArbitrage sells, if the price can be read. */
  ghost predicate Sells(s: VaultState, call: Call, token: Token)
    requires call.ExecuteArbitrage?
  {
    match FloorPrice(call.pool.sqrtPriceX96)
    case Ok(current) => token == TokenSold(current, s.targetPrice)
    case Revert => false
  }

  /** Flows of one call that did not revert. */
  ghost function Record(s: VaultState, f: Flows, call: Call, token: Token): Flows {
    match call
    case Deposit(_, amount0, amount1, _, _) =>
      f.(deposited := f.deposited + if token.Token0? then amount0 else amount1)
    case Withdraw(_, amount0, amount1) =>
      f.(withdrawn := f.withdrawn + if token.Token0? then amount0 else amount1)
    case ExecuteArbitrage(_, _, _, _, Swapped(spent, received, _)) =>
      if Sells(s, call, token) then f.Swap(spent, 0) else f.Swap(0, received)
    case EmergencyWithdraw(_, asset, to, amount) =>
      if asset == PairToken(token) && !to.Vault? then f.Drain(amount) else f
    case Donate(t, amount) =>
      if t == token then f.Give(amount) else f
    case _ => f
  }

  datatype Book = Book(state: VaultState, flows0: Flows, flows1: Flows)
  {
    function FlowsOf(token: Token): Flows {
      if token.Token0? then flows0 else flows1
    }
  }

  ghost function BookCall(b: Book, call: Call): Book
    requires ValidCall(call)
  {
    match Step(b.state, call)
    case Revert => b
    case Ok(s) => Book(s, Record(b.state, b.flows0, call, Token0), Record(b.state, b.flows1, call, Token1))
  }

  ghost predicate ValidRun(calls: seq<Call>) {
    forall c | c in calls :: ValidCall(c)
  }

  /** The books after a run of calls. */
  ghost function Run(b: Book, calls: seq<Call>): Book
    requires ValidRun(calls)
  {
    if calls == [] then b else BookCall(Run(b, calls[..|calls| - 1]), calls[|calls| - 1])
  }

  lemma RunExtends(b: Book, calls: seq<Call>, call: Call)
    requires ValidRun(calls) && ValidCall(call)
    ensures ValidRun(calls + [call]) && Run(b, calls + [call]) == BookCall(Run(b, calls), call)
    ensures BookCall(Run(b, calls), call).state == Next(Run(b, calls).state, call)
  {
    assert (calls + [call])[..|calls|] == calls;
  }

  /** A fresh vault has no reserves; tokens sent to it earlier count as given. */
  ghost predicate Deployed(b: Book) {
    && b.state.holding0.reserve == 0 && b.state.holding1.reserve == 0
    && b.flows0 == Flows(0, 0, 0, 0, 0, 0, b.state.holding0.balance, 0)
    && b.flows1 == Flows(0, 0, 0, 0, 0, 0, b.state.holding1.balance, 0)
  }

  /** The two laws: the balance is the sum of all flows, and what parts it from
      the reserve is exactly what was donated and drained since the last arbitrage. */
  ghost predicate Balanced(initial: nat, h: Holding, f: Flows) {
    && h.balance == initial + f.deposited - f.withdrawn + f.received - f.spent + f.donated - f.drained
    && h.reserve + f.donatedSince == h.balance + f.drainedSince
  }

  ghost predicate BothBalanced(initial0: nat, initial1: nat, b: Book) {
    Balanced(initial0, b.state.holding0, b.flows0) && Balanced(initial1, b.state.holding1, b.flows1)
  }

  lemma SwapKeepsBalanced(b: Book, call: Call, initial0: nat, initial1: nat)
    requires ValidCall(call) && call.ExecuteArbitrage? && BothBalanced(initial0, initial1, b)
    ensures BothBalanced(initial0, initial1, BookCall(b, call))
  {
    if AmountToSell(b.state, call.sender, call.pool, call.decimals0, call.decimals1).Ok? {
      var sold := TokenSold(FloorPrice(call.pool.sqrtPriceX96).value, b.state.targetPrice);
      assert Sells(b.state, call, sold);
      assert sold.Token0? <==> !Sells(b.state, call, Token1);
    }
  }

  lemma OtherCallKeepsBalanced(b: Book, call: Call, initial0: nat, initial1: nat)
    requires !call.ExecuteArbitrage? && BothBalanced(initial0, initial1, b)
    ensures BothBalanced(initial0, initial1, BookCall(b, call))
  {
    match call
    case EmergencyWithdraw(_, PairToken(Token0), to, _) =>
    case EmergencyWithdraw(_, PairToken(Token1), to, _) =>
    case _ =>
  }

  lemma CallKeepsBalanced(b: Book, call: Call, initial0: nat, initial1: nat)
    requires ValidCall(call) && BothBalanced(initial0, initial1, b)
    ensures BothBalanced(initial0, initial1, BookCall(b, call))
  {
    if call.ExecuteArbitrage? {
      SwapKeepsBalanced(b, call, initial0, initial1);
    } else {
      OtherCallKeepsBalanced(b, call, initial0, initial1);
    }
  }

  /** Conservation: in every state of every run, for both tokens. */
  lemma {:induction false} BooksBalance(b: Book, calls: seq<Call>)
    requires Deployed(b) && ValidRun(calls)
    ensures BothBalanced(b.state.holding0.balance, b.state.holding1.balance, Run(b, calls))
  {
    if calls == [] {
    } else {
      var last := |calls| - 1;
      BooksBalance(b, calls[..last]);
      CallKeepsBalanced(Run(b, calls[..last]), calls[last], b.state.holding0.balance, b.state.holding1.balance);
    }
  }

  /** Solvency: the real balance covers the recorded reserve exactly when no more
      was drained than donated since the last successful arbitrage; without a
      drain it always does, and the shortfall never exceeds what was drained. */
  lemma SolventUnlessDrained(b: Book, calls: seq<Call>, token: Token)
    requires Deployed(b) && ValidRun(calls)
    ensures var end := Run(b, calls);
            var h, f := end.state.Of(token), end.FlowsOf(token);
            && (h.reserve <= h.balance <==> f.drainedSince <= f.donatedSince)
            && (f.drainedSince == 0 ==> h.reserve <= h.balance)
            && h.reserve <= h.balance + f.drainedSince
  {
    BooksBalance(b, calls);
  }

  /** Without donations and emergency withdrawals the reserve is the balance, and
      both are deposits less withdrawals plus what the swaps changed. */
  lemma ReservesAreFlows(b: Book, calls: seq<Call>, token: Token)
    requires Deployed(b) && ValidRun(calls) && b.state.Of(token).balance == 0
    requires var f := Run(b, calls).FlowsOf(token); f.donated == 0 && f.drained == 0
    ensures var end := Run(b, calls);
            var h, f := end.state.Of(token), end.FlowsOf(token);
            h.reserve == h.balance == f.deposited - f.withdrawn + f.received - f.spent
  {
    BooksBalance(b, calls);
    SinceIsPart(b, calls);
  }

  lemma {:induction false} SinceIsPart(b: Book, calls: seq<Call>)
    requires Deployed(b) && ValidRun(calls)
    ensures var end := Run(b, calls);
            && end.flows0.donatedSince <= end.flows0.donated + b.state.holding0.balance
            && end.flows1.donatedSince <= end.flows1.donated + b.state.holding1.balance
            && end.flows0.drainedSince <= end.flows0.drained && end.flows1.drainedSince <= end.flows1.drained
  {
    if calls == [] {
    } else {
      SinceIsPart(b, calls[..|calls| - 1]);
    }
  }

  /** A successful arbitrage restores equality from any state whatsoever. */
  lemma ArbitrageRestoresEquality(s: VaultState, call: Call, token: Token)
    requires ValidCall(call) && call.ExecuteArbitrage?
    ensures Step(s, call).Ok? ==> var h := Step(s, call).value.Of(token); h.reserve == h.balance
  {
  }

  /** The owner can withdraw every recorded reserve exactly when the books allow it. */
  lemma FullWithdrawal(b: Book, calls: seq<Call>)
    requires Deployed(b) && ValidRun(calls)
    ensures var end := Run(b, calls);
            var s := end.state;
            var covered := end.flows0.drainedSince <= end.flows0.donatedSince
                           && end.flows1.drainedSince <= end.flows1.donatedSince;
            Step(s, Withdraw(s.owner, s.holding0.reserve, s.holding1.reserve)).Ok?
              == (covered && (0 < s.holding0.reserve || 0 < s.holding1.reserve))
  {
    BooksBalance(b, calls);
  }

  /** Withdrawing what was just deposited undoes the deposit, wallets included. */
  lemma WithdrawUndoesDeposit(s: VaultState, call: Call)
    requires call.Deposit? && Step(s, call).Ok?
    ensures Step(Step(s, call).value, Withdraw(call.sender, call.amount0, call.amount1)) == Ok(s)
  {
  }

  /** While the breaker is active and not released, no run swaps anything. */
  lemma {:induction false} BreakerStopsSwaps(b: Book, calls: seq<Call>)
    requires ValidRun(calls) && b.state.circuitBreakerActive
    requires forall c | c in calls :: !c.ReleaseCircuitBreaker?
    ensures var end := Run(b, calls);
            && end.state.circuitBreakerActive
            && end.flows0.spent == b.flows0.spent && end.flows0.received == b.flows0.received
            && end.flows1.spent == b.flows1.spent && end.flows1.received == b.flows1.received
  {
    if calls == [] {
    } else {
      BreakerStopsSwaps(b, calls[..|calls| - 1]);
    }
  }
}
