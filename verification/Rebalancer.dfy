/** The rebalancer: interval, risk check, cooldown, three attempts, and the swap. */
module Rebalancer {
  import opened Options
  import opened RiskEngine
  import opened Sales
  import opened SwapSizing
  import Allowance

  const SECOND: int := 1_000_000_000

  datatype BotConfig = BotConfig(
    rebalanceIntervalSec: int, rebalanceThreshold: real, refPrice: real,
    stabilizationEnabled: bool, deviationBps: int, cooldownSec: int, size: SizeConfig)
  {
    function Interval(): int { rebalanceIntervalSec * SECOND }

    function Cooldown(): int { cooldownSec * SECOND }

    /** Reported-successful swaps stay at least this far apart. */
    function Gap(): int { if Interval() <= Cooldown() then Cooldown() else Interval() }
  }

  /** One attempt at a swap: the prices stored by then, both balances (None when the
      read fails), what became of the swap's transaction, and when that was known. */
  datatype Attempt = Attempt(
    prices: Prices, balance0: Option<nat>, balance1: Option<nat>, tx: Allowance.TxReply, doneAt: int)

  /** The clock readings and answers one ExecuteRebalance meets. The price loop runs
      beside it, so ShouldStabilize and each attempt find prices of their own. */
  datatype Script = Script(
    shouldAt: int, riskAt: int, stabilizeAt: int, stabilizePrices: Prices,
    attempts: seq<Attempt>, endAt: int, endPrices: Prices)

  /** Time never runs backwards, and three attempts are on hand. */
  ghost predicate WellTimed(s: Script) {
    && |s.attempts| == 3
    && s.shouldAt <= s.riskAt <= s.stabilizeAt <= s.attempts[0].doneAt
    && s.attempts[0].doneAt <= s.attempts[1].doneAt <= s.attempts[2].doneAt <= s.endAt
  }

  /** Relative deviation from the TWAP price; zero when that is zero. */
  function Deviation(p: Prices): real {
    if p.twap == 0.0 then 0.0 else Abs(p.current - p.twap) / p.twap
  }

  predicate DeviationReaches(cfg: BotConfig, deviation: real) {
    cfg.deviationBps <= Trunc(deviation * 10000.0)
  }

  /** The token sold and the amount an attempt would sell; None when a balance
      cannot be read or there is nothing to sell. */
  function Offer(cfg: BotConfig, a: Attempt): Option<(bool, nat)> {
    if a.balance0.None? || a.balance1.None? then None
    else
      var sellsToken0 := a.prices.current > 1.0;
      var amount := AmountIn(cfg.size, if sellsToken0 then a.balance0.value else a.balance1.value);
      if amount <= 0 then None else Some((sellsToken0, amount))
  }

  /** The balance of the token an attempt sells. */
  function SoldBalance(a: Attempt): Option<nat> {
    if a.prices.current > 1.0 then a.balance0 else a.balance1
  }

  /** An offer sells token0 above the peg and token1 otherwise, at most what the wallet
      holds of it and at most the maximum, and at least the minimum where both allow it. */
  lemma OfferWithinBalance(cfg: BotConfig, a: Attempt)
    ensures Offer(cfg, a).Some? ==>
              && Offer(cfg, a).value.0 == (a.prices.current > 1.0)
              && SoldBalance(a).Some? && 0 < Offer(cfg, a).value.1 <= SoldBalance(a).value
              && Offer(cfg, a).value.1 as real <= cfg.size.maxSwapAmount * 1_000_000.0
    ensures a.balance0.Some? && a.balance1.Some? && cfg.size.minSwapAmount <= cfg.size.maxSwapAmount
            && 1.0 <= cfg.size.minSwapAmount * 1_000_000.0 <= SoldBalance(a).value as real ==>
              && Offer(cfg, a).Some?
              && (cfg.size.minSwapAmount * 1_000_000.0).Floor <= Offer(cfg, a).value.1
  {
    if a.balance0.Some? && a.balance1.Some? {
      SizeBounds(cfg.size, SoldBalance(a).value);
    }
  }

  /** The other balance must be readable and has no other say. */
  lemma OtherBalanceIsFree(cfg: BotConfig, a: Attempt, other: nat)
    requires a.balance0.Some? && a.balance1.Some?
    ensures Offer(cfg, if a.prices.current > 1.0 then a.(balance1 := Some(other)) else a.(balance0 := Some(other)))
         == Offer(cfg, a)
    ensures Offer(cfg, a.(balance0 := None)) == Offer(cfg, a.(balance1 := None)) == None
  {
  }

  predicate Succeeds(cfg: BotConfig, a: Attempt) {
    Offer(cfg, a).Some? && a.tx == Allowance.Done(true)
  }

  /** The swap happens on chain; a lost receipt hides it from the bot. */
  predicate Lands(cfg: BotConfig, a: Attempt) {
    Offer(cfg, a).Some? && !a.tx.NotSent? && a.tx.success
  }

  function LandingOf(cfg: BotConfig, a: Attempt): seq<Landing> {
    if Lands(cfg, a) then [Landing(a.doneAt, Offer(cfg, a).value.0, Offer(cfg, a).value.1, a.tx.Done?)] else []
  }

  /** The same as the executor's account sees it: with an allowance that covers the
      offer, the swap lands exactly when it spends it, and succeeds exactly when
      ExecuteSwap says so. */
  lemma LandsAsSpent(cfg: BotConfig, a: Attempt, account: Allowance.Account, approve: Allowance.ApproveReply)
    requires Offer(cfg, a).Some?
    requires Offer(cfg, a).value.1 <= Allowance.Approve(account, 10 * Offer(cfg, a).value.1, approve).account.allowance
    ensures var amountIn := Offer(cfg, a).value.1;
            var ready := Allowance.Approve(account, 10 * amountIn, approve).account;
            var swapped := Allowance.SwapOnce(account, amountIn, Allowance.Swap(approve, a.tx));
            && (Lands(cfg, a) <==> swapped.account.allowance == ready.allowance - amountIn)
            && (Succeeds(cfg, a) <==> swapped.ok)
            && LandingOf(cfg, a)
                 == if Lands(cfg, a) then [Landing(a.doneAt, a.prices.current > 1.0, amountIn, swapped.ok)] else []
  {
    Allowance.SwapSpendsIff(account, Offer(cfg, a).value.1, Allowance.Swap(approve, a.tx));
  }

  /** What the attempts from i on land, up to the first one that succeeds. */
  function Landings(cfg: BotConfig, attempts: seq<Attempt>, i: nat): (r: seq<Landing>)
    ensures i <= |attempts| ==> |r| <= |attempts| - i
    decreases |attempts| - i
  {
    if |attempts| <= i then []
    else if Succeeds(cfg, attempts[i]) then LandingOf(cfg, attempts[i])
    else LandingOf(cfg, attempts[i]) + Landings(cfg, attempts, i + 1)
  }

  /** Every swap that lands was offered by one of the attempts, which held its amount. */
  lemma {:induction false} LandingsWithinBalance(cfg: BotConfig, attempts: seq<Attempt>, i: nat, l: Landing)
    requires l in Landings(cfg, attempts, i)
    ensures exists a :: a in attempts && SoldFrom(a, l)
    decreases |attempts| - i
  {
    if l in LandingOf(cfg, attempts[i]) {
      OfferWithinBalance(cfg, attempts[i]);
      assert SoldFrom(attempts[i], l);
    } else {
      LandingsWithinBalance(cfg, attempts, i + 1, l);
    }
  }

  predicate SoldFrom(a: Attempt, l: Landing) {
    && l.at == a.doneAt && l.sellsToken0 == (a.prices.current > 1.0)
    && SoldBalance(a).Some? && l.amountIn <= SoldBalance(a).value
  }

  /** Of those, the reported one is the first success. */
  lemma {:induction false} ReportedLandings(cfg: BotConfig, attempts: seq<Attempt>, i: nat)
    ensures var first := FirstSuccess(cfg, attempts, i);
            Reported(Landings(cfg, attempts, i)) == if first.Some? then LandingOf(cfg, attempts[first.value]) else []
    decreases |attempts| - i
  {
    if |attempts| <= i || Succeeds(cfg, attempts[i]) {
    } else {
      ReportedLandings(cfg, attempts, i + 1);
      ReportedJoins(LandingOf(cfg, attempts[i]), Landings(cfg, attempts, i + 1));
    }
  }

  /** The first of the attempts from i on that succeeds. */
  function FirstSuccess(cfg: BotConfig, attempts: seq<Attempt>, i: nat): (r: Option<nat>)
    ensures r.Some? ==> i <= r.value < |attempts| && Succeeds(cfg, attempts[r.value])
    ensures r.Some? ==> forall j | i <= j < r.value :: !Succeeds(cfg, attempts[j])
    ensures r.None? ==> forall j | i <= j < |attempts| :: !Succeeds(cfg, attempts[j])
    decreases |attempts| - i
  {
    if |attempts| <= i then None
    else if Succeeds(cfg, attempts[i]) then Some(i)
    else FirstSuccess(cfg, attempts, i + 1)
  }

  /** The fields the decisions read. */
  datatype BotState = BotState(prices: Prices, lastRebalance: int, lastStabilize: int, isRunning: bool)

  /** Whether the risk engine is asked at all. */
  predicate Consults(cfg: BotConfig, b: BotState, now: int) {
    b.isRunning && cfg.Interval() <= now - b.lastRebalance && Deviation(b.prices) <= cfg.rebalanceThreshold
  }

  /** What a call adds to the engine's history. */
  function Asked(cfg: BotConfig, b: BotState, now: int, riskNow: int): seq<Event> {
    if Consults(cfg, b, now) then [Checked(riskNow, Abs(b.prices.current - cfg.refPrice))] else []
  }

  /** The risk engine's answer, read off its full history. */
  ghost predicate RiskPasses(cfg: BotConfig, risk: RiskConfig, history: seq<Event>, p: Prices, now: int) {
    Verdict(risk, history, now, Abs(p.current - cfg.refPrice), Abs(p.twap - cfg.refPrice)).Passed?
  }

  /** Running, interval over, and either a large deviation or a passing check. */
  ghost predicate MayRebalance(cfg: BotConfig, risk: RiskConfig, history: seq<Event>, b: BotState,
                               now: int, riskNow: int) {
    && b.isRunning && cfg.Interval() <= now - b.lastRebalance
    && (cfg.rebalanceThreshold < Deviation(b.prices) || RiskPasses(cfg, risk, history, b.prices, riskNow))
  }

  predicate ShouldStabilize(cfg: BotConfig, hasExecutor: bool, p: Prices, lastStabilize: int, now: int) {
    && cfg.stabilizationEnabled && hasExecutor
    && cfg.Cooldown() <= now - lastStabilize
    && DeviationReaches(cfg, Deviation(p))
  }

  /** The sale a whole ExecuteRebalance makes once it may rebalance, on an engine
      that had recorded n events. */
  function SaleDue(cfg: BotConfig, hasExecutor: bool, n: nat, b: BotState, s: Script): Option<Sale> {
    var first := FirstSuccess(cfg, s.attempts, 0);
    if first.None? || !ShouldStabilize(cfg, hasExecutor, s.stabilizePrices, b.lastStabilize, s.stabilizeAt) then None
    else
      var a := s.attempts[first.value];
      var offer := Offer(cfg, a).value;
      Some(Sale(a.doneAt, offer.0, offer.1, b.prices, s.stabilizePrices, n, n + |Asked(cfg, b, s.shouldAt, s.riskAt)|))
  }

  /** What that ExecuteRebalance lands on chain. */
  function LandingsDue(cfg: BotConfig, hasExecutor: bool, b: BotState, s: Script): (r: seq<Landing>)
    ensures |r| <= |s.attempts|
  {
    if !ShouldStabilize(cfg, hasExecutor, s.stabilizePrices, b.lastStabilize, s.stabilizeAt) then []
    else Landings(cfg, s.attempts, 0)
  }

  /** What a call makes of its state and answers: the reported sale, and the swaps on chain. */
  ghost function SaleMade(cfg: BotConfig, risk: RiskConfig, history: seq<Event>, hasExecutor: bool,
                          b: BotState, s: Script): Option<Sale> {
    if MayRebalance(cfg, risk, history, b, s.shouldAt, s.riskAt) then SaleDue(cfg, hasExecutor, |history|, b, s)
    else None
  }

  /** The call comes back without an error. */
  ghost predicate Completes(cfg: BotConfig, risk: RiskConfig, history: seq<Event>, hasExecutor: bool,
                            b: BotState, s: Script) {
    && MayRebalance(cfg, risk, history, b, s.shouldAt, s.riskAt)
    && (SaleMade(cfg, risk, history, hasExecutor, b, s).Some? || !cfg.stabilizationEnabled)
  }

  function Sold(made: Option<Sale>): seq<Sale> {
    if made.Some? then [made.value] else []
  }

  ghost function SwapsMade(cfg: BotConfig, risk: RiskConfig, history: seq<Event>, hasExecutor: bool,
                           b: BotState, s: Script): (r: seq<Landing>)
    ensures |r| <= |s.attempts|
  {
    if MayRebalance(cfg, risk, history, b, s.shouldAt, s.riskAt) then LandingsDue(cfg, hasExecutor, b, s) else []
  }

  /** The same for the sale a call reports. */
  lemma SaleWithinBalance(cfg: BotConfig, hasExecutor: bool, n: nat, b: BotState, s: Script)
    ensures var due := SaleDue(cfg, hasExecutor, n, b, s);
            due.Some? ==> exists a :: a in s.attempts && Succeeds(cfg, a) && SoldFrom(a, AsLanding(due.value))
  {
    var first := FirstSuccess(cfg, s.attempts, 0);
    if first.Some? {
      OfferWithinBalance(cfg, s.attempts[first.value]);
      assert s.attempts[first.value] in s.attempts;
    }
  }

  /** The decisions in nanoseconds and basis points. A rebalance waits for its interval
      and either has a large relative deviation or passes the check; a stabilization
      waits for its cooldown and needs its basis points. */
  lemma DecisionsInNumbers(cfg: BotConfig, risk: RiskConfig, history: seq<Event>, hasExecutor: bool, b: BotState,
                           now: int, riskNow: int)
    requires 0.0 < b.prices.twap
    ensures var off := Abs(b.prices.current - b.prices.twap);
            var waited := 1_000_000_000 * cfg.rebalanceIntervalSec <= now - b.lastRebalance;
            var large := cfg.rebalanceThreshold * b.prices.twap < off;
            && (Consults(cfg, b, now) <==> b.isRunning && waited && !large)
            && (MayRebalance(cfg, risk, history, b, now, riskNow) <==>
                  b.isRunning && waited && (large || RiskPasses(cfg, risk, history, b.prices, riskNow)))
            && (ShouldStabilize(cfg, hasExecutor, b.prices, b.lastStabilize, now) <==>
                  && cfg.stabilizationEnabled && hasExecutor
                  && 1_000_000_000 * cfg.cooldownSec <= now - b.lastStabilize
                  && (cfg.deviationBps <= 0 || cfg.deviationBps as real * b.prices.twap <= off * 10000.0))
  {
    var off, twap := Abs(b.prices.current - b.prices.twap), b.prices.twap;
    var d := off / twap;
    assert d * twap == off;
    assert Deviation(b.prices) == d && 0.0 <= d;
    CompareScaled(cfg.rebalanceThreshold, d, twap);
    CompareScaled(d * 10000.0, cfg.deviationBps as real, twap);
    assert d * 10000.0 * twap == off * 10000.0;
  }

  lemma CompareScaled(x: real, y: real, k: real)
    requires 0.0 < k
    ensures x < y <==> x * k < y * k
  {
  }

  /** Without a TWAP price there is no deviation at all. */
  lemma NoTwapNoDeviation(current: real)
    ensures Deviation(Prices(current, 0.0)) == 0.0
  {
  }

  /** A call that may rebalance but sells nothing fails, unless stabilization is off. */
  lemma CompletesIff(cfg: BotConfig, risk: RiskConfig, history: seq<Event>, hasExecutor: bool, b: BotState, s: Script)
    ensures var may := MayRebalance(cfg, risk, history, b, s.shouldAt, s.riskAt);
            && (Completes(cfg, risk, history, hasExecutor, b, s) <==>
                  may && (!cfg.stabilizationEnabled || SaleDue(cfg, hasExecutor, |history|, b, s).Some?))
            && (SaleMade(cfg, risk, history, hasExecutor, b, s).Some? ==> cfg.stabilizationEnabled)
  {
  }

  /** The bot hears of its sale and of nothing else. */
  lemma ReportedIsSale(cfg: BotConfig, hasExecutor: bool, n: nat, b: BotState, s: Script)
    ensures var due := SaleDue(cfg, hasExecutor, n, b, s);
            Reported(LandingsDue(cfg, hasExecutor, b, s)) == if due.Some? then [AsLanding(due.value)] else []
  {
    ReportedLandings(cfg, s.attempts, 0);
  }

  /** The swaps on chain the bot was told of are its sales. */
  ghost predicate ChainOk(landed: seq<Landing>, sales: seq<Sale>) {
    Reported(landed) == AsLandings(sales)
  }

  lemma ChainKept(cfg: BotConfig, risk: RiskConfig, history: seq<Event>, hasExecutor: bool, b: BotState, s: Script,
                  landed: seq<Landing>, sales: seq<Sale>)
    requires ChainOk(landed, sales)
    ensures var made := SaleMade(cfg, risk, history, hasExecutor, b, s);
            ChainOk(landed + SwapsMade(cfg, risk, history, hasExecutor, b, s), sales + Sold(made))
  {
    ReportedIsSale(cfg, hasExecutor, |history|, b, s);
    ReportedJoins(landed, SwapsMade(cfg, risk, history, hasExecutor, b, s));
    assert landed + [] == landed && sales + [] == sales;
  }

  /** The call that made the sale ran a risk check. */
  ghost predicate Consulted(history: seq<Event>, s: Sale)
    requires s.from <= s.to <= |history|
  {
    exists i :: s.from <= i < s.to && history[i].Checked?
  }

  /** The one event the call recorded is a check of the price it decided on, and
      that check passed. */
  ghost predicate Cleared(cfg: BotConfig, risk: RiskConfig, history: seq<Event>, s: Sale)
    requires s.from <= s.to <= |history|
  {
    && s.to == s.from + 1
    && history[s.from].Checked? && history[s.from].deviation == Abs(s.decided.current - cfg.refPrice)
    && RiskPasses(cfg, risk, history[..s.from], s.decided, history[s.from].at)
  }

  /** What every recorded sale satisfies. */
  ghost predicate SaleAllowed(cfg: BotConfig, risk: RiskConfig, history: seq<Event>, s: Sale) {
    && cfg.stabilizationEnabled
    && 0 < s.amountIn && s.amountIn as real <= cfg.size.maxSwapAmount * UNIT
    && DeviationReaches(cfg, Deviation(s.stabilized))
    && s.from <= s.to <= |history|
    && (if Deviation(s.decided) <= cfg.rebalanceThreshold then Cleared(cfg, risk, history, s) else s.from == s.to)
  }

  /** The engine was consulted exactly on the small deviations. */
  lemma ConsultedIffSmall(cfg: BotConfig, risk: RiskConfig, history: seq<Event>, s: Sale)
    requires SaleAllowed(cfg, risk, history, s)
    ensures Consulted(history, s) <==> Deviation(s.decided) <= cfg.rebalanceThreshold
  {
  }

  /** The sales so far: spaced, allowed, and none after the two timers. */
  ghost predicate SalesOk(cfg: BotConfig, risk: RiskConfig, history: seq<Event>, sales: seq<Sale>,
                          lastRebalance: int, lastStabilize: int) {
    && Spaced(sales, cfg.Gap())
    && (forall s | s in sales :: SaleAllowed(cfg, risk, history, s))
    && (sales != [] ==> sales[|sales| - 1].at <= lastRebalance && sales[|sales| - 1].at <= lastStabilize)
  }

  /** Later events leave a recorded sale as it is. */
  lemma AllowedExtends(cfg: BotConfig, risk: RiskConfig, history: seq<Event>, more: seq<Event>, s: Sale)
    requires SaleAllowed(cfg, risk, history, s)
    ensures SaleAllowed(cfg, risk, history + more, s)
  {
    assert (history + more)[..s.from] == history[..s.from];
  }

  lemma SaleDueIsAllowed(cfg: BotConfig, risk: RiskConfig, history: seq<Event>, hasExecutor: bool,
                         b: BotState, s: Script)
    requires WellTimed(s) && SaleDue(cfg, hasExecutor, |history|, b, s).Some?
    requires MayRebalance(cfg, risk, history, b, s.shouldAt, s.riskAt)
    ensures var sale := SaleDue(cfg, hasExecutor, |history|, b, s).value;
            && SaleAllowed(cfg, risk, history + Asked(cfg, b, s.shouldAt, s.riskAt), sale)
            && b.lastStabilize + cfg.Cooldown() <= sale.at && s.shouldAt <= sale.at <= s.endAt
  {
    var a := s.attempts[FirstSuccess(cfg, s.attempts, 0).value];
    SizeBounds(cfg.size, if a.prices.current > 1.0 then a.balance0.value else a.balance1.value);
    assert (history + Asked(cfg, b, s.shouldAt, s.riskAt))[..|history|] == history;
  }

  /** A sale after both waits keeps the sales spaced by the longer one. */
  lemma SaleKeepsOk(cfg: BotConfig, risk: RiskConfig, history: seq<Event>, hasExecutor: bool, b: BotState, s: Script,
                    sales: seq<Sale>)
    requires SalesOk(cfg, risk, history, sales, b.lastRebalance, b.lastStabilize)
    requires WellTimed(s) && SaleDue(cfg, hasExecutor, |history|, b, s).Some?
    requires MayRebalance(cfg, risk, history, b, s.shouldAt, s.riskAt)
    ensures var sale := SaleDue(cfg, hasExecutor, |history|, b, s).value;
            SalesOk(cfg, risk, history + Asked(cfg, b, s.shouldAt, s.riskAt), sales + [sale], s.endAt, sale.at)
  {
    SaleDueIsAllowed(cfg, risk, history, hasExecutor, b, s);
    AllExtend(cfg, risk, history, Asked(cfg, b, s.shouldAt, s.riskAt), sales);
  }

  lemma AllExtend(cfg: BotConfig, risk: RiskConfig, history: seq<Event>, more: seq<Event>, sales: seq<Sale>)
    requires forall s | s in sales :: SaleAllowed(cfg, risk, history, s)
    ensures forall s | s in sales :: SaleAllowed(cfg, risk, history + more, s)
  {
    forall s | s in sales
      ensures SaleAllowed(cfg, risk, history + more, s)
    {
      AllowedExtends(cfg, risk, history, more, s);
    }
  }

  class Rebalancer {
    const cfg: BotConfig
    const engine: Engine
    const hasExecutor: bool
    var currentPrice: real
    var twapPrice: real
    var lastRebalance: int
    var lastStabilize: int
    var isRunning: bool
    ghost var clock: int
    ghost var sales: seq<Sale>
    ghost var landed: seq<Landing>

    function State(): BotState
      reads this
    {
      BotState(Prices(currentPrice, twapPrice), lastRebalance, lastStabilize, isRunning)
    }

    /** Everything that is recorded of the past. */
    ghost function Record(): (seq<Event>, seq<Sale>, seq<Landing>)
      reads this, engine
    {
      (engine.history, sales, landed)
    }

    ghost predicate Valid()
      reads this, engine
    {
      && engine.Valid() && NotBefore(engine.history, clock)
      && lastRebalance <= clock
      && SalesOk(cfg, engine.cfg, engine.history, sales, lastRebalance, lastStabilize)
      && ChainOk(landed, sales)
    }

    constructor (cfg: BotConfig, engine: Engine, hasExecutor: bool, now: int)
      requires engine.Valid() && NotBefore(engine.history, now)
      ensures Valid() && this.cfg == cfg && this.engine == engine && this.hasExecutor == hasExecutor
      ensures sales == [] && landed == [] && clock == now && State() == BotState(Prices(1.0, 1.0), now, now, false)
    {
      this.cfg, this.engine, this.hasExecutor := cfg, engine, hasExecutor;
      currentPrice, twapPrice, lastRebalance, lastStabilize, isRunning := 1.0, 1.0, now, now, false;
      clock, sales, landed := now, [], [];
    }

    method UpdatePrices(p: Prices)
      modifies this`currentPrice, this`twapPrice
      ensures State() == old(State()).(prices := p)
    {
      currentPrice, twapPrice := p.current, p.twap;
    }

    method Start()
      modifies this`isRunning
      ensures State() == old(State()).(isRunning := true)
    {
      isRunning := true;
    }

    method Stop()
      modifies this`isRunning
      ensures State() == old(State()).(isRunning := false)
    {
      isRunning := false;
    }

    method ShouldRebalance(now: int, riskNow: int) returns (should: bool)
      requires engine.Valid() && NotBefore(engine.history, riskNow)
      modifies engine
      ensures engine.Valid()
      ensures should <==> MayRebalance(cfg, engine.cfg, old(engine.history), State(), now, riskNow)
      ensures engine.history == old(engine.history) + Asked(cfg, State(), now, riskNow)
    {
      if !isRunning {
        return false;
      }
      if now - lastRebalance < cfg.Interval() {
        return false;
      }
      var deviation := Deviation(Prices(currentPrice, twapPrice));
      if deviation > cfg.rebalanceThreshold {
        return true;
      }
      var riskCheck := engine.CheckRisk(riskNow, currentPrice, twapPrice, cfg.refPrice);
      return riskCheck.allowed;
    }

    /** One attempt: it sells exactly its offer at the prices found, asks for at least
        the slippage bound, and only a reported success counts. */
    method DoStabilization(a: Attempt) returns (ok: bool, amountIn: nat, amountOutMin: int)
      requires State().prices == a.prices
      modifies this`lastStabilize, this`landed
      ensures ok <==> Succeeds(cfg, a)
      ensures ok ==> Offer(cfg, a) == Some((currentPrice > 1.0, amountIn))
      ensures ok ==> SoldBalance(a).Some? && 0 < amountIn <= SoldBalance(a).value
      ensures ok ==> amountOutMin == AmountOutMin(cfg.size, amountIn)
      ensures lastStabilize == if ok then a.doneAt else old(lastStabilize)
      ensures landed == old(landed) + LandingOf(cfg, a)
    {
      if a.balance0.None? || a.balance1.None? {
        return false, 0, 0;
      }
      var sellsToken0 := currentPrice > 1.0;
      var swapVal := ClampedSwap(cfg.size, if sellsToken0 then a.balance0.value else a.balance1.value);
      var amount := Trunc(swapVal * UNIT);
      if amount <= 0 {
        return false, 0, 0;
      }
      SizeBounds(cfg.size, SoldBalance(a).value);
      amountOutMin := AmountOutMin(cfg.size, amount);
      if !a.tx.NotSent? && a.tx.success {
        landed := landed + [Landing(a.doneAt, sellsToken0, amount, a.tx.Done?)];
      }
      if a.tx != Allowance.Done(true) {
        return false, 0, amountOutMin;
      }
      lastStabilize := a.doneAt;
      return true, amount, amountOutMin;
    }

    /** Up to three attempts, stopping at the first success. Before each of them the
        price loop may have stored other prices. */
    method ExecuteStabilization(now: int, attempts: seq<Attempt>) returns (ok: bool)
      requires |attempts| == 3
      modifies this`lastStabilize, this`currentPrice, this`twapPrice, this`landed
      ensures landed == old(landed) + (
        if !ShouldStabilize(cfg, hasExecutor, old(State()).prices, old(lastStabilize), now) then []
        else Landings(cfg, attempts, 0))
      ensures var first := FirstSuccess(cfg, attempts, 0);
              && ok == (ShouldStabilize(cfg, hasExecutor, old(State()).prices, old(lastStabilize), now) && first.Some?)
              && lastStabilize == if ok then attempts[first.value].doneAt else old(lastStabilize)
    {
      if !ShouldStabilize(cfg, hasExecutor, Prices(currentPrice, twapPrice), lastStabilize, now) {
        return false;
      }
      var attempt := 1;
      while attempt <= 3
        invariant 1 <= attempt <= 4
        invariant lastStabilize == old(lastStabilize)
        invariant FirstSuccess(cfg, attempts, 0) == FirstSuccess(cfg, attempts, attempt - 1)
        invariant old(landed) + Landings(cfg, attempts, 0) == landed + Landings(cfg, attempts, attempt - 1)
      {
        assert landed + Landings(cfg, attempts, attempt - 1)
            == landed + LandingOf(cfg, attempts[attempt - 1])
             + (if Succeeds(cfg, attempts[attempt - 1]) then [] else Landings(cfg, attempts, attempt));
        UpdatePrices(attempts[attempt - 1].prices);
        var done, _, _ := DoStabilization(attempts[attempt - 1]);
        if done {
          return true;
        }
        attempt := attempt + 1;
      }
      return false;
    }

    /** The decision, the attempts and the two timers. */
    method Rebalance(s: Script) returns (ok: bool, ghost sold: Option<Sale>)
      requires engine.Valid() && NotBefore(engine.history, s.riskAt) && |s.attempts| == 3
      modifies this`lastRebalance, this`lastStabilize, this`currentPrice, this`twapPrice, this`landed, engine
      ensures engine.Valid()
      ensures engine.history == old(engine.history) + Asked(cfg, old(State()), s.shouldAt, s.riskAt)
      ensures sold == SaleMade(cfg, engine.cfg, old(engine.history), hasExecutor, old(State()), s)
      ensures ok == Completes(cfg, engine.cfg, old(engine.history), hasExecutor, old(State()), s)
      ensures lastRebalance == if ok then s.endAt else old(lastRebalance)
      ensures lastStabilize == if sold.Some? then sold.value.at else old(lastStabilize)
      ensures landed == old(landed) + SwapsMade(cfg, engine.cfg, old(engine.history), hasExecutor, old(State()), s)
    {
      sold := None;
      var should := ShouldRebalance(s.shouldAt, s.riskAt);
      if !should {
        return false, None;
      }
      UpdatePrices(s.stabilizePrices);
      if cfg.stabilizationEnabled {
        ok := ExecuteStabilization(s.stabilizeAt, s.attempts);
        sold := SaleDue(cfg, hasExecutor, |old(engine.history)|, old(State()), s);
        if !ok {
          return false, None;
        }
      }
      lastRebalance := s.endAt;
      return true, sold;
    }

    /** The same, keeping the books: the sale is recorded with the stretch of the
        engine's history its call wrote, and the sales stay in order. Up to three
        swaps land on chain, of which the sale is the only one reported. */
    method ExecuteRebalance(s: Script) returns (ok: bool, ghost sold: Option<Sale>)
      requires Valid() && WellTimed(s) && clock <= s.shouldAt
      modifies this`lastRebalance, this`lastStabilize, this`currentPrice, this`twapPrice, this`landed,
               this`sales, this`clock, engine
      ensures Valid() && clock == s.endAt && State().prices == s.endPrices
      ensures engine.history == old(engine.history) + Asked(cfg, old(State()), s.shouldAt, s.riskAt)
      ensures sold == SaleMade(cfg, engine.cfg, old(engine.history), hasExecutor, old(State()), s)
      ensures ok == Completes(cfg, engine.cfg, old(engine.history), hasExecutor, old(State()), s)
      ensures sales == old(sales) + Sold(sold)
      ensures sold.Some? ==>
                && sold.value.from == |old(engine.history)| && sold.value.to == |engine.history|
                && (Consulted(engine.history, sold.value) <==> Consults(cfg, old(State()), s.shouldAt))
      ensures lastRebalance == if ok then s.endAt else old(lastRebalance)
      ensures lastStabilize == if sold.Some? then sold.value.at else old(lastStabilize)
      ensures landed == old(landed) + SwapsMade(cfg, engine.cfg, old(engine.history), hasExecutor, old(State()), s)
      ensures |landed| <= |old(landed)| + 3
    {
      ghost var b, history, kept, chain := State(), engine.history, sales, landed;
      CheckExtendsClock(history, s.riskAt, Abs(currentPrice - cfg.refPrice), s.endAt);
      ok, sold := Rebalance(s);
      UpdatePrices(s.endPrices);
      sales := sales + Sold(sold);
      assert SalesOk(cfg, engine.cfg, engine.history, sales, lastRebalance, lastStabilize) by {
        BooksKept(cfg, engine.cfg, history, hasExecutor, b, s, kept, clock);
      }
      assert ChainOk(landed, sales) by { ChainKept(cfg, engine.cfg, history, hasExecutor, b, s, chain, kept); }
      clock := s.endAt;
      SoldInCall(cfg, engine.cfg, history, hasExecutor, b, s, sold, engine.history);
    }
  }

  /** The sale of a call carries the stretch of history the call wrote. */
  lemma SoldInCall(cfg: BotConfig, risk: RiskConfig, history: seq<Event>, hasExecutor: bool, b: BotState, s: Script,
                   sold: Option<Sale>, later: seq<Event>)
    requires sold == SaleMade(cfg, risk, history, hasExecutor, b, s)
    requires later == history + Asked(cfg, b, s.shouldAt, s.riskAt)
    ensures sold.Some? ==>
              && sold.value.from == |history| && sold.value.to == |later|
              && (Consulted(later, sold.value) <==> Consults(cfg, b, s.shouldAt))
  {
    if Consults(cfg, b, s.shouldAt) {
      assert later[|history|].Checked?;
    }
  }

  /** Whatever the outcome, the sales stay in order. */
  lemma BooksKept(cfg: BotConfig, risk: RiskConfig, history: seq<Event>, hasExecutor: bool, b: BotState, s: Script,
                  sales: seq<Sale>, clock: int)
    requires SalesOk(cfg, risk, history, sales, b.lastRebalance, b.lastStabilize) && WellTimed(s)
    requires b.lastRebalance <= clock <= s.shouldAt
    ensures var later, made := history + Asked(cfg, b, s.shouldAt, s.riskAt),
                               SaleMade(cfg, risk, history, hasExecutor, b, s);
            SalesOk(cfg, risk, later, sales + Sold(made),
                    if Completes(cfg, risk, history, hasExecutor, b, s) then s.endAt else b.lastRebalance,
                    if made.Some? then made.value.at else b.lastStabilize)
  {
    assert sales + [] == sales;
    AllExtend(cfg, risk, history, Asked(cfg, b, s.shouldAt, s.riskAt), sales);
    if SaleMade(cfg, risk, history, hasExecutor, b, s).Some? {
      SaleKeepsOk(cfg, risk, history, hasExecutor, b, s, sales);
    }
  }

  lemma CheckExtendsClock(history: seq<Event>, at: int, deviation: real, now: int)
    requires NotBefore(history, now) && at <= now
    ensures NotBefore(history + [Checked(at, deviation)], now) && NotBefore(history + [], now)
  {
    assert history + [] == history;
  }
}
