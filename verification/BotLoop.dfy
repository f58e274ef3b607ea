/** The bot's loops over prices, rebalances and alerts, one call at a time. */
module BotLoop {
  import opened Rounding
  import opened Options
  import opened RiskEngine
  import opened Sales
  import opened SwapSizing
  import opened Rebalancer
  import Allowance

  datatype BotEvent =
    | PricesRead(prices: Prices)
    | RebalanceDue(script: Script)
    | AlertsDue
    | StartRequested
    | StopRequested

  /** Each rebalance starts no earlier than the one before it ended. */
  ghost predicate Timeline(events: seq<BotEvent>, clock: int)
    decreases |events|
  {
    if events == [] then true
    else if events[0].RebalanceDue? then
      WellTimed(events[0].script) && clock <= events[0].script.shouldAt && Timeline(events[1..], events[0].script.endAt)
    else Timeline(events[1..], clock)
  }

  /** Every TWAP stored before or while an event is handled is 1. */
  ghost predicate ServesPeg(e: BotEvent) {
    match e
    case PricesRead(prices) => prices.twap == 1.0
    case RebalanceDue(s) =>
      s.stabilizePrices.twap == 1.0 && s.endPrices.twap == 1.0 && forall a | a in s.attempts :: a.prices.twap == 1.0
    case _ => true
  }

  /** The TWAP the client serves and the reference are both 1, and the rebalance
      threshold does not exceed the breaker's. */
  ghost predicate Pegged(cfg: BotConfig, risk: RiskConfig, events: seq<BotEvent>) {
    && cfg.refPrice == 1.0 && cfg.rebalanceThreshold <= risk.Threshold()
    && forall e | e in events :: ServesPeg(e)
  }

  /** The breaker has never been tripped. */
  ghost predicate Inert(risk: RiskConfig, b: BotState, history: seq<Event>) {
    b.prices.twap == 1.0 && forall e | e in history :: !Trips(risk, e)
  }

  lemma DeviationAtPeg(current: real)
    ensures Deviation(Prices(current, 1.0)) == Abs(current - 1.0)
  {
  }

  /** The check is only consulted on deviations too small to trip the breaker. */
  lemma ConsultingStaysInert(cfg: BotConfig, risk: RiskConfig, b: BotState, history: seq<Event>, now: int, at: int)
    requires cfg.refPrice == 1.0 && cfg.rebalanceThreshold <= risk.Threshold() && Inert(risk, b, history)
    ensures Inert(risk, b, history + Asked(cfg, b, now, at))
  {
    DeviationAtPeg(b.prices.current);
  }

  /** The bot with a current price p beside a TWAP of 1. */
  function AtPrice(b: BotState, p: real): BotState { b.(prices := Prices(p, 1.0)) }

  predicate TripsAt(cfg: BotConfig, risk: RiskConfig, b: BotState, now: int, price: real) {
    Consults(cfg, AtPrice(b, price), now) && risk.Threshold() < Abs(price - cfg.refPrice)
  }

  /** At the peg some price can trip the breaker exactly when the rebalance
      threshold exceeds the breaker's. */
  lemma PegTripsIff(cfg: BotConfig, risk: RiskConfig, b: BotState, now: int)
    requires cfg.refPrice == 1.0 && b.isRunning && cfg.Interval() <= now - b.lastRebalance
    ensures (exists price: real :: TripsAt(cfg, risk, b, now, price))
        <==> risk.Threshold() < cfg.rebalanceThreshold && 0.0 <= cfg.rebalanceThreshold
  {
    if price: real :| TripsAt(cfg, risk, b, now, price) {
      DeviationAtPeg(price);
    }
    if risk.Threshold() < cfg.rebalanceThreshold && 0.0 <= cfg.rebalanceThreshold {
      var price := 1.0 + cfg.rebalanceThreshold;
      DeviationAtPeg(price);
      assert TripsAt(cfg, risk, b, now, price);
    }
  }

  /** One tick of one loop. Without a trip so far, and under a pegged TWAP, none
      follows, and the alert does not stop the bot. With the flag up the alert does,
      and a stopped bot asks the engine nothing and sells nothing. */
  method Handle(r: Rebalancer, e: BotEvent)
    requires r.Valid()
    requires e.RebalanceDue? ==> WellTimed(e.script) && r.clock <= e.script.shouldAt
    modifies r, r.engine
    ensures r.Valid() && r.clock == if e.RebalanceDue? then e.script.endAt else old(r.clock)
    ensures old(r.sales) <= r.sales && old(r.landed) <= r.landed
    ensures Pegged(r.cfg, r.engine.cfg, [e]) && Inert(r.engine.cfg, old(r.State()), old(r.engine.history)) ==>
      && Inert(r.engine.cfg, r.State(), r.engine.history)
      && (old(r.isRunning) && !e.StopRequested? ==> r.isRunning)
    ensures !e.RebalanceDue? ==> r.Record() == old(r.Record())
    ensures match e
            case PricesRead(prices) => r.State() == old(r.State()).(prices := prices)
            case AlertsDue =>
              r.State() == old(r.State()).(isRunning := old(r.isRunning) && !old(r.engine.isCircuitBreaker))
            case StartRequested => r.State() == old(r.State()).(isRunning := true)
            case StopRequested => r.State() == old(r.State()).(isRunning := false)
            case RebalanceDue(s) =>
              && r.isRunning == old(r.isRunning) && r.State().prices == s.endPrices
              && r.engine.history == old(r.engine.history) + Asked(r.cfg, old(r.State()), s.shouldAt, s.riskAt)
              && r.sales == old(r.sales)
                   + Sold(SaleMade(r.cfg, r.engine.cfg, old(r.engine.history), r.hasExecutor, old(r.State()), s))
    ensures e.AlertsDue? && old(r.engine.isCircuitBreaker) ==> !r.isRunning
    ensures !old(r.isRunning) && !e.StartRequested? ==> !r.isRunning && r.Record() == old(r.Record())
  {
    match e {
      case PricesRead(prices) =>
        assert e in [e];
        r.UpdatePrices(prices);
      case RebalanceDue(script) =>
        assert e in [e];
        if Pegged(r.cfg, r.engine.cfg, [e]) && Inert(r.engine.cfg, r.State(), r.engine.history) {
          ConsultingStaysInert(r.cfg, r.engine.cfg, r.State(), r.engine.history, script.shouldAt, script.riskAt);
        }
        NothingAdded(r.engine.history, r.sales, r.landed);
        var _, _ := r.ExecuteRebalance(script);
      case AlertsDue =>
        FlagDown(r.engine);
        if r.engine.isCircuitBreaker {
          r.Stop();
        }
      case StartRequested =>
        r.Start();
      case StopRequested =>
        r.Stop();
    }
  }

  lemma NothingAdded(history: seq<Event>, sales: seq<Sale>, landed: seq<Landing>)
    ensures history + [] == history && sales + [] == sales && landed + [] == landed
  {
  }

  /** Any interleaving of the loops' calls keeps the books in order; under a pegged
      TWAP the breaker stays down and its alert never stops the bot. A stopped bot
      that nobody starts stays as it is, and its flag with it. */
  method Serve(r: Rebalancer, events: seq<BotEvent>)
    requires r.Valid() && Timeline(events, r.clock)
    modifies r, r.engine
    ensures r.Valid() && old(r.sales) <= r.sales && old(r.landed) <= r.landed
    ensures Pegged(r.cfg, r.engine.cfg, events) && Inert(r.engine.cfg, old(r.State()), old(r.engine.history)) ==>
      && Inert(r.engine.cfg, r.State(), r.engine.history)
      && !r.engine.isCircuitBreaker
      && (old(r.isRunning) && StopRequested !in events ==> r.isRunning)
    ensures !old(r.isRunning) && StartRequested !in events ==>
      !r.isRunning && r.Record() == old(r.Record()) && r.engine.isCircuitBreaker == old(r.engine.isCircuitBreaker)
  {
    ghost var pegged := Pegged(r.cfg, r.engine.cfg, events) && Inert(r.engine.cfg, r.State(), r.engine.history);
    var i := 0;
    while i < |events|
      invariant 0 <= i <= |events|
      invariant r.Valid() && Timeline(events[i..], r.clock)
      invariant old(r.sales) <= r.sales && old(r.landed) <= r.landed
      invariant pegged ==> Inert(r.engine.cfg, r.State(), r.engine.history)
      invariant pegged && old(r.isRunning) && StopRequested !in events ==> r.isRunning
      invariant !old(r.isRunning) && StartRequested !in events ==> !r.isRunning && r.Record() == old(r.Record())
    {
      assert events[i] in events && events[i..][1..] == events[i + 1..];
      Handle(r, events[i]);
      i := i + 1;
    }
    FlagDown(r.engine);
  }

  /** A breaker that trips while the bot runs stops it at the next alert, and then
      never comes down by itself: only a check resets it, and a stopped bot makes none.
      The call that trips it is one at the peg, within the rebalance threshold. */
  method TripForGood(cfg: BotConfig, risk: RiskConfig, now: int, events: seq<BotEvent>) returns (r: Rebalancer)
    requires cfg.refPrice == 1.0 && 0.0 <= cfg.rebalanceThreshold && risk.Threshold() < cfg.rebalanceThreshold
    requires Timeline(events, now + Max(0, cfg.Gap())) && StartRequested !in events
    ensures fresh(r) && r.Valid() && r.cfg == cfg && r.engine.cfg == risk
    ensures !r.isRunning && r.engine.isCircuitBreaker && r.sales == [] && r.landed == []
  {
    r := TrippedBot(cfg, risk, now);
    Handle(r, AlertsDue);
    Serve(r, events);
  }

  method TrippedBot(cfg: BotConfig, risk: RiskConfig, now: int) returns (r: Rebalancer)
    requires cfg.refPrice == 1.0 && 0.0 <= cfg.rebalanceThreshold && risk.Threshold() < cfg.rebalanceThreshold
    ensures fresh(r) && fresh(r.engine) && r.Valid() && r.cfg == cfg && r.engine.cfg == risk
    ensures r.engine.isCircuitBreaker && r.sales == [] && r.landed == [] && r.clock == now + Max(0, cfg.Gap())
  {
    var price := 1.0 + cfg.rebalanceThreshold;
    r := StartedBot(cfg, risk, now, price);
    OpeningCallTrips(cfg, risk, now);
    var _, _ := r.ExecuteRebalance(OpeningCall(cfg, now, price, Allowance.NotSent));
    FlagUp(r.engine, 0);
  }

  lemma OpeningCallTrips(cfg: BotConfig, risk: RiskConfig, now: int)
    requires cfg.refPrice == 1.0 && 0.0 <= cfg.rebalanceThreshold && risk.Threshold() < cfg.rebalanceThreshold
    ensures var b := BotState(Prices(1.0 + cfg.rebalanceThreshold, 1.0), now, now, true);
            var s := OpeningCall(cfg, now, 1.0 + cfg.rebalanceThreshold, Allowance.NotSent);
            && Asked(cfg, b, s.shouldAt, s.riskAt) == [Checked(s.riskAt, cfg.rebalanceThreshold)]
            && Trips(risk, Checked(s.riskAt, cfg.rebalanceThreshold))
            && !MayRebalance(cfg, risk, [], b, s.shouldAt, s.riskAt)
  {
    DeviationAtPeg(1.0 + cfg.rebalanceThreshold);
  }

  lemma FlagUp(e: Engine, i: nat)
    requires e.Valid() && i == |e.history| - 1 && Trips(e.cfg, e.history[i])
    ensures e.isCircuitBreaker
  {
    assert Standing(e.cfg, e.history, i);
  }

  /** A new bot, started and served one price beside a TWAP of 1. */
  method StartedBot(cfg: BotConfig, risk: RiskConfig, now: int, price: real) returns (r: Rebalancer)
    ensures fresh(r) && fresh(r.engine) && r.Valid() && r.cfg == cfg && r.engine.cfg == risk && r.hasExecutor
    ensures r.clock == now && r.State() == BotState(Prices(price, 1.0), now, now, true)
    ensures r.engine.history == [] && r.sales == [] && r.landed == []
  {
    var engine := new Engine(risk);
    r := new Rebalancer(cfg, engine, true, now);
    r.Start();
    r.UpdatePrices(Prices(price, 1.0));
  }

  /** Its first due call, with that price all along, funds, and swaps that all end alike. */
  function OpeningCall(cfg: BotConfig, now: int, price: real, tx: Allowance.TxReply): Script {
    var due, prices := now + Max(0, cfg.Gap()), Prices(price, 1.0);
    var a := Attempt(prices, Some(FUNDS), Some(FUNDS), tx, due);
    Script(due, due, due, prices, [a, a, a], due, prices)
  }

  /** An engine that never saw a trip has its flag down. */
  lemma FlagDown(e: Engine)
    requires e.Valid()
    ensures (forall x | x in e.history :: !Trips(e.cfg, x)) ==> !e.isCircuitBreaker
  {
    if forall x | x in e.history :: !Trips(e.cfg, x) {
      NoTripNotRaised(e.cfg, e.history);
    }
  }

  /** In every reachable state, a window of length w holds at most 1 + w / gap
      reported swaps, and sells at most that many times the largest one. */
  lemma SalesBudget(r: Rebalancer, from: int, w: nat)
    requires r.Valid() && 0 < r.cfg.Gap()
    ensures CountIn(r.sales, from, from + w) <= 1 + w / r.cfg.Gap()
    ensures 0.0 <= r.cfg.size.maxSwapAmount ==>
      SoldIn(r.sales, from, from + w) <= (1 + w / r.cfg.Gap()) * (r.cfg.size.maxSwapAmount * UNIT).Floor
  {
    SalesPerWindow(r.sales, r.cfg.Gap(), from, w);
    if 0.0 <= r.cfg.size.maxSwapAmount {
      SoldPerWindow(r.sales, r.cfg.Gap(), (r.cfg.size.maxSwapAmount * UNIT).Floor, from, w);
    }
  }

  /** Reported sales are both waits apart, in seconds of a billion nanoseconds. */
  lemma SalesApart(r: Rebalancer, i: nat)
    requires r.Valid() && 0 < i < |r.sales|
    ensures 1_000_000_000 * Max(r.cfg.rebalanceIntervalSec, r.cfg.cooldownSec) <= r.sales[i].at - r.sales[i - 1].at
  {
  }

  lemma TruncMonotone(x: real, y: real)
    requires x <= y
    ensures Trunc(x) <= Trunc(y)
  {
    if x < 0.0 && 0.0 <= y {
      assert 0 <= (-x).Floor;
    }
  }

  /** No larger deviation at the peg passes both the rebalance threshold and the check. */
  function PegLimit(cfg: BotConfig, risk: RiskConfig): real {
    MinReal(cfg.rebalanceThreshold, risk.Threshold())
  }

  lemma ReachesMonotone(cfg: BotConfig, x: real, y: real)
    requires x <= y && DeviationReaches(cfg, x)
    ensures DeviationReaches(cfg, y)
  {
    TruncMonotone(x * 10000.0, y * 10000.0);
  }

  /** In every reachable state: a sale whose call ran a risk check, with one price
      for both decisions, needs a stabilization threshold that deviations up to the
      rebalance threshold reach, and at the peg deviations up to the breaker's too. */
  lemma SalesBypassRisk(r: Rebalancer, s: Sale)
    requires r.Valid() && s in r.sales && Consulted(r.engine.history, s) && s.stabilized == s.decided
    ensures DeviationReaches(r.cfg, r.cfg.rebalanceThreshold)
    ensures r.cfg.refPrice == 1.0 && s.decided.twap == 1.0 ==> DeviationReaches(r.cfg, PegLimit(r.cfg, r.engine.cfg))
  {
    ConsultedIffSmall(r.cfg, r.engine.cfg, r.engine.history, s);
    ReachesMonotone(r.cfg, Deviation(s.stabilized), r.cfg.rebalanceThreshold);
    if r.cfg.refPrice == 1.0 && s.decided.twap == 1.0 {
      DeviationAtPeg(s.decided.current);
      ReachesMonotone(r.cfg, Deviation(s.stabilized), PegLimit(r.cfg, r.engine.cfg));
    }
  }

  /** This call consults the engine, may rebalance, and sells. */
  ghost predicate ConsultedSale(cfg: BotConfig, risk: RiskConfig, history: seq<Event>, hasExecutor: bool,
                                b: BotState, s: Script) {
    && WellTimed(s) && Consults(cfg, b, s.shouldAt)
    && MayRebalance(cfg, risk, history, b, s.shouldAt, s.riskAt)
    && SaleDue(cfg, hasExecutor, |history|, b, s).Some?
  }

  /** The clamps leave at least one base unit of a large enough balance. */
  predicate CanSell(size: SizeConfig) {
    1.0 <= size.maxSwapAmount * UNIT && (0 < size.swapAmountBps || 1.0 <= size.minSwapAmount * UNIT)
  }

  const FUNDS: nat := 10000

  lemma CanSellIff(size: SizeConfig)
    ensures CanSell(size) ==> 0 < AmountIn(size, FUNDS)
    ensures forall balance: nat :: 0 < AmountIn(size, balance) ==> CanSell(size)
  {
    NothingToSell(size, FUNDS);
    forall balance: nat | 0 < AmountIn(size, balance)
      ensures CanSell(size)
    {
      NothingToSell(size, balance);
      SellingNeeds(size, balance);
    }
  }

  lemma SellingNeeds(size: SizeConfig, balance: nat)
    requires 1.0 <= Clamped(size, balance) * UNIT
    ensures CanSell(size)
  {
    if size.swapAmountBps <= 0 {
      var available := balance as real / UNIT;
      assert available * size.swapAmountBps as real <= 0.0;
    }
  }

  /** Everything a consulted sale needs besides the price: a running bot past both
      waits, an executor with enough to sell, no recent trip and no excessive loss. */
  ghost predicate SaleOpen(cfg: BotConfig, risk: RiskConfig, history: seq<Event>, hasExecutor: bool,
                           b: BotState, s: Script) {
    && b.isRunning && cfg.Interval() <= s.shouldAt - b.lastRebalance
    && cfg.stabilizationEnabled && hasExecutor && cfg.Cooldown() <= s.stabilizeAt - b.lastStabilize
    && CanSell(cfg.size)
    && !RecentTrip(risk, history, s.riskAt) && Losses(history) <= risk.MaxDailyLoss()
  }

  /** The call with its prices, balances and swap results replaced. */
  function Priced(s: Script, p: Prices, attempts: seq<Attempt>): Script {
    s.(stabilizePrices := p, attempts := attempts)
  }

  /** Some price p at the decision and q at the stabilization check, and some answers
      of the network, make this call sell after a passing check. */
  ghost predicate CanSellConsulted(cfg: BotConfig, risk: RiskConfig, history: seq<Event>, hasExecutor: bool,
                                   b: BotState, s: Script, p: real, q: real) {
    exists attempts ::
      ConsultedSale(cfg, risk, history, hasExecutor, AtPrice(b, p), Priced(s, Prices(q, 1.0), attempts))
  }

  /** Three attempts with both balances funded, of which the first succeeds. */
  function Funded(s: Script, p: Prices): seq<Attempt>
    requires |s.attempts| == 3
  {
    seq(3, i requires 0 <= i < 3 => Attempt(p, Some(FUNDS), Some(FUNDS), Allowance.Done(true), s.attempts[i].doneAt))
  }

  /** At the peg, a decision at p and a stabilization check at q. */
  lemma ConsultedSaleAt(cfg: BotConfig, risk: RiskConfig, history: seq<Event>, hasExecutor: bool, b: BotState,
                        s: Script, p: real, q: real)
    requires cfg.refPrice == 1.0 && WellTimed(s)
    ensures CanSellConsulted(cfg, risk, history, hasExecutor, b, s, p, q)
       <==> && SaleOpen(cfg, risk, history, hasExecutor, b, s)
            && Abs(p - 1.0) <= PegLimit(cfg, risk)
            && DeviationReaches(cfg, Abs(q - 1.0))
  {
    DeviationAtPeg(p);
    DeviationAtPeg(q);
    CanSellIff(cfg.size);
    if CanSellConsulted(cfg, risk, history, hasExecutor, b, s, p, q) {
      var attempts :|
        ConsultedSale(cfg, risk, history, hasExecutor, AtPrice(b, p), Priced(s, Prices(q, 1.0), attempts));
      var first := FirstSuccess(cfg, attempts, 0);
      assert Offer(cfg, attempts[first.value]).Some?;
    }
    if SaleOpen(cfg, risk, history, hasExecutor, b, s) && Abs(p - 1.0) <= PegLimit(cfg, risk)
       && DeviationReaches(cfg, Abs(q - 1.0)) {
      var attempts := Funded(s, Prices(q, 1.0));
      assert Succeeds(cfg, attempts[0]);
      assert ConsultedSale(cfg, risk, history, hasExecutor, AtPrice(b, p), Priced(s, Prices(q, 1.0), attempts));
    }
  }

  /** From any state and history, then, the next call can sell after a check exactly
      when it is open and the stabilization threshold is reached by the peg limit;
      should the price move between the two decisions, the threshold is no bar. */
  lemma ConsultedSaleIff(cfg: BotConfig, risk: RiskConfig, history: seq<Event>, hasExecutor: bool,
                         b: BotState, s: Script)
    requires cfg.refPrice == 1.0 && WellTimed(s)
    ensures (exists p: real :: CanSellConsulted(cfg, risk, history, hasExecutor, b, s, p, p))
       <==> && SaleOpen(cfg, risk, history, hasExecutor, b, s)
            && 0.0 <= PegLimit(cfg, risk) && DeviationReaches(cfg, PegLimit(cfg, risk))
    ensures (exists p: real, q: real :: CanSellConsulted(cfg, risk, history, hasExecutor, b, s, p, q))
       <==> SaleOpen(cfg, risk, history, hasExecutor, b, s) && 0.0 <= PegLimit(cfg, risk)
  {
    var limit := PegLimit(cfg, risk);
    var far := 1.0 + MaxReal(0.0, cfg.deviationBps as real / 10000.0);
    ConsultedSaleAt(cfg, risk, history, hasExecutor, b, s, 1.0 + limit, 1.0 + limit);
    ConsultedSaleAt(cfg, risk, history, hasExecutor, b, s, 1.0, far);
    assert DeviationReaches(cfg, far - 1.0);
    if p: real :| CanSellConsulted(cfg, risk, history, hasExecutor, b, s, p, p) {
      ConsultedSaleAt(cfg, risk, history, hasExecutor, b, s, p, p);
      ReachesMonotone(cfg, Abs(p - 1.0), limit);
    }
    if p: real, q: real :| CanSellConsulted(cfg, risk, history, hasExecutor, b, s, p, q) {
      ConsultedSaleAt(cfg, risk, history, hasExecutor, b, s, p, q);
    }
  }

  lemma OpeningCallSells(cfg: BotConfig, now: int, price: real)
    requires cfg.stabilizationEnabled && CanSell(cfg.size) && DeviationReaches(cfg, Abs(price - 1.0))
    ensures var s := OpeningCall(cfg, now, price, Allowance.Done(true));
            WellTimed(s) && SaleDue(cfg, true, 0, BotState(Prices(price, 1.0), now, now, true), s).Some?
  {
    CanSellIff(cfg.size);
    DeviationAtPeg(price);
    assert Succeeds(cfg, OpeningCall(cfg, now, price, Allowance.Done(true)).attempts[0]);
  }

  /** A real run that gets there: a new bot, started, served one price at the peg
      limit, sells in its first due call after a passing check. */
  method FirstConsultedSale(cfg: BotConfig, risk: RiskConfig, now: int) returns (r: Rebalancer, ghost sale: Sale)
    requires cfg.refPrice == 1.0 && cfg.stabilizationEnabled && CanSell(cfg.size) && 0.0 <= risk.MaxDailyLoss()
    requires 0.0 <= PegLimit(cfg, risk) && DeviationReaches(cfg, PegLimit(cfg, risk))
    ensures fresh(r) && r.Valid() && r.cfg == cfg && r.engine.cfg == risk
    ensures r.sales == [sale] && sale in r.sales
    ensures Consulted(r.engine.history, sale) && sale.stabilized == sale.decided
  {
    var price := 1.0 + PegLimit(cfg, risk);
    r := StartedBot(cfg, risk, now, price);
    OpeningCallConsults(cfg, risk, now);
    OpeningCallSells(cfg, now, price);
    var _, sold := r.ExecuteRebalance(OpeningCall(cfg, now, price, Allowance.Done(true)));
    sale := sold.value;
  }

  lemma OpeningCallConsults(cfg: BotConfig, risk: RiskConfig, now: int)
    requires cfg.refPrice == 1.0 && 0.0 <= PegLimit(cfg, risk) && 0.0 <= risk.MaxDailyLoss()
    ensures var b := BotState(Prices(1.0 + PegLimit(cfg, risk), 1.0), now, now, true);
            var s := OpeningCall(cfg, now, 1.0 + PegLimit(cfg, risk), Allowance.Done(true));
            && Consults(cfg, b, s.shouldAt) && MayRebalance(cfg, risk, [], b, s.shouldAt, s.riskAt)
            && Abs(b.prices.current - 1.0) == PegLimit(cfg, risk)
  {
    DeviationAtPeg(1.0 + PegLimit(cfg, risk));
  }

  /** And one that sells without any check: any price beyond the rebalance threshold
      that the stabilization threshold lets through. */
  method FirstUncheckedSale(cfg: BotConfig, risk: RiskConfig, now: int, price: real)
    returns (r: Rebalancer, ghost sale: Sale)
    requires cfg.stabilizationEnabled && CanSell(cfg.size)
    requires cfg.rebalanceThreshold < Abs(price - 1.0) && DeviationReaches(cfg, Abs(price - 1.0))
    ensures fresh(r) && r.Valid() && r.cfg == cfg && r.engine.cfg == risk
    ensures r.sales == [sale] && sale in r.sales && sale.decided == sale.stabilized == Prices(price, 1.0)
    ensures r.engine.history == [] && !Consulted(r.engine.history, sale) && sale.at == now + Max(0, cfg.Gap())
  {
    r := StartedBot(cfg, risk, now, price);
    DeviationAtPeg(price);
    OpeningCallSells(cfg, now, price);
    var _, sold := r.ExecuteRebalance(OpeningCall(cfg, now, price, Allowance.Done(true)));
    sale := sold.value;
  }

  /** With every receipt lost, one call sells three times at one moment, however long
      the waits are, and the bot neither knows nor waits afterwards. */
  method SalesInTheDark(cfg: BotConfig, risk: RiskConfig, now: int, price: real) returns (r: Rebalancer)
    requires cfg.stabilizationEnabled && CanSell(cfg.size)
    requires cfg.rebalanceThreshold < Abs(price - 1.0) && DeviationReaches(cfg, Abs(price - 1.0))
    ensures fresh(r) && r.Valid() && r.cfg == cfg && r.engine.cfg == risk
    ensures r.sales == [] && r.lastRebalance == r.lastStabilize == now
    ensures |r.landed| == 3 && r.landed[0].at == r.landed[1].at == r.landed[2].at
    ensures 0 < cfg.Gap() ==> !LandingsSpaced(r.landed, cfg.Gap())
  {
    r := StartedBot(cfg, risk, now, price);
    DeviationAtPeg(price);
    CanSellIff(cfg.size);
    var opening := OpeningCall(cfg, now, price, Allowance.Lost(true));
    ThreeLandings(cfg, opening.attempts);
    var _, _ := r.ExecuteRebalance(opening);
    assert 0 < 1 < |r.landed|;
  }

  lemma ThreeLandings(cfg: BotConfig, attempts: seq<Attempt>)
    requires |attempts| == 3
    requires forall a | a in attempts :: Offer(cfg, a).Some? && a.tx == Allowance.Lost(true)
    ensures FirstSuccess(cfg, attempts, 0).None? && |Landings(cfg, attempts, 0)| == 3
    ensures forall i | 0 <= i < 3 :: Landings(cfg, attempts, 0)[i].at == attempts[i].doneAt
  {
    assert Landings(cfg, attempts, 3) == [];
    assert Landings(cfg, attempts, 2) == LandingOf(cfg, attempts[2]);
    assert Landings(cfg, attempts, 1) == LandingOf(cfg, attempts[1]) + LandingOf(cfg, attempts[2]);
  }

  /** In every reachable state the swaps on chain are the recorded sales, and so as
      far apart, exactly when no report was lost. */
  lemma ChainBudget(r: Rebalancer)
    requires r.Valid()
    ensures r.landed == AsLandings(r.sales) <==> forall l | l in r.landed :: l.reported
    ensures (forall l | l in r.landed :: l.reported) ==> LandingsSpaced(r.landed, r.cfg.Gap())
  {
    ChainAgreesIff(r.landed, r.sales, r.cfg.Gap());
  }

  /** The shipped settings are no such case: 20 basis points do not reach 30. */
  lemma ShippedSettingsBypass(cfg: BotConfig, risk: RiskConfig)
    requires cfg.rebalanceThreshold == 0.002 && cfg.deviationBps == 30
    ensures !DeviationReaches(cfg, cfg.rebalanceThreshold) && !DeviationReaches(cfg, PegLimit(cfg, risk))
  {
    assert Trunc(20.0) == 20;
    if DeviationReaches(cfg, PegLimit(cfg, risk)) {
      ReachesMonotone(cfg, PegLimit(cfg, risk), cfg.rebalanceThreshold);
    }
  }

  /** With the shipped settings every sale at the peg reacts to a deviation of at
      least the breaker's threshold; strictly above it the risk engine, had it been
      asked about that price, would have refused with its severest report. */
  lemma ShippedSalesWouldBeRefused(r: Rebalancer, s: Sale, now: int)
    requires r.Valid() && s in r.sales && s.stabilized.twap == 1.0
    requires r.cfg.deviationBps == 30 && r.cfg.refPrice == 1.0 && r.engine.cfg.circuitBreakerDeviationBps == 30
    ensures var deviation := Abs(s.stabilized.current - r.cfg.refPrice);
            && 0.003 <= deviation
            && (0.003 < deviation ==> Verdict(r.engine.cfg, r.engine.history, now, deviation, 0.0) == DeviationTooHigh)
  {
    DeviationAtPeg(s.stabilized.current);
  }

  /** The bot and risk settings as shipped. */
  const SHIPPED: BotConfig := BotConfig(60, 0.002, 1.0, true, 30, 60, SizeConfig(10, 100.0, 10000.0, 30))

  const SHIPPED_RISK: RiskConfig := RiskConfig(30, 15, 50)

  /** Such a sale is one the shipped bot makes: at price 1.004 it sells with an empty
      risk history, where a check would have refused with its severest report. */
  method ShippedUncheckedSale(now: int) returns (r: Rebalancer, ghost sale: Sale)
    ensures fresh(r) && r.Valid() && r.cfg == SHIPPED && r.engine.cfg == SHIPPED_RISK
    ensures r.sales == [sale] && sale in r.sales && r.engine.history == [] && !Consulted(r.engine.history, sale)
    ensures sale.at == now + 60_000_000_000
    ensures Verdict(SHIPPED_RISK, [], sale.at, Abs(sale.decided.current - SHIPPED.refPrice), 0.0) == DeviationTooHigh
  {
    assert Trunc(40.0) == 40;
    r, sale := FirstUncheckedSale(SHIPPED, SHIPPED_RISK, now, 1.004);
  }
}
