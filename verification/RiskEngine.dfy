/** The risk engine: a constant-size state that stands for its whole history. */
module RiskEngine {
  import opened Options

  datatype RiskConfig = RiskConfig(
    circuitBreakerDeviationBps: int, circuitBreakerDurationMin: int, maxDailyLossBps: int)
  {
    function Threshold(): real { circuitBreakerDeviationBps as real / 10000.0 }

    function MaxDailyLoss(): real { maxDailyLossBps as real / 10000.0 }

    /** In nanoseconds, as time.Duration counts. */
    function Duration(): int { circuitBreakerDurationMin * 60_000_000_000 }
  }

  datatype Reason = DeviationTooHigh | BreakerActive | DailyLossTooHigh | TwapTooFar | Passed

  datatype Severity = Low | Medium | High | Critical

  datatype RiskCheck = RiskCheck(
    allowed: bool, reason: Reason, severity: Severity, shouldStop: bool, shouldWithdraw: bool)

  function Report(reason: Reason): RiskCheck {
    match reason
    case DeviationTooHigh => RiskCheck(false, reason, Critical, true, true)
    case BreakerActive => RiskCheck(false, reason, High, true, true)
    case DailyLossTooHigh => RiskCheck(false, reason, High, true, false)
    case TwapTooFar => RiskCheck(false, reason, Medium, false, false)
    case Passed => RiskCheck(true, reason, Low, false, false)
  }

  function Abs(x: real): real { if x < 0.0 then -x else x }

  datatype Event =
    | Checked(at: int, deviation: real)
    | LossRecorded(amount: real)
    | TradeRecorded(success: bool)
    | DailyReset

  // ----- what the full history says

  predicate Trips(cfg: RiskConfig, e: Event) {
    e.Checked? && cfg.Threshold() < e.deviation
  }

  /** Some earlier check less than the breaker's duration ago exceeded the threshold. */
  ghost predicate RecentTrip(cfg: RiskConfig, history: seq<Event>, now: int) {
    exists i :: 0 <= i < |history| && Trips(cfg, history[i]) && now - history[i].at < cfg.Duration()
  }

  /** Losses since the last daily reset. */
  ghost function Losses(history: seq<Event>): real {
    if history == [] then 0.0
    else
      var e, before := history[|history| - 1], history[..|history| - 1];
      if e.DailyReset? then 0.0 else if e.LossRecorded? then Losses(before) + e.amount else Losses(before)
  }

  /** Trades since the last daily reset, all of them or only the failed ones. */
  ghost function Trades(history: seq<Event>, failedOnly: bool): nat {
    if history == [] then 0
    else
      var e, before := history[|history| - 1], history[..|history| - 1];
      if e.DailyReset? then 0
      else if e.TradeRecorded? && !(failedOnly && e.success) then Trades(before, failedOnly) + 1
      else Trades(before, failedOnly)
  }

  /** The verdict on a check at `now`, read off the whole history. */
  ghost function Verdict(cfg: RiskConfig, history: seq<Event>, now: int, deviation: real, twapDeviation: real): Reason {
    if cfg.Threshold() < deviation then DeviationTooHigh
    else if RecentTrip(cfg, history, now) then BreakerActive
    else if cfg.MaxDailyLoss() < Losses(history) then DailyLossTooHigh
    else if cfg.Threshold() / 2.0 < twapDeviation then TwapTooFar
    else Passed
  }

  // ----- the verdict in numbers

  /** Some earlier check exceeded the threshold less than the breaker's minutes ago. */
  ghost predicate TrippedWithin(cfg: RiskConfig, history: seq<Event>, now: int) {
    exists i :: 0 <= i < |history| && history[i].Checked?
      && cfg.circuitBreakerDeviationBps as real < history[i].deviation * 10000.0
      && now < history[i].at + cfg.circuitBreakerDurationMin * 60 * 1_000_000_000
  }

  lemma TrippedWithinIff(cfg: RiskConfig, history: seq<Event>, now: int)
    ensures RecentTrip(cfg, history, now) <==> TrippedWithin(cfg, history, now)
  {
    forall i | 0 <= i < |history| && history[i].Checked?
      ensures Trips(cfg, history[i]) <==> cfg.circuitBreakerDeviationBps as real < history[i].deviation * 10000.0
    {
    }
    if RecentTrip(cfg, history, now) {
      var i :| 0 <= i < |history| && Trips(cfg, history[i]) && now - history[i].at < cfg.Duration();
      assert history[i].Checked?;
    }
    if TrippedWithin(cfg, history, now) {
      var i :| 0 <= i < |history| && history[i].Checked?
        && cfg.circuitBreakerDeviationBps as real < history[i].deviation * 10000.0
        && now < history[i].at + cfg.circuitBreakerDurationMin * 60 * 1_000_000_000;
      assert Trips(cfg, history[i]);
    }
  }

  /** The whole report in basis points, minutes and nanoseconds: a check passes when
      the spot price is within the threshold, no trip is recent, losses are within
      their limit and the TWAP is within half the threshold; what fails first decides
      how severe the report is and what it asks for. */
  lemma ReportInNumbers(cfg: RiskConfig, history: seq<Event>, now: int, deviation: real, twapDeviation: real)
    ensures var r := Report(Verdict(cfg, history, now, deviation, twapDeviation));
            var far := cfg.circuitBreakerDeviationBps as real < deviation * 10000.0;
            var recent := TrippedWithin(cfg, history, now);
            var losing := cfg.maxDailyLossBps as real < Losses(history) * 10000.0;
            var twapFar := cfg.circuitBreakerDeviationBps as real < twapDeviation * 20000.0;
            && r.reason == Verdict(cfg, history, now, deviation, twapDeviation)
            && (r.allowed <==> !far && !recent && !losing && !twapFar)
            && (r.shouldStop <==> far || recent || losing)
            && (r.shouldWithdraw <==> far || recent)
            && (r.severity == Critical <==> far)
            && (r.severity == High <==> !far && (recent || losing))
            && (r.severity == Medium <==> !far && !recent && !losing && twapFar)
  {
    TrippedWithinIff(cfg, history, now);
  }

  /** After a trip at t and none later, a breaker of 15 minutes refuses every check
      within the threshold for 900 seconds, to the nanosecond, and then no more. */
  lemma FifteenMinutes(cfg: RiskConfig, history: seq<Event>, i: nat, now: int, deviation: real, twapDeviation: real)
    requires cfg.circuitBreakerDurationMin == 15 && deviation <= cfg.Threshold()
    requires i < |history| && Trips(cfg, history[i])
    requires forall j | 0 <= j < |history| && Trips(cfg, history[j]) :: history[j].at <= history[i].at
    ensures Verdict(cfg, history, now, deviation, twapDeviation) == BreakerActive
       <==> now < history[i].at + 900_000_000_000
  {
    if now < history[i].at + 900_000_000_000 {
      assert now - history[i].at < cfg.Duration();
    }
  }

  /** Losses and trades are counted from the last daily reset on. */
  lemma {:induction false} ResetForgets(before: seq<Event>, after: seq<Event>, failedOnly: bool)
    ensures Losses(before + [DailyReset] + after) == Losses(after)
    ensures Trades(before + [DailyReset] + after, failedOnly) == Trades(after, failedOnly)
  {
    var h := before + [DailyReset] + after;
    if after == [] {
      assert h[|h| - 1] == DailyReset;
    } else {
      ResetForgets(before, after[..|after| - 1], failedOnly);
      assert h[..|h| - 1] == before + [DailyReset] + after[..|after| - 1];
    }
  }

  /** A loss adds to the losses, a trade to the trades, a failed one to those that
      failed, and nothing else does. */
  lemma RecordCounts(h: seq<Event>, e: Event)
    requires e != DailyReset
    ensures Losses([]) == 0.0 && Trades([], true) == Trades([], false) == 0
    ensures Losses(h + [e]) == Losses(h) + (if e.LossRecorded? then e.amount else 0.0)
    ensures Trades(h + [e], false) == Trades(h, false) + (if e.TradeRecorded? then 1 else 0)
    ensures Trades(h + [e], true) == Trades(h, true) + (if e == TradeRecorded(false) then 1 else 0)
  {
    assert (h + [e])[..|h|] == h;
  }

  // ----- what the engine remembers of it

  ghost function LastCheck(history: seq<Event>): Option<int> {
    if history == [] then None
    else
      var e := history[|history| - 1];
      if e.Checked? then Some(e.at) else LastCheck(history[..|history| - 1])
  }

  ghost function LastTrip(cfg: RiskConfig, history: seq<Event>): Option<int> {
    if history == [] then None
    else
      var e := history[|history| - 1];
      if Trips(cfg, e) then Some(e.at) else LastTrip(cfg, history[..|history| - 1])
  }

  /** Checks happen at non-decreasing times. */
  ghost predicate Ordered(history: seq<Event>) {
    forall i, j :: 0 <= i < j < |history| && history[i].Checked? && history[j].Checked? ==>
      history[i].at <= history[j].at
  }

  ghost predicate NotBefore(history: seq<Event>, now: int) {
    LastCheck(history).Some? ==> LastCheck(history).value <= now
  }

  /** The last check is the latest one. */
  lemma {:induction false} LastCheckIsLatest(history: seq<Event>, i: nat)
    requires Ordered(history) && i < |history| && history[i].Checked?
    ensures LastCheck(history).Some? && history[i].at <= LastCheck(history).value
  {
    var last := |history| - 1;
    if history[last].Checked? {
    } else {
      assert Ordered(history[..last]);
      LastCheckIsLatest(history[..last], i);
    }
  }

  /** Among all trips only the last one matters: its time alone decides whether
      any trip is recent. */
  lemma {:induction false} LastTripDecides(cfg: RiskConfig, history: seq<Event>, now: int)
    requires Ordered(history)
    ensures RecentTrip(cfg, history, now) <==> RunsAt(cfg, history, now)
  {
    if history == [] {
    } else {
      var last := |history| - 1;
      var before := history[..last];
      assert Ordered(before);
      LastTripDecides(cfg, before, now);
      if Trips(cfg, history[last]) {
        if i :| 0 <= i < |history| && Trips(cfg, history[i]) && now - history[i].at < cfg.Duration() {
          assert history[i].at <= history[last].at;
        }
      } else {
        if RecentTrip(cfg, history, now) {
          var i :| 0 <= i < |history| && Trips(cfg, history[i]) && now - history[i].at < cfg.Duration();
          assert before[i] == history[i];
        }
        if RecentTrip(cfg, before, now) {
          var i :| 0 <= i < |before| && Trips(cfg, before[i]) && now - before[i].at < cfg.Duration();
          assert before[i] == history[i];
        }
      }
    }
  }

  /** Some trip has not yet been followed by a calm check at least the breaker's
      duration after it. */
  ghost predicate Raised(cfg: RiskConfig, history: seq<Event>) {
    exists i :: 0 <= i < |history| && Trips(cfg, history[i]) && Standing(cfg, history, i)
  }

  ghost predicate Standing(cfg: RiskConfig, history: seq<Event>, i: nat)
    requires i < |history| && history[i].Checked?
  {
    forall j :: i < j < |history| && history[j].Checked? && !Trips(cfg, history[j]) ==>
      history[j].at - history[i].at < cfg.Duration()
  }

  lemma {:induction false} LastTripIndex(cfg: RiskConfig, history: seq<Event>) returns (k: nat)
    requires LastTrip(cfg, history).Some?
    ensures k < |history| && Trips(cfg, history[k]) && history[k].at == LastTrip(cfg, history).value
    ensures forall i | k < i < |history| :: !Trips(cfg, history[i])
  {
    k := |history| - 1;
    if Trips(cfg, history[k]) {
    } else {
      k := LastTripIndex(cfg, history[..k]);
    }
  }

  lemma {:induction false} TripHasLast(cfg: RiskConfig, history: seq<Event>, i: nat)
    requires i < |history| && Trips(cfg, history[i])
    ensures LastTrip(cfg, history).Some?
  {
    var last := |history| - 1;
    if Trips(cfg, history[last]) {
    } else {
      TripHasLast(cfg, history[..last], i);
    }
  }

  /** The flag says whether a trip still stands, and the start is the last trip. */
  ghost predicate BreakerRefines(cfg: RiskConfig, history: seq<Event>, active: bool, start: int) {
    && (active <==> Raised(cfg, history))
    && (active ==> LastTrip(cfg, history) == Some(start))
  }

  /** So the constant-size state answers like the full history. */
  lemma BreakerAnswers(cfg: RiskConfig, history: seq<Event>, active: bool, start: int, now: int)
    requires Ordered(history) && NotBefore(history, now) && BreakerRefines(cfg, history, active, start)
    ensures RecentTrip(cfg, history, now) <==> active && now - start < cfg.Duration()
  {
    LastTripDecides(cfg, history, now);
    if RecentTrip(cfg, history, now) {
      var i :| 0 <= i < |history| && Trips(cfg, history[i]) && now - history[i].at < cfg.Duration();
      forall j | i < j < |history| && history[j].Checked?
        ensures history[j].at <= now
      {
        LastCheckIsLatest(history, j);
      }
      assert Standing(cfg, history, i);
    }
  }

  /** The last trip is less than the duration before `now`. */
  ghost predicate RunsAt(cfg: RiskConfig, history: seq<Event>, now: int) {
    LastTrip(cfg, history).Some? && now - LastTrip(cfg, history).value < cfg.Duration()
  }

  /** A tripping check raises the flag; a calm one keeps it while the last trip is recent. */
  lemma RaisedExtends(cfg: RiskConfig, history: seq<Event>, now: int, deviation: real)
    requires Ordered(history) && NotBefore(history, now)
    ensures var h := history + [Checked(now, deviation)];
            Raised(cfg, h) == (cfg.Threshold() < deviation || (Raised(cfg, history) && RunsAt(cfg, history, now)))
  {
    var h := history + [Checked(now, deviation)];
    if cfg.Threshold() < deviation {
      assert Trips(cfg, h[|history|]) && Standing(cfg, h, |history|);
    } else {
      if Raised(cfg, h) {
        var i :| 0 <= i < |h| && Trips(cfg, h[i]) && Standing(cfg, h, i);
        assert h[|history|].at - h[i].at < cfg.Duration();
        assert Trips(cfg, history[i]);
        forall j | i < j < |history| && history[j].Checked? && !Trips(cfg, history[j])
          ensures history[j].at - history[i].at < cfg.Duration()
        {
          assert h[j] == history[j];
        }
        assert Standing(cfg, history, i);
        TripHasLast(cfg, history, i);
        var k := LastTripIndex(cfg, history);
        assert i <= k;
      }
      if Raised(cfg, history) && RunsAt(cfg, history, now) {
        var i :| 0 <= i < |history| && Trips(cfg, history[i]) && Standing(cfg, history, i);
        TripHasLast(cfg, history, i);
        var k := LastTripIndex(cfg, history);
        assert h[k] == history[k] && i <= k;
        assert Standing(cfg, h, k);
      }
    }
  }

  lemma RaisedUnchanged(cfg: RiskConfig, history: seq<Event>, e: Event)
    requires !e.Checked?
    ensures Raised(cfg, history + [e]) <==> Raised(cfg, history)
  {
    var h := history + [e];
    if Raised(cfg, h) {
      var i :| 0 <= i < |h| && Trips(cfg, h[i]) && Standing(cfg, h, i);
      assert history[i] == h[i] && Standing(cfg, history, i) by {
        forall j | i < j < |history| ensures h[j] == history[j] { }
      }
    }
    if Raised(cfg, history) {
      var i :| 0 <= i < |history| && Trips(cfg, history[i]) && Standing(cfg, history, i);
      assert history[i] == h[i] && Standing(cfg, h, i);
    }
  }

  /** Where nothing ever tripped, the flag is down. */
  lemma NoTripNotRaised(cfg: RiskConfig, history: seq<Event>)
    requires forall e | e in history :: !Trips(cfg, e)
    ensures !Raised(cfg, history)
  {
  }

  lemma CheckExtends(cfg: RiskConfig, history: seq<Event>, now: int, deviation: real)
    requires Ordered(history) && NotBefore(history, now)
    ensures var h := history + [Checked(now, deviation)];
            && Ordered(h) && LastCheck(h) == Some(now) && Losses(h) == Losses(history)
            && Trades(h, false) == Trades(history, false) && Trades(h, true) == Trades(history, true)
            && LastTrip(cfg, h) == if cfg.Threshold() < deviation then Some(now) else LastTrip(cfg, history)
  {
    var h := history + [Checked(now, deviation)];
    assert h[..|h| - 1] == history;
    forall i | 0 <= i < |history| && history[i].Checked?
      ensures history[i].at <= now
    {
      LastCheckIsLatest(history, i);
    }
  }

  lemma RecordExtends(cfg: RiskConfig, history: seq<Event>, e: Event)
    requires Ordered(history) && !e.Checked?
    ensures var h := history + [e];
            && Ordered(h) && LastCheck(h) == LastCheck(history) && LastTrip(cfg, h) == LastTrip(cfg, history)
            && (Raised(cfg, h) <==> Raised(cfg, history))
  {
    var h := history + [e];
    assert h[..|h| - 1] == history;
    RaisedUnchanged(cfg, history, e);
  }

  /** The engine's whole state against its history. */
  datatype EngineState = EngineState(dailyLoss: real, active: bool, start: int, failedTrades: nat, totalTrades: nat)

  ghost predicate Refines(cfg: RiskConfig, history: seq<Event>, s: EngineState) {
    && Ordered(history)
    && BreakerRefines(cfg, history, s.active, s.start)
    && s.dailyLoss == Losses(history)
    && s.totalTrades == Trades(history, false) && s.failedTrades == Trades(history, true)
  }

  /** What CheckRisk does to the state, and the verdict it reaches from the state alone. */
  function AfterCheck(cfg: RiskConfig, s: EngineState, now: int, deviation: real): EngineState {
    if cfg.Threshold() < deviation then s.(active := true, start := now)
    else if s.active && cfg.Duration() <= now - s.start then s.(active := false, start := 0)
    else s
  }

  function StateVerdict(cfg: RiskConfig, s: EngineState, now: int, deviation: real, twapDeviation: real): Reason {
    if cfg.Threshold() < deviation then DeviationTooHigh
    else if s.active && now - s.start < cfg.Duration() then BreakerActive
    else if cfg.MaxDailyLoss() < s.dailyLoss then DailyLossTooHigh
    else if cfg.Threshold() / 2.0 < twapDeviation then TwapTooFar
    else Passed
  }

  /** The constant-size state refines the full history across a check, and gives
      the verdict the full history gives. */
  lemma CheckRefines(cfg: RiskConfig, history: seq<Event>, s: EngineState,
                     now: int, deviation: real, twapDeviation: real)
    requires Refines(cfg, history, s) && NotBefore(history, now)
    ensures Refines(cfg, history + [Checked(now, deviation)], AfterCheck(cfg, s, now, deviation))
    ensures StateVerdict(cfg, s, now, deviation, twapDeviation) == Verdict(cfg, history, now, deviation, twapDeviation)
  {
    BreakerAnswers(cfg, history, s.active, s.start, now);
    CheckExtends(cfg, history, now, deviation);
    RaisedExtends(cfg, history, now, deviation);
  }

  function AfterRecord(s: EngineState, e: Event): EngineState {
    match e
    case LossRecorded(amount) => s.(dailyLoss := s.dailyLoss + amount)
    case TradeRecorded(success) =>
      s.(totalTrades := s.totalTrades + 1, failedTrades := s.failedTrades + if success then 0 else 1)
    case DailyReset => s.(dailyLoss := 0.0, totalTrades := 0, failedTrades := 0)
    case Checked(_, _) => s
  }

  /** Likewise across every record and reset. */
  lemma RecordRefines(cfg: RiskConfig, history: seq<Event>, s: EngineState, e: Event)
    requires Refines(cfg, history, s) && !e.Checked?
    ensures Refines(cfg, history + [e], AfterRecord(s, e))
  {
    RecordExtends(cfg, history, e);
    assert (history + [e])[..|history|] == history;
  }

  class Engine {
    const cfg: RiskConfig
    var dailyLoss: real
    var circuitBreakerStart: int
    var isCircuitBreaker: bool
    var failedTrades: nat
    var totalTrades: nat
    ghost var history: seq<Event>

    ghost function State(): EngineState
      reads this
    {
      EngineState(dailyLoss, isCircuitBreaker, circuitBreakerStart, failedTrades, totalTrades)
    }

    ghost predicate Valid()
      reads this
    {
      Refines(cfg, history, State())
    }

    constructor (cfg: RiskConfig)
      ensures Valid() && history == [] && this.cfg == cfg && !isCircuitBreaker
    {
      this.cfg := cfg;
      dailyLoss, circuitBreakerStart, isCircuitBreaker, failedTrades, totalTrades := 0.0, 0, false, 0, 0;
      history := [];
    }

    /** The report is the one the full history gives, whatever was recorded or
        reset in between. */
    method CheckRisk(now: int, currentPrice: real, twapPrice: real, refPrice: real) returns (r: RiskCheck)
      requires Valid() && NotBefore(history, now)
      modifies this
      ensures Valid()
      ensures history == old(history) + [Checked(now, Abs(currentPrice - refPrice))]
      ensures r == Report(Verdict(cfg, old(history), now, Abs(currentPrice - refPrice), Abs(twapPrice - refPrice)))
    {
      var deviation := Abs(currentPrice - refPrice);
      var twapDeviation := Abs(twapPrice - refPrice);
      CheckRefines(cfg, history, State(), now, deviation, twapDeviation);
      ghost var next := AfterCheck(cfg, State(), now, deviation);
      history := history + [Checked(now, deviation)];
      if deviation > cfg.Threshold() {
        isCircuitBreaker, circuitBreakerStart := true, now;
        assert State() == next;
        return Report(DeviationTooHigh);
      }
      if isCircuitBreaker {
        if now - circuitBreakerStart < cfg.Duration() {
          assert State() == next;
          return Report(BreakerActive);
        }
        isCircuitBreaker, circuitBreakerStart := false, 0;
      }
      assert State() == next;
      if dailyLoss > cfg.MaxDailyLoss() {
        return Report(DailyLossTooHigh);
      }
      if twapDeviation > cfg.Threshold() / 2.0 {
        return Report(TwapTooFar);
      }
      return Report(Passed);
    }

    method RecordTrade(success: bool)
      requires Valid()
      modifies this
      ensures Valid() && history == old(history) + [TradeRecorded(success)]
    {
      RecordRefines(cfg, history, State(), TradeRecorded(success));
      ghost var next := AfterRecord(State(), TradeRecorded(success));
      totalTrades := totalTrades + 1;
      if !success {
        failedTrades := failedTrades + 1;
      }
      history := history + [TradeRecorded(success)];
      assert State() == next;
    }

    method RecordLoss(amount: real)
      requires Valid()
      modifies this
      ensures Valid() && history == old(history) + [LossRecorded(amount)]
    {
      RecordRefines(cfg, history, State(), LossRecorded(amount));
      ghost var next := AfterRecord(State(), LossRecorded(amount));
      dailyLoss := dailyLoss + amount;
      history := history + [LossRecorded(amount)];
      assert State() == next;
    }

    method ResetDailyStats()
      requires Valid()
      modifies this
      ensures Valid() && history == old(history) + [DailyReset]
    {
      RecordRefines(cfg, history, State(), DailyReset);
      ghost var next := AfterRecord(State(), DailyReset);
      dailyLoss, totalTrades, failedTrades := 0.0, 0, 0;
      history := history + [DailyReset];
      assert State() == next;
    }

    method GetFailureRate() returns (rate: real)
      requires Valid()
      ensures Trades(history, false) == 0 ==> rate == 0.0
      ensures rate * Trades(history, false) as real == Trades(history, true) as real
    {
      FailedTradesAreTrades(history);
      if totalTrades == 0 {
        return 0.0;
      }
      return failedTrades as real / totalTrades as real;
    }
  }

  lemma {:induction false} FailedTradesAreTrades(history: seq<Event>)
    ensures Trades(history, true) <= Trades(history, false)
  {
    if history == [] {
    } else {
      FailedTradesAreTrades(history[..|history| - 1]);
    }
  }
}
