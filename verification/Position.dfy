/** nse_dashboard/trading/portfolio.py: one paper position and its closing rules, and the sizing arithmetic. */
module Position {
  import opened Values
  import opened Numbers

  datatype PositionState = OPEN | PARTIAL_EXIT | EXIT

  /** The fields of a `PaperPosition`. Dates are day numbers. */
  datatype PositionData = PositionData(
    symbol: string, sector: string, entryDate: int, entryPrice: real, quantity: int, initialStop: real,
    currentStop: real, highestClose: real, remainingQuantity: int, partialExitDone: bool, realizedPnl: real,
    sessionsHeld: int, state: PositionState)

  /** What one session's evaluation is given. */
  datatype Session = Session(close: real, atr: real, supertrend: real, rsi: real, belowSupertrendDays: int,
                             weeklyBelowEma10: bool)

  datatype Action = HOLD | CLOSE | CLOSE_PART

  datatype Reason =
    | AboveThresholds | ProtectiveStop | BelowSupertrend | BelowWeeklyEma | TimeStop | MaximumHold | RsiAbove75

  datatype Decision = Decision(action: Action, quantity: int, reason: Reason, rMultiple: real, trailingStop: real)

  function RiskPerShare(p: PositionData): (r: real)
    ensures r >= 0.000000001 && r >= p.entryPrice - p.initialStop
  {
    Max(p.entryPrice - p.initialStop, 0.000000001)
  }

  /** The gain of a close in units of the initial risk. */
  function RMultiple(p: PositionData, close: real): (r: real)
    ensures r >= 1.0 <==> close >= p.entryPrice + RiskPerShare(p)
  {
    AtLeastOne(close - p.entryPrice, RiskPerShare(p));
    (close - p.entryPrice) / RiskPerShare(p)
  }

  lemma AtLeastOne(x: real, y: real)
    requires y > 0.0
    ensures x / y >= 1.0 <==> x >= y
  {
    assert (x / y) * y == x;
    if x / y >= 1.0 {
      MulMono(1.0, x / y, y);
    } else {
      MulStrict(x / y, 1.0, y);
    }
  }

  /** The stop after a close: never lowered, lifted to the entry by a gain of one risk unit, to the supertrend, and
      to 2.5 average ranges below the highest close. */
  function StopAfter(p: PositionData, s: Session): real {
    var breakeven := if RMultiple(p, s.close) >= 1.0 then Max(p.currentStop, p.entryPrice) else p.currentStop;
    Max(Max(breakeven, s.supertrend), Max(p.highestClose, s.close) - 2.5 * s.atr)
  }

  /** The position with its session count, highest close and stop brought up to date. */
  function Trailed(p: PositionData, s: Session): PositionData {
    p.(sessionsHeld := p.sessionsHeld + 1, highestClose := Max(p.highestClose, s.close), currentStop := StopAfter(p, s))
  }

  /** The closing rule that applies, in the order they are tried. */
  function Rule(p: PositionData, s: Session): Reason {
    var q := Trailed(p, s);
    if s.close <= q.currentStop then ProtectiveStop
    else if s.belowSupertrendDays >= 2 then BelowSupertrend
    else if s.weeklyBelowEma10 then BelowWeeklyEma
    else if q.sessionsHeld >= 40 && RMultiple(p, s.close) < 1.0 then TimeStop
    else if q.sessionsHeld >= 63 && s.close <= q.currentStop then MaximumHold
    else if s.rsi > 75.0 && !p.partialExitDone then RsiAbove75
    else AboveThresholds
  }

  function Evaluated(p: PositionData, s: Session): PositionData {
    if Rule(p, s) == RsiAbove75 then Trailed(p, s).(partialExitDone := true, state := PARTIAL_EXIT) else Trailed(p, s)
  }

  function Decided(p: PositionData, s: Session): Decision {
    var reason := Rule(p, s);
    var r, stop := Round2(RMultiple(p, s.close)), Round2(StopAfter(p, s));
    match reason
    case AboveThresholds => Decision(HOLD, 0, reason, r, stop)
    case RsiAbove75 => Decision(CLOSE_PART, if p.remainingQuantity / 2 >= 1 then p.remainingQuantity / 2 else 1,
                                reason, r, stop)
    case _ => Decision(CLOSE, p.remainingQuantity, reason, r, stop)
  }

  class PaperPosition {
    const symbol: string
    const sector: string
    const entryDate: int
    const entryPrice: real
    const quantity: int
    const initialStop: real
    var currentStop: real
    var highestClose: real
    var remainingQuantity: int
    var partialExitDone: bool
    var realizedPnl: real
    var sessionsHeld: int
    var state: PositionState

    ghost function Data(): PositionData
      reads this
    {
      PositionData(symbol, sector, entryDate, entryPrice, quantity, initialStop, currentStop, highestClose,
                   remainingQuantity, partialExitDone, realizedPnl, sessionsHeld, state)
    }

    constructor (p: PositionData)
      ensures Data() == p
    {
      symbol, sector, entryDate, entryPrice := p.symbol, p.sector, p.entryDate, p.entryPrice;
      quantity, initialStop, currentStop, highestClose := p.quantity, p.initialStop, p.currentStop, p.highestClose;
      remainingQuantity, partialExitDone, realizedPnl := p.remainingQuantity, p.partialExitDone, p.realizedPnl;
      sessionsHeld, state := p.sessionsHeld, p.state;
    }

    /** `asdict(position)`. */
    method AsDict() returns (p: PositionData)
      ensures p == Data()
    {
      p := PositionData(symbol, sector, entryDate, entryPrice, quantity, initialStop, currentStop, highestClose,
                        remainingQuantity, partialExitDone, realizedPnl, sessionsHeld, state);
    }

    /** The position's side of `apply_exit`. */
    method Reduce(units: int, price: real)
      modifies this
      ensures units == old(remainingQuantity) ==> remainingQuantity == 0 && state == EXIT
      ensures units != old(remainingQuantity) ==> Data() == Sold(old(Data()), units, price)
    {
      realizedPnl := realizedPnl + Units(units, price - entryPrice);
      remainingQuantity := remainingQuantity - units;
      if remainingQuantity == 0 {
        state := EXIT;
      } else {
        partialExitDone := true;
        state := PARTIAL_EXIT;
      }
    }

    method EvaluateClose(s: Session) returns (d: Decision)
      modifies this
      ensures Data() == Evaluated(old(Data()), s)
      ensures d == Decided(old(Data()), s)
    {
      ghost var before := Data();
      sessionsHeld := sessionsHeld + 1;
      highestClose := Max(highestClose, s.close);
      var rMultiple := (s.close - entryPrice) / Max(entryPrice - initialStop, 0.000000001);
      assert rMultiple == RMultiple(before, s.close);
      if rMultiple >= 1.0 {
        currentStop := Max(currentStop, entryPrice);
      }
      currentStop := Max(Max(currentStop, s.supertrend), highestClose - 2.5 * s.atr);
      var action, units, reason := HOLD, 0, AboveThresholds;
      if s.close <= currentStop {
        action, units, reason := CLOSE, remainingQuantity, ProtectiveStop;
      } else if s.belowSupertrendDays >= 2 {
        action, units, reason := CLOSE, remainingQuantity, BelowSupertrend;
      } else if s.weeklyBelowEma10 {
        action, units, reason := CLOSE, remainingQuantity, BelowWeeklyEma;
      } else if sessionsHeld >= 40 && rMultiple < 1.0 {
        action, units, reason := CLOSE, remainingQuantity, TimeStop;
      } else if sessionsHeld >= 63 && s.close <= currentStop {
        action, units, reason := CLOSE, remainingQuantity, MaximumHold;
      } else if s.rsi > 75.0 && !partialExitDone {
        units := if remainingQuantity / 2 >= 1 then remainingQuantity / 2 else 1;
        action, reason := CLOSE_PART, RsiAbove75;
        partialExitDone := true;
        state := PARTIAL_EXIT;
      }
      d := Decision(action, units, reason, Round2(rMultiple), Round2(currentStop));
    }
  }

  // ----- runs of sessions and partial fills on one position

  /** A session is evaluated, or `apply_exit` sells part of what is left. */
  datatype Event = Evaluate(session: Session) | SellPart(quantity: int, price: real)

  function Sold(p: PositionData, quantity: int, price: real): PositionData {
    p.(remainingQuantity := p.remainingQuantity - quantity,
       realizedPnl := p.realizedPnl + Units(quantity, price - p.entryPrice),
       partialExitDone := true, state := PARTIAL_EXIT)
  }

  function Next(p: PositionData, e: Event): PositionData {
    match e
    case Evaluate(s) => Evaluated(p, s)
    case SellPart(quantity, price) => Sold(p, quantity, price)
  }

  function After(p: PositionData, events: seq<Event>): PositionData {
    if events == [] then p else Next(After(p, events[..|events| - 1]), events[|events| - 1])
  }

  /** The terms of the trade never change. */
  ghost predicate SameTerms(p: PositionData, q: PositionData) {
    p.symbol == q.symbol && p.sector == q.sector && p.entryDate == q.entryDate && p.entryPrice == q.entryPrice
    && p.quantity == q.quantity && p.initialStop == q.initialStop
  }

  /** The stop never falls, from any point of a run to any later one, and a partial exit is never forgotten. */
  lemma {:induction false} StopRatchets(p: PositionData, events: seq<Event>, i: nat)
    requires i <= |events|
    ensures p.currentStop <= After(p, events[..i]).currentStop <= After(p, events).currentStop
    ensures After(p, events[..i]).partialExitDone ==> After(p, events).partialExitDone
    ensures SameTerms(p, After(p, events))
  {
    if i < |events| {
      var front := events[..|events| - 1];
      assert front[..i] == events[..i];
      StopRatchets(p, front, i);
    } else {
      assert events[..i] == events;
      if events != [] {
        StopRatchets(p, events[..i - 1], i - 1);
        assert events[..i - 1][..i - 1] == events[..i - 1];
      }
    }
  }

  /** The closes seen so far, and the entry. */
  ghost predicate IsHighest(p: PositionData, events: seq<Event>, x: real) {
    && (forall k :: 0 <= k < |events| && events[k].Evaluate? ==> events[k].session.close <= x)
    && p.highestClose <= x
    && (x == p.highestClose || exists k :: 0 <= k < |events| && events[k].Evaluate? && events[k].session.close == x)
  }

  /** The highest close is the running maximum of the entry and every close. */
  lemma {:induction false} HighestIsRunningMaximum(p: PositionData, events: seq<Event>)
    ensures IsHighest(p, events, After(p, events).highestClose)
  {
    if events != [] {
      var n := |events| - 1;
      HighestIsRunningMaximum(p, events[..n]);
      var before := After(p, events[..n]).highestClose;
      if before != p.highestClose {
        var k :| 0 <= k < n && events[..n][k].Evaluate? && events[..n][k].session.close == before;
        assert events[k].session.close == before;
      }
      forall k | 0 <= k < |events| && events[k].Evaluate?
        ensures events[k].session.close <= After(p, events).highestClose
      {
        assert k < n ==> events[..n][k] == events[k];
      }
    }
  }

  /** From the first close at a gain of one risk unit on, the stop is at the entry or above. */
  lemma BreakevenForever(p: PositionData, events: seq<Event>, i: nat)
    requires i < |events| && events[i].Evaluate?
    requires events[i].session.close >= p.entryPrice + RiskPerShare(p)
    ensures After(p, events).currentStop >= p.entryPrice
  {
    StopRatchets(p, events, i);
    StopRatchets(p, events, i + 1);
    StopRatchets(p, events[..i], 0);
    assert events[..i + 1][..i] == events[..i];
    var before := After(p, events[..i]);
    assert RMultiple(before, events[i].session.close) >= 1.0;
  }

  /** What one decision guarantees: any decision but an exit is taken with the close above the new stop, exits
      sell everything left, a partial exit sells at least one and not more than is left, and the branch of the
      63-session maximum hold is never taken, because the protective stop comes first. */
  lemma DecisionFacts(p: PositionData, s: Session)
    requires p.remainingQuantity >= 1
    ensures var d, q := Decided(p, s), Evaluated(p, s);
            && (d.action != CLOSE ==> s.close > q.currentStop)
            && (d.action == CLOSE ==> d.quantity == p.remainingQuantity)
            && (d.action == CLOSE_PART ==>
                 1 <= d.quantity <= p.remainingQuantity && !p.partialExitDone && q.partialExitDone)
            && d.reason != MaximumHold
            && (q.sessionsHeld >= 40 && s.close < p.entryPrice + RiskPerShare(p) ==> d.action == CLOSE)
  {
  }

  // ----- the stop as a maximum over the run

  /** The session's close is at least one initial risk above the entry. */
  ghost predicate BreaksEven(p: PositionData, s: Session) {
    s.close >= p.entryPrice + Max(p.entryPrice - p.initialStop, 0.000000001)
  }

  ghost predicate SessionAt(events: seq<Event>, k: int) { 0 <= k < |events| && events[k].Evaluate? }

  /** The entry, once a close has gained one initial risk. */
  ghost predicate IsBreakeven(p: PositionData, events: seq<Event>, x: real) {
    x == p.entryPrice && exists k :: SessionAt(events, k) && BreaksEven(p, events[k].session)
  }

  /** The supertrend of a session. */
  ghost predicate IsSupertrend(events: seq<Event>, x: real) {
    exists k :: SessionAt(events, k) && x == events[k].session.supertrend
  }

  /** 2.5 average ranges of session `k` below the highest close up to it. */
  ghost predicate TrailsAt(p: PositionData, events: seq<Event>, k: int, x: real) {
    SessionAt(events, k) && IsHighest(p, events[..k + 1], x + 2.5 * events[k].session.atr)
  }

  ghost predicate IsTrail(p: PositionData, events: seq<Event>, x: real) { exists k :: TrailsAt(p, events, k, x) }

  /** Everything that lifts the stop over a run. */
  ghost predicate StopTerm(p: PositionData, events: seq<Event>, x: real) {
    x == p.currentStop || IsBreakeven(p, events, x) || IsSupertrend(events, x) || IsTrail(p, events, x)
  }

  /** `stop` is the largest of those terms. */
  ghost predicate IsStop(p: PositionData, events: seq<Event>, stop: real) {
    StopTerm(p, events, stop) && forall x :: StopTerm(p, events, x) ==> x <= stop
  }

  lemma TrailsAtPrefix(p: PositionData, events: seq<Event>, n: nat, k: int, x: real)
    requires k < n <= |events|
    ensures TrailsAt(p, events[..n], k, x) <==> TrailsAt(p, events, k, x)
  {
    if 0 <= k {
      assert events[..n][..k + 1] == events[..k + 1] && events[..n][k] == events[k];
    }
  }

  /** A term of a run is one of the run before its last event, or comes from that event. */
  lemma LastTerms(p: PositionData, events: seq<Event>, x: real)
    requires events != []
    ensures StopTerm(p, events, x) <==>
              || StopTerm(p, events[..|events| - 1], x)
              || (events[|events| - 1].Evaluate?
                  && var s := events[|events| - 1].session;
                     || (x == p.entryPrice && BreaksEven(p, s)) || x == s.supertrend
                     || TrailsAt(p, events, |events| - 1, x))
  {
    var n := |events| - 1;
    var front := events[..n];
    forall k | 0 <= k < n ensures SessionAt(front, k) == SessionAt(events, k) && front[k] == events[k] {}
    forall k: int | k < n ensures TrailsAt(p, front, k, x) <==> TrailsAt(p, events, k, x) {
      TrailsAtPrefix(p, events, n, k, x);
    }
    if events[n].Evaluate? {
      assert SessionAt(events, n);
    }
  }

  lemma HighestIsUnique(p: PositionData, events: seq<Event>, x: real, y: real)
    requires IsHighest(p, events, x) && IsHighest(p, events, y)
    ensures x == y
  {
  }

  /** What one session makes of the stop. */
  lemma StopStep(p: PositionData, events: seq<Event>, stop: real)
    requires events != [] && IsStop(p, events[..|events| - 1], stop)
    requires stop == After(p, events[..|events| - 1]).currentStop
    ensures IsStop(p, events, After(p, events).currentStop)
  {
    var n := |events| - 1;
    var before, after := After(p, events[..n]), After(p, events);
    StopRatchets(p, events[..n], 0);
    HighestIsRunningMaximum(p, events);
    assert events[..n + 1] == events;
    forall x ensures StopTerm(p, events, x) ==> x <= after.currentStop {
      LastTerms(p, events, x);
      if TrailsAt(p, events, n, x) {
        HighestIsUnique(p, events, x + 2.5 * events[n].session.atr, after.highestClose);
      }
    }
    LastTerms(p, events, after.currentStop);
    if events[n].Evaluate? && after.currentStop == after.highestClose - 2.5 * events[n].session.atr {
      assert TrailsAt(p, events, n, after.currentStop);
    }
  }

  /** Over every run the stop is the largest of: the stop at the start, the entry once a close has gained one initial
      risk, every session's supertrend, and every session's highest close so far less 2.5 of its average ranges. */
  lemma {:induction false} StopExactly(p: PositionData, events: seq<Event>)
    ensures IsStop(p, events, After(p, events).currentStop)
  {
    if events != [] {
      StopExactly(p, events[..|events| - 1]);
      StopStep(p, events, After(p, events[..|events| - 1]).currentStop);
    }
  }

  /** A session decides on the protective stop exactly when its close is at or below one of those terms, its own
      included. */
  lemma ProtectiveExactly(p: PositionData, events: seq<Event>, s: Session)
    ensures var d := Decided(After(p, events), s);
            d.action == CLOSE && d.reason == ProtectiveStop <==>
            exists x :: StopTerm(p, events + [Evaluate(s)], x) && s.close <= x
  {
    var all := events + [Evaluate(s)];
    assert all[..|events|] == events;
    StopExactly(p, all);
    assert StopTerm(p, all, After(p, all).currentStop);
  }

  // ----- the other rules

  /** Which rule decides a session, from the stop it leaves behind. */
  lemma DecisionExactly(p: PositionData, s: Session)
    ensures var d, q, r := Decided(p, s), Evaluated(p, s), BreaksEven(p, s);
            var stopped, days, weekly := s.close <= q.currentStop, s.belowSupertrendDays >= 2, s.weeklyBelowEma10;
            var timed := p.sessionsHeld + 1 >= 40 && !r;
            && (d.reason == ProtectiveStop <==> stopped)
            && (d.reason == BelowSupertrend <==> !stopped && days)
            && (d.reason == BelowWeeklyEma <==> !stopped && !days && weekly)
            && (d.reason == TimeStop <==> !stopped && !days && !weekly && timed)
            && (d.reason == RsiAbove75 <==>
                  !stopped && !days && !weekly && !timed && s.rsi > 75.0 && !p.partialExitDone)
            && d.reason != MaximumHold
            && (d.action == HOLD <==> d.reason == AboveThresholds)
            && (d.action == CLOSE_PART <==> d.reason == RsiAbove75)
  {
  }

  /** What a session reports and leaves behind: half of what is left, but one share at least, in a partial exit, and the
      gain in units of the initial risk. */
  lemma ReportExactly(p: PositionData, s: Session) returns (r: real)
    ensures r * Max(p.entryPrice - p.initialStop, 0.000000001) == s.close - p.entryPrice
    ensures var d, q := Decided(p, s), Evaluated(p, s);
            && d.rMultiple == Round2(r) && d.trailingStop == Round2(q.currentStop)
            && (d.action == HOLD ==> d.quantity == 0) && (d.action == CLOSE ==> d.quantity == p.remainingQuantity)
            && (d.action == CLOSE_PART ==>
                 if p.remainingQuantity < 2 then d.quantity == 1
                 else 2 * d.quantity <= p.remainingQuantity < 2 * d.quantity + 2)
            && q == p.(sessionsHeld := p.sessionsHeld + 1, highestClose := Max(p.highestClose, s.close),
                       currentStop := q.currentStop, partialExitDone := p.partialExitDone || d.action == CLOSE_PART,
                       state := if d.action == CLOSE_PART then PARTIAL_EXIT else p.state)
  {
    r := RMultiple(p, s.close);
  }

  ghost function SharesSold(events: seq<Event>): int {
    if events == [] then 0
    else
      var last := events[|events| - 1];
      SharesSold(events[..|events| - 1]) + if last.SellPart? then last.quantity else 0
  }

  ghost function GainsTaken(entry: real, events: seq<Event>): real {
    if events == [] then 0.0
    else
      var last := events[|events| - 1];
      GainsTaken(entry, events[..|events| - 1])
      + if last.SellPart? then Units(last.quantity, last.price - entry) else 0.0
  }

  ghost function Sessions(events: seq<Event>): nat {
    if events == [] then 0 else Sessions(events[..|events| - 1]) + if events[|events| - 1].Evaluate? then 1 else 0
  }

  /** Over every run the shares left, the gains taken and the sessions held add up. */
  lemma {:induction false} RunAddsUp(p: PositionData, events: seq<Event>)
    ensures var q := After(p, events);
            && q.remainingQuantity + SharesSold(events) == p.remainingQuantity
            && q.realizedPnl == p.realizedPnl + GainsTaken(p.entryPrice, events)
            && q.sessionsHeld == p.sessionsHeld + Sessions(events)
  {
    if events != [] {
      RunAddsUp(p, events[..|events| - 1]);
      StopRatchets(p, events[..|events| - 1], 0);
    }
  }

  ghost predicate PartialAt(p: PositionData, events: seq<Event>, i: nat)
    requires i < |events|
  {
    events[i].Evaluate? && Decided(After(p, events[..i]), events[i].session).action == CLOSE_PART
  }

  /** A position is told to exit in part at most once. */
  lemma PartialExitOnce(p: PositionData, events: seq<Event>, i: nat, j: nat)
    requires i < j < |events| && PartialAt(p, events, i)
    ensures !PartialAt(p, events, j)
  {
    assert events[..i + 1][..i] == events[..i];
    assert After(p, events[..i + 1]).partialExitDone;
    assert events[..j][..i + 1] == events[..i + 1];
    StopRatchets(p, events[..j], i + 1);
  }

  // ----- `size_position`

  datatype SizeError = InvalidInput | DivisionByZero

  datatype Size = Size(quantity: int, positionValue: real, riskBudget: real, estimatedRisk: real)

  function CostPerShare(entry: real, stop: real, costBps: real): real { entry - stop + entry * costBps / 10000.0 }

  function Percent(x: real, pct: real): real { x * pct / 100.0 }

  function Units(n: int, each: real): real { n as real * each }

  function SizePosition(equity: real, entry: real, stop: real, riskPct: real, costBps: real,
                        maximumPct: real): Result<Size, SizeError> {
    if equity <= 0.0 || entry <= 0.0 || stop <= 0.0 || stop >= entry then Err(InvalidInput)
    else if CostPerShare(entry, stop, costBps) == 0.0 then Err(DivisionByZero)
    else
      var risk := CostPerShare(entry, stop, costBps);
      var byRisk := (Percent(equity, riskPct) / risk).Floor;
      var byValue := (Percent(equity, maximumPct) / entry).Floor;
      var least := if byRisk <= byValue then byRisk else byValue;
      var quantity := if least > 0 then least else 0;
      Ok(Size(quantity, Round2(Units(quantity, entry)), Round2(Percent(equity, riskPct)),
              Round2(Units(quantity, risk))))
  }

  lemma FloorQuotient(budget: real, each: real, n: int)
    requires each > 0.0
    ensures n <= (budget / each).Floor <==> Units(n, each) <= budget
  {
    var q, x := budget / each, n as real;
    assert q * each == budget;
    assert n <= q.Floor <==> x <= q;
    if x <= q {
      MulMono(x, q, each);
    } else {
      MulStrict(q, x, each);
    }
  }

  /** Both caps on a number of shares. */
  ghost predicate WithinCaps(n: int, each: real, risk: real, entry: real, value: real) {
    Units(n, each) <= risk && Units(n, entry) <= value
  }

  /** The caps in full: what the shares would lose at the stop, costs included, stays within the share of the equity at
      risk, and what they are worth within the largest share of a position. */
  ghost predicate RespectsCaps(n: int, equity: real, entry: real, stop: real, riskPct: real, costBps: real,
                               maximumPct: real)
  {
    && n as real * (entry - stop + entry * costBps / 10000.0) <= equity * riskPct / 100.0
    && n as real * entry <= equity * maximumPct / 100.0
  }

  lemma CapsExactly(n: int, equity: real, entry: real, stop: real, riskPct: real, costBps: real, maximumPct: real)
    ensures WithinCaps(n, CostPerShare(entry, stop, costBps), Percent(equity, riskPct), entry,
                       Percent(equity, maximumPct))
            <==> RespectsCaps(n, equity, entry, stop, riskPct, costBps, maximumPct)
  {
  }

  /** A number of shares is within the returned quantity exactly when it respects both the risk budget and the
      value cap: the quantity is the largest that does, and zero if none does. */
  lemma SizeIsLargest(equity: real, entry: real, stop: real, riskPct: real, costBps: real, maximumPct: real, n: int)
    requires n >= 1 && CostPerShare(entry, stop, costBps) > 0.0
    requires SizePosition(equity, entry, stop, riskPct, costBps, maximumPct).Ok?
    ensures n <= SizePosition(equity, entry, stop, riskPct, costBps, maximumPct).value.quantity <==>
            WithinCaps(n, CostPerShare(entry, stop, costBps), Percent(equity, riskPct), entry,
                       Percent(equity, maximumPct))
    ensures n <= SizePosition(equity, entry, stop, riskPct, costBps, maximumPct).value.quantity <==>
            RespectsCaps(n, equity, entry, stop, riskPct, costBps, maximumPct)
  {
    CapsExactly(n, equity, entry, stop, riskPct, costBps, maximumPct);
    FloorQuotient(Percent(equity, riskPct), CostPerShare(entry, stop, costBps), n);
    FloorQuotient(Percent(equity, maximumPct), entry, n);
  }

  /** The figures reported with a size, and when there is none. */
  lemma SizeFigures(equity: real, entry: real, stop: real, riskPct: real, costBps: real, maximumPct: real)
    ensures var r := SizePosition(equity, entry, stop, riskPct, costBps, maximumPct);
            var each := CostPerShare(entry, stop, costBps);
            && (r == Err(InvalidInput) <==> !(equity > 0.0 && 0.0 < stop < entry))
            && (r == Err(DivisionByZero) <==> equity > 0.0 && 0.0 < stop < entry && each == 0.0)
            && (r.Ok? ==> r.value.positionValue == Round2(Units(r.value.quantity, entry))
                          && r.value.riskBudget == Round2(Percent(equity, riskPct))
                          && r.value.estimatedRisk == Round2(Units(r.value.quantity, each)))
  {
  }

  /** Dividing by a negative risk turns the comparison around. */
  lemma NegativeQuotient(budget: real, each: real)
    requires each < 0.0
    ensures 1 <= (budget / each).Floor <==> budget <= each
  {
    var q := budget / each;
    assert q * each == budget;
    if q >= 1.0 {
      MulMono(1.0, q, -each);
    } else {
      MulStrict(q, 1.0, -each);
    }
  }

  lemma UnitsOrder(n: int, m: int, x: real)
    requires n <= m
    ensures x <= 0.0 ==> Units(m, x) <= Units(n, x)
    ensures x >= 0.0 ==> Units(n, x) <= Units(m, x)
  {
    if x <= 0.0 {
      MulMono(n as real, m as real, -x);
    } else {
      MulMono(n as real, m as real, x);
    }
  }

  /** The quantity is the largest within both caps, and zero if there is none. */
  ghost predicate IsLargest(quantity: int, each: real, risk: real, entry: real, value: real) {
    forall n: int :: n >= 1 ==> (n <= quantity <==> WithinCaps(n, each, risk, entry, value))
  }

  /** With a negative risk per share, more shares carry less risk, and the quotient caps the wrong side. */
  lemma NegativeRiskSize(each: real, risk: real, entry: real, value: real, byRisk: int, byValue: int, quantity: int)
    requires each < 0.0 && entry > 0.0
    requires byRisk == (risk / each).Floor && byValue == (value / entry).Floor
    requires quantity ==
               (if byRisk <= byValue then (if byRisk > 0 then byRisk else 0) else if byValue > 0 then byValue else 0)
    ensures IsLargest(quantity, each, risk, entry, value) <==>
            Units(1, entry) > value || (risk == each && Units(2, entry) > value)
  {
    NegativeQuotient(risk, each);
    FloorQuotient(value, entry, 1);
    assert WithinCaps(1, each, risk, entry, value) <==> each <= risk && Units(1, entry) <= value;
    if Units(1, entry) > value {
      forall n: int | n >= 1 ensures Units(1, entry) <= Units(n, entry) {
        UnitsOrder(1, n, entry);
      }
    } else if risk == each {
      OneShare(each, entry, value, quantity);
    }
  }

  lemma OneShare(each: real, entry: real, value: real, quantity: int)
    requires each < 0.0 && entry > 0.0 && quantity == 1 && Units(1, entry) <= value
    ensures IsLargest(quantity, each, each, entry, value) <==> Units(2, entry) > value
  {
    UnitsOrder(1, 2, each);
    assert WithinCaps(2, each, each, entry, value) <==> Units(2, entry) <= value;
    forall n: int | n >= 1 ensures Units(n, each) <= each && (n >= 2 ==> Units(2, entry) <= Units(n, entry)) {
      UnitsOrder(1, n, each);
      if n >= 2 {
        UnitsOrder(2, n, entry);
      }
    }
  }

  /** The code accepts any cost setting and any risk budget. The returned quantity is the largest within both caps
      exactly when a share carries positive risk, when not even one share fits the value cap, or when only one does
      and its negative risk is the whole budget. */
  lemma SizeIsLargestExactly(equity: real, entry: real, stop: real, riskPct: real, costBps: real, maximumPct: real)
    requires SizePosition(equity, entry, stop, riskPct, costBps, maximumPct).Ok?
    ensures var quantity := SizePosition(equity, entry, stop, riskPct, costBps, maximumPct).value.quantity;
            var each, risk := CostPerShare(entry, stop, costBps), Percent(equity, riskPct);
            var value := Percent(equity, maximumPct);
            IsLargest(quantity, each, risk, entry, value)
            <==> each > 0.0 || Units(1, entry) > value || (risk == each && Units(2, entry) > value)
  {
    var each, risk, value := CostPerShare(entry, stop, costBps), Percent(equity, riskPct), Percent(equity, maximumPct);
    var quantity := SizePosition(equity, entry, stop, riskPct, costBps, maximumPct).value.quantity;
    if each > 0.0 {
      forall n: int | n >= 1 ensures n <= quantity <==> WithinCaps(n, each, risk, entry, value) {
        SizeIsLargest(equity, entry, stop, riskPct, costBps, maximumPct, n);
      }
    } else {
      NegativeRiskSize(each, risk, entry, value, (risk / each).Floor, (value / entry).Floor, quantity);
    }
  }

  /** Entry at 100, stop at 90 and a cost of -2000 basis points: any number of shares respects a budget of 1000, and a
      hundred fit the value cap of 10000, but the size is zero. */
  lemma NegativeCostSizesNothing()
    ensures var r := SizePosition(100000.0, 100.0, 90.0, 1.0, -2000.0, 10.0);
            && r.Ok? && r.value.quantity == 0
            && WithinCaps(100, CostPerShare(100.0, 90.0, -2000.0), Percent(100000.0, 1.0), 100.0,
                          Percent(100000.0, 10.0))
  {
    assert CostPerShare(100.0, 90.0, -2000.0) == -10.0;
    assert Percent(100000.0, 1.0) == 1000.0 && Percent(100000.0, 10.0) == 10000.0;
    NegativeQuotient(1000.0, -10.0);
    assert Units(100, -10.0) == -1000.0 && Units(100, 100.0) == 10000.0;
  }
}
