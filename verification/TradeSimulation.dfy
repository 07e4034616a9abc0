/** nse_dashboard/five_percent_strategy/backtester.py, `_simulate_trade`. */
module TradeSimulation {
  import opened Values
  import opened Numbers

  datatype CandleFields = CandleFields(date: int, open: real, high: real, low: real, close: real)

  /** A daily bar with a positive open and its close in its range. */
  type Candle = c: CandleFields | c.open > 0.0 && c.low <= c.close <= c.high
    witness CandleFields(0, 1.0, 1.0, 1.0, 1.0)

  datatype Config = Config(
    initialCapital: real, targetPct: real, stopLossPct: real, holdingDays: nat, maxTrades: int,
    costBps: real, slippageBps: real, maxConcurrentTrades: int)
  {
    /** The ranges of money and rates that the request schema enforces. Its limits on holding days, trades and slots are
        not assumed. */
    ghost predicate Sane() {
      && initialCapital > 0.0 && 0.0 < targetPct <= 50.0 && 0.0 < stopLossPct <= 50.0
      && costBps >= 0.0 && slippageBps >= 0.0
    }

    function Slippage(): real { slippageBps / 10000.0 }

    function Cost(): real { costBps / 10000.0 }
  }

  /** A signal on a bar of its symbol's history. */
  datatype SignalFields = SignalFields(symbol: string, date: int, entryIndex: nat, frame: seq<Candle>)

  ghost predicate DatesIncrease(frame: seq<Candle>) {
    forall i, j :: 0 <= i < j < |frame| ==> frame[i].date < frame[j].date
  }

  ghost predicate WellFormed(s: SignalFields) {
    s.entryIndex < |s.frame| && DatesIncrease(s.frame) && s.date == s.frame[s.entryIndex].date
  }

  type Signal = s: SignalFields | WellFormed(s)
    ghost witness SignalFields("", 0, 0, [CandleFields(0, 1.0, 1.0, 1.0, 1.0)])

  datatype ExitReason = StopLoss | TargetHit | HoldingPeriodExpiry

  datatype Trade = Trade(
    symbol: string, entryDate: int, exitDate: int, win: bool, returnPct: real, capitalBefore: real,
    capitalAfter: real, holdingDays: nat, exitReason: ExitReason)

  /** The bars the trade may be held on. */
  function Window(s: SignalFields, days: nat): (r: seq<Candle>)
    ensures s.entryIndex + 1 >= |s.frame| ==> r == []
  {
    var from := s.entryIndex + 1;
    if from >= |s.frame| then []
    else if from + days <= |s.frame| then s.frame[from..from + days] else s.frame[from..]
  }

  predicate Tradable(s: SignalFields, c: Config) { Window(s, c.holdingDays) != [] }

  function Times(x: real, y: real): real { x * y }

  function Entry(s: SignalFields, c: Config): (e: real)
    requires Tradable(s, c)
  {
    Times(s.frame[s.entryIndex + 1].open, 1.0 + c.Slippage())
  }

  function Stop(s: SignalFields, c: Config): real
    requires Tradable(s, c)
  {
    Times(Entry(s, c), 1.0 - c.stopLossPct / 100.0)
  }

  function Target(s: SignalFields, c: Config): real
    requires Tradable(s, c)
  {
    Times(Entry(s, c), 1.0 + c.targetPct / 100.0)
  }

  predicate Touches(b: Candle, stop: real, target: real) { b.low <= stop || b.high >= target }

  /** How the position is closed: on which bar of the window, at what price, and why. */
  datatype Close = Close(bar: nat, price: real, reason: ExitReason)

  /** The closing bar of a nonempty window is its first bar that reaches the stop or the target, the stop winning
      on a bar that reaches both, or else its last bar at the close. */
  ghost predicate ClosesAt(window: seq<Candle>, stop: real, target: real, x: Close) {
    && x.bar < |window|
    && (forall k :: 0 <= k < x.bar ==> !Touches(window[k], stop, target))
    && match x.reason
       case StopLoss => window[x.bar].low <= stop && x.price == stop
       case TargetHit => window[x.bar].low > stop && window[x.bar].high >= target && x.price == target
       case HoldingPeriodExpiry => x.bar == |window| - 1 && !Touches(window[x.bar], stop, target)
                                   && x.price == window[x.bar].close
  }

  function CloseFrom(window: seq<Candle>, stop: real, target: real, k: nat): (x: Close)
    requires k < |window|
    ensures k <= x.bar < |window|
    decreases |window| - k
  {
    if window[k].low <= stop then Close(k, stop, StopLoss)
    else if window[k].high >= target then Close(k, target, TargetHit)
    else if k + 1 < |window| then CloseFrom(window, stop, target, k + 1)
    else Close(k, window[k].close, HoldingPeriodExpiry)
  }

  lemma {:induction false} CloseFromIsFirst(window: seq<Candle>, stop: real, target: real, k: nat)
    requires k < |window| && forall j :: 0 <= j < k ==> !Touches(window[j], stop, target)
    ensures ClosesAt(window, stop, target, CloseFrom(window, stop, target, k))
    decreases |window| - k
  {
    if !Touches(window[k], stop, target) && k + 1 < |window| {
      CloseFromIsFirst(window, stop, target, k + 1);
    }
  }

  /** The scan finds the one close that the rule allows. */
  lemma CloseIsUnique(window: seq<Candle>, stop: real, target: real, y: Close)
    requires window != []
    ensures ClosesAt(window, stop, target, y) <==> y == CloseFrom(window, stop, target, 0)
  {
    CloseFromIsFirst(window, stop, target, 0);
  }

  /** Exit price over entry price, less slippage on the way out. */
  function GrossReturnPct(entry: real, price: real, c: Config): real
    requires entry != 0.0
  {
    (Times(price, 1.0 - c.Slippage()) / entry - 1.0) * 100.0
  }

  function NetReturnPct(entry: real, price: real, c: Config): real
    requires entry != 0.0
  {
    GrossReturnPct(entry, price, c) + ((1.0 - c.Cost()) - 1.0) * 100.0
  }

  /** What a trade multiplies its capital by. */
  function Growth(netReturnPct: real): real { 1.0 + netReturnPct / 100.0 }

  lemma EntryPositive(s: SignalFields, c: Config)
    requires c.Sane() && Tradable(s, c)
    ensures Entry(s, c) > 0.0
  {
    MulStrict(0.0, s.frame[s.entryIndex + 1].open, 1.0 + c.Slippage());
  }

  function Simulated(s: SignalFields, c: Config, capital: real): Option<Trade>
    requires Tradable(s, c) ==> Entry(s, c) != 0.0
  {
    if !Tradable(s, c) then None
    else
      var window, entry := Window(s, c.holdingDays), Entry(s, c);
      var x := CloseFrom(window, Stop(s, c), Target(s, c), 0);
      var net := NetReturnPct(entry, x.price, c);
      Some(Trade(s.symbol, s.date, window[x.bar].date, net > 0.0, net, Round2(capital),
                 Round2(Times(capital, Growth(net))),
                 x.bar + 1, x.reason))
  }

  /** The scan of `_simulate_trade`. */
  method SimulateTrade(s: SignalFields, c: Config, capital: real) returns (r: Option<Trade>)
    requires c.Sane()
    ensures Tradable(s, c) ==> Entry(s, c) != 0.0
    ensures r == Simulated(s, c, capital)
  {
    if !Tradable(s, c) {
      return None;
    }
    EntryPositive(s, c);
    var window, entry, stop, target := Window(s, c.holdingDays), Entry(s, c), Stop(s, c), Target(s, c);
    var close: Option<Close> := None;
    var k := 0;
    while k < |window| && close.None?
      invariant 0 <= k <= |window|
      invariant close.Some? ==> close.value == CloseFrom(window, stop, target, 0)
      invariant close.None? && k < |window| ==> CloseFrom(window, stop, target, k) == CloseFrom(window, stop, target, 0)
      invariant close.None? && k == |window| ==>
                  CloseFrom(window, stop, target, 0) == Close(k - 1, window[k - 1].close, HoldingPeriodExpiry)
      decreases |window| - k, close.None?
    {
      if window[k].low <= stop {
        close := Some(Close(k, stop, StopLoss));
      } else if window[k].high >= target {
        close := Some(Close(k, target, TargetHit));
      } else {
        k := k + 1;
      }
    }
    var x := close.GetOr(Close(|window| - 1, window[|window| - 1].close, HoldingPeriodExpiry));
    var net := NetReturnPct(entry, x.price, c);
    r := Some(Trade(s.symbol, s.date, window[x.bar].date, net > 0.0, net, Round2(capital),
                    Round2(Times(capital, Growth(net))),
                    x.bar + 1, x.reason));
  }

  // ----- the trade in terms of the bars

  /** The bars a signal may hold its position on are those right after it, as many as the configuration allows. */
  lemma WindowExactly(s: Signal, c: Config)
    ensures var window, rest := Window(s, c.holdingDays), |s.frame| - s.entryIndex - 1;
            && |window| == (if c.holdingDays <= rest then c.holdingDays else rest)
            && (forall k :: 0 <= k < |window| ==> window[k] == s.frame[s.entryIndex + 1 + k])
    ensures Tradable(s, c) <==> s.entryIndex + 1 < |s.frame| && c.holdingDays >= 1
  {
  }

  /** Neither the signal's own bar nor any bar before it matters for the trade, beyond the signal's date. */
  lemma LooksForward(s: Signal, other: Signal, c: Config, capital: real)
    requires c.Sane() && s.symbol == other.symbol && s.date == other.date
    requires s.frame[s.entryIndex + 1..] == other.frame[other.entryIndex + 1..]
    ensures Tradable(s, c) <==> Tradable(other, c)
    ensures Tradable(s, c) ==> Entry(s, c) != 0.0 && Entry(other, c) != 0.0
    ensures Simulated(s, c, capital) == Simulated(other, c, capital)
  {
    var rest, same := s.frame[s.entryIndex + 1..], other.frame[other.entryIndex + 1..];
    WindowExactly(s, c);
    WindowExactly(other, c);
    assert |rest| == |same|;
    forall k | 0 <= k < |Window(s, c.holdingDays)|
      ensures Window(s, c.holdingDays)[k] == Window(other, c.holdingDays)[k]
    {
      assert rest[k] == s.frame[s.entryIndex + 1 + k] && same[k] == other.frame[other.entryIndex + 1 + k];
    }
    assert Window(s, c.holdingDays) == Window(other, c.holdingDays);
    if Tradable(s, c) {
      assert rest[0] == s.frame[s.entryIndex + 1] && same[0] == other.frame[other.entryIndex + 1];
      EntryPositive(s, c);
      EntryPositive(other, c);
    }
  }

  /** The price paid for an opening price. */
  ghost predicate IsFill(fill: real, open: real, slippageBps: real) { fill == open * (1.0 + slippageBps / 10000.0) }

  /** The stop and the target of a position that was filled at a price. */
  ghost predicate AreLevels(stop: real, target: real, fill: real, c: Config) {
    stop == fill * (1.0 - c.stopLossPct / 100.0) && target == fill * (1.0 + c.targetPct / 100.0)
  }

  /** What selling at a price returns after slippage and costs, cleared of its denominators. */
  ghost predicate IsNetReturn(returnPct: real, fill: real, price: real, c: Config) {
    (1.0 + returnPct / 100.0 + c.costBps / 10000.0) * fill == price * (1.0 - c.slippageBps / 10000.0)
  }

  /** The capital after a return, in whole cents. */
  ghost predicate IsBooked(after: real, capital: real, returnPct: real) {
    after == Round2(Times(capital, 1.0 + returnPct / 100.0))
  }

  lemma ReturnIsNet(fill: real, price: real, c: Config)
    requires fill > 0.0
    ensures IsNetReturn(NetReturnPct(fill, price, c), fill, price, c)
  {
    GrowthIsRatio(fill, price, c);
    var kept := Times(price, 1.0 - c.Slippage());
    assert kept / fill * fill == kept;
  }

  lemma LevelsExactly(s: Signal, c: Config)
    requires Tradable(s, c)
    ensures s.entryIndex + 1 < |s.frame| && IsFill(Entry(s, c), s.frame[s.entryIndex + 1].open, c.slippageBps)
    ensures AreLevels(Stop(s, c), Target(s, c), Entry(s, c), c)
  {
    WindowExactly(s, c);
  }

  lemma BookedExactly(capital: real, returnPct: real)
    ensures IsBooked(Round2(Times(capital, Growth(returnPct))), capital, returnPct)
  {
  }

  /** A trade is filled at the open of the bar after the signal, with slippage, has its stop and target around that
      price, closes where these say, and books what selling there returns. */
  lemma TradeExactly(s: Signal, c: Config, capital: real) returns (fill: real, stop: real, target: real, x: Close)
    requires c.Sane() && Tradable(s, c)
    ensures Entry(s, c) != 0.0 && s.entryIndex + 1 < |s.frame|
    ensures IsFill(fill, s.frame[s.entryIndex + 1].open, c.slippageBps) && AreLevels(stop, target, fill, c)
    ensures ClosesAt(Window(s, c.holdingDays), stop, target, x)
    ensures var t := Simulated(s, c, capital).value;
            && IsNetReturn(t.returnPct, fill, x.price, c) && IsBooked(t.capitalAfter, capital, t.returnPct)
            && t.capitalBefore == Round2(capital) && t.exitReason == x.reason && (t.win <==> t.returnPct > 0.0)
            && t.symbol == s.symbol && t.entryDate == s.date
            && t.exitDate == Window(s, c.holdingDays)[x.bar].date && t.holdingDays == x.bar + 1
  {
    EntryPositive(s, c);
    LevelsExactly(s, c);
    fill, stop, target := Entry(s, c), Stop(s, c), Target(s, c);
    x := CloseFrom(Window(s, c.holdingDays), stop, target, 0);
    CloseFromIsFirst(Window(s, c.holdingDays), stop, target, 0);
    ReturnIsNet(fill, x.price, c);
    BookedExactly(capital, NetReturnPct(fill, x.price, c));
    assert Simulated(s, c, capital).value.returnPct == NetReturnPct(fill, x.price, c);
  }

  // ----- bounds on one trade

  /** The multiplier of a trade that is stopped out. */
  function Worst(c: Config): real { Times(1.0 - c.stopLossPct / 100.0, 1.0 - c.Slippage()) - c.Cost() }

  /** The multiplier of a trade that hits its target. */
  function Best(c: Config): real { Times(1.0 + c.targetPct / 100.0, 1.0 - c.Slippage()) - c.Cost() }

  lemma ClosePriceBounds(window: seq<Candle>, stop: real, target: real, x: Close)
    requires ClosesAt(window, stop, target, x) && stop <= target
    ensures stop <= x.price <= target
    ensures x.reason.HoldingPeriodExpiry? ==> stop < x.price < target
  {
  }

  lemma RatioBounds(entry: real, price: real, low: real, high: real, keep: real)
    requires entry > 0.0 && keep >= 0.0 && Times(entry, low) <= price <= Times(entry, high)
    ensures Times(low, keep) <= Times(price, keep) / entry <= Times(high, keep)
  {
    MulMono(entry * low, price, keep);
    MulMono(price, entry * high, keep);
    assert entry * low * keep == Times(low, keep) * entry && entry * high * keep == Times(high, keep) * entry;
    var a, b := Times(low, keep), Times(high, keep);
    DivMono(a * entry, Times(price, keep), entry);
    DivMono(Times(price, keep), b * entry, entry);
    assert a * entry / entry == a && b * entry / entry == b;
  }

  /** A trade closes after its signal's date, within the holding period, and books what its return makes of the
      capital. */
  lemma TradeFacts(s: Signal, c: Config, capital: real)
    requires c.Sane() && Tradable(s, c)
    ensures Entry(s, c) > 0.0
    ensures var t := Simulated(s, c, capital).value;
            && t.capitalAfter == Round2(Times(capital, Growth(t.returnPct))) && t.capitalBefore == Round2(capital)
            && t.entryDate == s.date < t.exitDate && 1 <= t.holdingDays <= c.holdingDays
            && (t.win <==> Growth(t.returnPct) > 1.0)
  {
    EntryPositive(s, c);
    var window := Window(s, c.holdingDays);
    var x := CloseFrom(window, Stop(s, c), Target(s, c), 0);
    assert window[x.bar] == s.frame[s.entryIndex + 1 + x.bar];
  }

  /** With the sign of what slippage keeps of a price, the order of the bounds turns around. */
  lemma SignedRatioBounds(entry: real, price: real, low: real, high: real, keep: real)
    requires entry > 0.0 && Times(entry, low) <= price <= Times(entry, high)
    ensures keep >= 0.0 ==> Times(low, keep) <= Times(price, keep) / entry <= Times(high, keep)
    ensures keep <= 0.0 ==> Times(high, keep) <= Times(price, keep) / entry <= Times(low, keep)
  {
    if keep >= 0.0 {
      RatioBounds(entry, price, low, high, keep);
    } else {
      RatioBounds(entry, price, low, high, -keep);
      NegatedRatio(entry, price, keep);
      assert Times(low, -keep) == -Times(low, keep) && Times(high, -keep) == -Times(high, keep);
    }
  }

  lemma NegatedRatio(entry: real, price: real, keep: real)
    requires entry > 0.0
    ensures Times(price, -keep) / entry == -(Times(price, keep) / entry)
  {
    assert Times(price, -keep) == -Times(price, keep);
  }

  lemma TimesOrder(low: real, high: real, keep: real)
    requires low < high
    ensures Times(low, keep) <= Times(high, keep) <==> keep >= 0.0
  {
    if keep >= 0.0 {
      MulMono(low, high, keep);
    } else {
      MulStrict(low, high, -keep);
    }
  }

  /** A stop is the worse outcome exactly while slippage leaves something of the price. */
  lemma BoundsOrder(c: Config)
    requires c.Sane()
    ensures Worst(c) <= Best(c) <==> c.slippageBps <= 10000.0
  {
    var low, high, keep := 1.0 - c.stopLossPct / 100.0, 1.0 + c.targetPct / 100.0, 1.0 - c.Slippage();
    assert keep >= 0.0 <==> c.slippageBps <= 10000.0;
    TimesOrder(low, high, keep);
  }

  /** Every trade multiplies its capital by a factor between those of a stop and of a target, the stop being the worse
      one exactly if slippage does not exceed the price. */
  lemma TradeBounds(s: Signal, c: Config, capital: real)
    requires c.Sane() && Tradable(s, c)
    ensures Entry(s, c) > 0.0
    ensures var growth := Growth(Simulated(s, c, capital).value.returnPct);
            if c.slippageBps <= 10000.0 then Worst(c) <= growth <= Best(c) else Best(c) <= growth <= Worst(c)
    ensures Worst(c) <= Best(c) <==> c.slippageBps <= 10000.0
  {
    BoundsOrder(c);
    EntryPositive(s, c);
    var window, entry, stop, target := Window(s, c.holdingDays), Entry(s, c), Stop(s, c), Target(s, c);
    var x := CloseFrom(window, stop, target, 0);
    CloseFromIsFirst(window, stop, target, 0);
    MulMono(1.0 - c.stopLossPct / 100.0, 1.0 + c.targetPct / 100.0, entry);
    ClosePriceBounds(window, stop, target, x);
    SignedRatioBounds(entry, x.price, 1.0 - c.stopLossPct / 100.0, 1.0 + c.targetPct / 100.0, 1.0 - c.Slippage());
    GrowthIsRatio(entry, x.price, c);
  }

  /** A stop leaves something only if slippage does not exceed the price. */
  lemma WorstBoundsSlippage(c: Config)
    requires c.Sane() && Worst(c) >= 0.0
    ensures c.slippageBps <= 10000.0
  {
    if c.slippageBps > 10000.0 {
      MulStrict(1.0 - c.Slippage(), 0.0, 1.0 - c.stopLossPct / 100.0);
    }
  }

  lemma GrowthIsRatio(entry: real, price: real, c: Config)
    requires entry != 0.0
    ensures Growth(NetReturnPct(entry, price, c)) == Times(price, 1.0 - c.Slippage()) / entry - c.Cost()
  {
  }
}
