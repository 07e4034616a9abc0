/** nse_dashboard/five_percent_strategy/backtester.py, `run_backtest`: capital slots over a date-sorted signal list. */
module Backtest {
  import opened Values
  import opened Numbers
  import opened TradeSimulation

  /** The slots, the trades so far, and for each trade the slot it used. */
  datatype Book = Book(capital: seq<real>, busy: seq<Option<int>>, trades: seq<Trade>, placed: seq<nat>,
                       curve: seq<real>)

  /** A diversified slot is free again on the exit date, the compounding one only after it. */
  predicate IsFree(busy: Option<int>, date: int, strict: bool) {
    busy.None? || busy.value < date || (!strict && busy.value == date)
  }

  function FirstFree(busy: seq<Option<int>>, date: int, strict: bool): (r: Option<nat>)
    ensures r.Some? ==> r.value < |busy| && IsFree(busy[r.value], date, strict)
    ensures r.Some? ==> forall i :: 0 <= i < r.value ==> !IsFree(busy[i], date, strict)
    ensures r.None? ==> forall i :: 0 <= i < |busy| ==> !IsFree(busy[i], date, strict)
  {
    if busy == [] then None
    else
      var front := FirstFree(busy[..|busy| - 1], date, strict);
      if front.Some? then front
      else if IsFree(busy[|busy| - 1], date, strict) then Some(|busy| - 1)
      else None
  }

  function Take(b: Book, slot: nat, t: Trade): Book
    requires slot < |b.capital| == |b.busy|
  {
    var capital := b.capital[slot := t.capitalAfter];
    Book(capital, b.busy[slot := Some(t.exitDate)], b.trades + [t], b.placed + [slot], b.curve + [Round2(Sum(capital))])
  }

  /** One signal: refused when enough trades were made, when every slot is busy, or when it makes no trade. */
  function Step(c: Config, strict: bool, b: Book, s: Signal): (r: Book)
    requires c.Sane() && |b.capital| == |b.busy|
    ensures |r.capital| == |r.busy| == |b.busy|
  {
    if |b.trades| >= c.maxTrades then b
    else
      var slot := FirstFree(b.busy, s.date, strict);
      if slot.None? || !Tradable(s, c) then b
      else
        EntryPositive(s, c);
        Take(b, slot.value, Simulated(s, c, b.capital[slot.value]).value)
  }

  function Empty(slots: nat, each: real): Book {
    Book(seq(slots, i => each), seq(slots, i => None), [], [], [])
  }

  function Run(c: Config, strict: bool, start: Book, signals: seq<Signal>): (r: Book)
    requires c.Sane() && |start.capital| == |start.busy|
    ensures |r.capital| == |r.busy| == |start.busy|
  {
    if signals == [] then start
    else Step(c, strict, Run(c, strict, start, signals[..|signals| - 1]), signals[|signals| - 1])
  }

  function SlotCount(c: Config): nat { if c.maxConcurrentTrades > 0 then c.maxConcurrentTrades else 0 }

  function PerSlot(c: Config): real {
    c.initialCapital / (if c.maxConcurrentTrades > 1 then c.maxConcurrentTrades else 1) as real
  }

  function DiversifiedStart(c: Config): Book { Empty(SlotCount(c), PerSlot(c)) }

  function CompoundingStart(c: Config): Book { Empty(1, c.initialCapital) }

  // ----- the loops

  /** The diversified branch. */
  method RunDiversified(c: Config, signals: seq<Signal>)
    returns (trades: seq<Trade>, curve: seq<real>, finalCapital: real)
    requires c.Sane()
    ensures var r := Run(c, false, DiversifiedStart(c), signals);
            trades == r.trades && curve == r.curve && finalCapital == Sum(r.capital)
  {
    var slotCapital, busyUntil := seq(SlotCount(c), i => PerSlot(c)), seq(SlotCount(c), i => None);
    ghost var start := DiversifiedStart(c);
    ghost var placed: seq<nat> := [];
    trades, curve := [], [];
    var k := 0;
    while k < |signals|
      invariant 0 <= k <= |signals| && |slotCapital| == |busyUntil|
      invariant Book(slotCapital, busyUntil, trades, placed, curve) == Run(c, false, start, signals[..k])
    {
      var signal := signals[k];
      assert signals[..k + 1][..k] == signals[..k];
      if |trades| >= c.maxTrades {
        FullStays(c, false, start, signals, k);
        break;
      }
      var slot := FirstFree(busyUntil, signal.date, false);
      if slot.Some? {
        var trade := SimulateTrade(signal, c, slotCapital[slot.value]);
        if trade.Some? {
          slotCapital := slotCapital[slot.value := trade.value.capitalAfter];
          busyUntil := busyUntil[slot.value := Some(trade.value.exitDate)];
          trades := trades + [trade.value];
          placed := placed + [slot.value];
          curve := curve + [Round2(Sum(slotCapital))];
        }
      }
      k := k + 1;
    }
    assert k == |signals| ==> signals[..k] == signals;
    finalCapital := Sum(slotCapital);
  }

  /** After the last permitted trade nothing changes any more. */
  lemma {:induction false} FullStays(c: Config, strict: bool, start: Book, signals: seq<Signal>, k: nat)
    requires c.Sane() && |start.capital| == |start.busy| && k <= |signals|
    requires |Run(c, strict, start, signals[..k]).trades| >= c.maxTrades
    ensures Run(c, strict, start, signals) == Run(c, strict, start, signals[..k])
  {
    if k < |signals| {
      var front := signals[..|signals| - 1];
      assert front[..k] == signals[..k];
      FullStays(c, strict, start, front, k);
    } else {
      assert signals[..k] == signals;
    }
  }

  /** The compounding branch: one running capital and one busy date. */
  method RunCompounding(c: Config, signals: seq<Signal>)
    returns (trades: seq<Trade>, curve: seq<real>, finalCapital: real)
    requires c.Sane()
    ensures var r := Run(c, true, CompoundingStart(c), signals);
            trades == r.trades && curve == r.curve && [finalCapital] == r.capital
  {
    var capital, busyUntil := c.initialCapital, None;
    ghost var start := CompoundingStart(c);
    ghost var placed: seq<nat> := [];
    trades, curve := [], [];
    var k := 0;
    while k < |signals|
      invariant 0 <= k <= |signals|
      invariant Book([capital], [busyUntil], trades, placed, curve) == Run(c, true, start, signals[..k])
    {
      var signal := signals[k];
      assert signals[..k + 1][..k] == signals[..k];
      if |trades| >= c.maxTrades {
        FullStays(c, true, start, signals, k);
        break;
      }
      OneSlot(busyUntil, signal.date);
      if busyUntil.None? || signal.date > busyUntil.value {
        var trade := SimulateTrade(signal, c, capital);
        if trade.Some? {
          TakeOne(Book([capital], [busyUntil], trades, placed, curve), trade.value);
          capital := trade.value.capitalAfter;
          busyUntil := Some(trade.value.exitDate);
          trades := trades + [trade.value];
          placed := placed + [0];
          curve := curve + [Round2(capital)];
        }
      }
      k := k + 1;
    }
    assert k == |signals| ==> signals[..k] == signals;
    finalCapital := capital;
  }

  lemma OneSlot(busy: Option<int>, date: int)
    ensures FirstFree([busy], date, true) == if busy.None? || date > busy.value then Some(0) else None
  {
    assert [busy][..0] == [];
  }

  lemma TakeOne(b: Book, t: Trade)
    requires |b.capital| == |b.busy| == 1
    ensures Take(b, 0, t) == Book([t.capitalAfter], [Some(t.exitDate)], b.trades + [t], b.placed + [0],
                                  b.curve + [Round2(t.capitalAfter)])
  {
    assert b.capital[0 := t.capitalAfter] == [t.capitalAfter] && b.busy[0 := Some(t.exitDate)] == [Some(t.exitDate)];
    assert [t.capitalAfter][..0] == [] && Sum([]) == 0.0;
    assert Sum([t.capitalAfter]) == t.capitalAfter;
  }

  // ----- what every run keeps

  ghost predicate Shaped(b: Book) {
    && |b.capital| == |b.busy| && |b.placed| == |b.trades| == |b.curve|
    && forall i :: 0 <= i < |b.placed| ==> b.placed[i] < |b.busy|
  }

  /** A slot is busy until at least the exit of every trade it held, and exactly until one of them. */
  ghost predicate BusyCovers(b: Book)
    requires Shaped(b)
  {
    && (forall i :: 0 <= i < |b.trades| ==>
         b.busy[b.placed[i]].Some? && b.trades[i].exitDate <= b.busy[b.placed[i]].value)
    && (forall s :: 0 <= s < |b.busy| && b.busy[s].Some? ==> LastOf(b, s))
  }

  ghost predicate LastOf(b: Book, s: nat)
    requires Shaped(b) && s < |b.busy| && b.busy[s].Some?
  {
    exists i :: 0 <= i < |b.trades| && b.placed[i] == s && b.trades[i].exitDate == b.busy[s].value
  }

  /** Two trades of one slot: the later one's signal does not precede the earlier one's exit. */
  ghost predicate Separated(b: Book, strict: bool)
    requires Shaped(b)
  {
    forall i, j :: 0 <= i < j < |b.trades| && b.placed[i] == b.placed[j] ==>
      b.trades[i].exitDate <= b.trades[j].entryDate && (strict ==> b.trades[i].exitDate < b.trades[j].entryDate)
  }

  ghost predicate Orderly(b: Book, strict: bool) {
    && Shaped(b) && BusyCovers(b) && Separated(b, strict)
    && forall i :: 0 <= i < |b.trades| ==> b.trades[i].entryDate < b.trades[i].exitDate
  }

  lemma TakeKeepsOrder(b: Book, strict: bool, slot: nat, t: Trade)
    requires Orderly(b, strict) && slot < |b.busy| && IsFree(b.busy[slot], t.entryDate, strict)
             && t.entryDate < t.exitDate
    ensures Orderly(Take(b, slot, t), strict)
  {
    var r := Take(b, slot, t);
    forall s | 0 <= s < |r.busy| && r.busy[s].Some? ensures LastOf(r, s) {
      if s == slot {
        assert r.placed[|b.trades|] == s && r.trades[|b.trades|].exitDate == r.busy[s].value;
      } else {
        var i :| 0 <= i < |b.trades| && b.placed[i] == s && b.trades[i].exitDate == b.busy[s].value;
        assert r.placed[i] == s && r.trades[i].exitDate == r.busy[s].value;
      }
    }
  }

  lemma StepKeepsOrder(c: Config, strict: bool, b: Book, s: Signal)
    requires c.Sane() && Orderly(b, strict)
    ensures Orderly(Step(c, strict, b, s), strict)
  {
    var slot := FirstFree(b.busy, s.date, strict);
    if slot.Some? && Tradable(s, c) {
      TradeFacts(s, c, b.capital[slot.value]);
      TakeKeepsOrder(b, strict, slot.value, Simulated(s, c, b.capital[slot.value]).value);
    }
  }

  /** In every run the (signal date, exit date] intervals of one slot's trades are pairwise disjoint, and in
      compounding mode strictly apart. */
  lemma {:induction false} RunIsOrderly(c: Config, strict: bool, slots: nat, each: real, signals: seq<Signal>)
    requires c.Sane()
    ensures Orderly(Run(c, strict, Empty(slots, each), signals), strict)
    ensures |Run(c, strict, Empty(slots, each), signals).busy| == slots
  {
    if signals != [] {
      RunIsOrderly(c, strict, slots, each, signals[..|signals| - 1]);
      StepKeepsOrder(c, strict, Run(c, strict, Empty(slots, each), signals[..|signals| - 1]), signals[|signals| - 1]);
    }
  }

  // ----- how many trades are open

  /** Whether a trade is still open on a date: until before its exit date, and when `strict` on that date as well. */
  predicate Blocks(t: Trade, date: int, strict: bool) {
    t.entryDate <= date && (date < t.exitDate || (strict && date == t.exitDate))
  }

  ghost function Blocking(b: Book, date: int, strict: bool): set<nat> {
    set i | 0 <= i < |b.trades| && Blocks(b.trades[i], date, strict)
  }

  /** Trades in distinct slots are no more than the slots. */
  lemma {:induction false} DistinctSlots(b: Book, ts: set<nat>, slots: set<nat>)
    requires Shaped(b) && forall i :: i in ts ==> i < |b.trades| && b.placed[i] in slots
    requires forall i, j :: i in ts && j in ts && i != j ==> b.placed[i] != b.placed[j]
    ensures |ts| <= |slots|
  {
    if ts != {} {
      var i :| i in ts;
      DistinctSlots(b, ts - {i}, slots - {b.placed[i]});
    }
  }

  /** The slot numbers below `n`. */
  ghost function SlotSet(n: nat): (r: set<nat>)
    ensures |r| == n && forall s: nat :: s in r <==> s < n
  {
    if n == 0 then {} else SlotSet(n - 1) + {n - 1}
  }

  lemma BlockingInDistinctSlots(b: Book, date: int, strict: bool, i: nat, j: nat)
    requires Orderly(b, strict) && i < j < |b.trades| && Blocks(b.trades[i], date, strict)
             && Blocks(b.trades[j], date, strict)
    ensures b.placed[i] != b.placed[j]
  {
  }

  /** On no date are more trades open than there are slots. */
  lemma OpenTradesBounded(c: Config, strict: bool, slots: nat, each: real, signals: seq<Signal>, date: int)
    requires c.Sane()
    ensures |Blocking(Run(c, strict, Empty(slots, each), signals), date, strict)| <= slots
  {
    RunIsOrderly(c, strict, slots, each, signals);
    var b := Run(c, strict, Empty(slots, each), signals);
    var ts := Blocking(b, date, strict);
    forall i, j | i in ts && j in ts && i != j ensures b.placed[i] != b.placed[j] {
      if i < j {
        BlockingInDistinctSlots(b, date, strict, i, j);
      } else {
        BlockingInDistinctSlots(b, date, strict, j, i);
      }
    }
    DistinctSlots(b, ts, SlotSet(slots));
  }

  /** The slots whose last trade is still open are exactly the busy ones, once every trade's signal lies in the
      past. */
  lemma BusySlotBlocks(b: Book, date: int, strict: bool, s: nat) returns (i: nat)
    requires Orderly(b, strict) && s < |b.busy| && !IsFree(b.busy[s], date, strict)
    requires forall k :: 0 <= k < |b.trades| ==> b.trades[k].entryDate <= date
    ensures i in Blocking(b, date, strict) && b.placed[i] == s
  {
    i :| 0 <= i < |b.trades| && b.placed[i] == s && b.trades[i].exitDate == b.busy[s].value;
  }

  /** Every slot of a set has an open trade, so there are at least as many open trades. */
  lemma {:induction false} EnoughBlocking(b: Book, date: int, strict: bool, slots: set<nat>, ts: set<nat>)
    requires Orderly(b, strict)
    requires forall s :: s in slots ==> exists i :: i in ts && i < |b.placed| && b.placed[i] == s
    ensures |slots| <= |ts|
  {
    if slots != {} {
      var s :| s in slots;
      var i :| i in ts && i < |b.placed| && b.placed[i] == s;
      forall u | u in slots - {s} ensures exists k :: k in ts - {i} && k < |b.placed| && b.placed[k] == u {
        var k :| k in ts && k < |b.placed| && b.placed[k] == u;
        assert k in ts - {i};
      }
      EnoughBlocking(b, date, strict, slots - {s}, ts - {i});
    }
  }

  /** A slot is free exactly when fewer trades are open than there are slots. */
  lemma FreeSlotExactly(b: Book, date: int, strict: bool)
    requires Orderly(b, strict) && forall k :: 0 <= k < |b.trades| ==> b.trades[k].entryDate <= date
    ensures FirstFree(b.busy, date, strict).Some? <==> |Blocking(b, date, strict)| < |b.busy|
  {
    var slot, ts := FirstFree(b.busy, date, strict), Blocking(b, date, strict);
    if slot.Some? {
      forall i | i in ts ensures b.placed[i] in SlotSet(|b.busy|) - {slot.value} {
        assert b.trades[i].exitDate <= b.busy[b.placed[i]].value;
      }
      forall i, j | i in ts && j in ts && i != j ensures b.placed[i] != b.placed[j] {
        if i < j {
          BlockingInDistinctSlots(b, date, strict, i, j);
        } else {
          BlockingInDistinctSlots(b, date, strict, j, i);
        }
      }
      DistinctSlots(b, ts, SlotSet(|b.busy|) - {slot.value});
    } else {
      forall s | s in SlotSet(|b.busy|) ensures exists i :: i in ts && i < |b.placed| && b.placed[i] == s {
        var i := BusySlotBlocks(b, date, strict, s);
      }
      EnoughBlocking(b, date, strict, SlotSet(|b.busy|), ts);
    }
  }

  ghost predicate DateSorted(signals: seq<Signal>) {
    forall i, j :: 0 <= i < j < |signals| ==> signals[i].date <= signals[j].date
  }

  lemma {:induction false} EntriesArePast(c: Config, strict: bool, start: Book, signals: seq<Signal>, date: int)
    requires c.Sane() && |start.capital| == |start.busy| && start.trades == []
    requires forall i :: 0 <= i < |signals| ==> signals[i].date <= date
    ensures forall k :: 0 <= k < |Run(c, strict, start, signals).trades| ==>
              Run(c, strict, start, signals).trades[k].entryDate <= date
  {
    if signals != [] {
      EntriesArePast(c, strict, start, signals[..|signals| - 1], date);
      var b, s := Run(c, strict, start, signals[..|signals| - 1]), signals[|signals| - 1];
      if Tradable(s, c) && FirstFree(b.busy, s.date, strict).Some? {
        TradeFacts(s, c, b.capital[FirstFree(b.busy, s.date, strict).value]);
      }
    }
  }

  /** Over a date-sorted list, a signal becomes a trade exactly when the trade limit is not reached, its window is not
      empty, and fewer trades are open on its date than there are slots. */
  lemma TakenExactly(c: Config, strict: bool, slots: nat, each: real, signals: seq<Signal>, s: Signal)
    requires c.Sane() && DateSorted(signals + [s])
    ensures var b, r := Run(c, strict, Empty(slots, each), signals), Run(c, strict, Empty(slots, each), signals + [s]);
            && r.trades[..|b.trades|] == b.trades
            && |r.trades| == |b.trades|
                             + if |b.trades| < c.maxTrades && Tradable(s, c) && |Blocking(b, s.date, strict)| < slots
                               then 1 else 0
  {
    var start := Empty(slots, each);
    var b := Run(c, strict, start, signals);
    assert (signals + [s])[..|signals|] == signals;
    forall i | 0 <= i < |signals| ensures signals[i].date <= s.date {
      assert (signals + [s])[i] == signals[i] && (signals + [s])[|signals|] == s;
    }
    EntriesArePast(c, strict, start, signals, s.date);
    RunIsOrderly(c, strict, slots, each, signals);
    FreeSlotExactly(b, s.date, strict);
    if Tradable(s, c) && FirstFree(b.busy, s.date, strict).Some? {
      assert Run(c, strict, start, signals + [s]).trades[..|b.trades|] == b.trades;
    }
  }

  // ----- conservation of capital

  lemma {:induction false} SumUpdate(xs: seq<real>, i: nat, x: real)
    requires i < |xs|
    ensures Sum(xs[i := x]) == Sum(xs) - xs[i] + x
  {
    var n := |xs| - 1;
    if i < n {
      SumUpdate(xs[..n], i, x);
      assert xs[i := x][..n] == xs[..n][i := x];
    } else {
      assert xs[i := x][..n] == xs[..n];
    }
  }

  /** The recorded gains of all trades. */
  function Gains(trades: seq<Trade>): real {
    if trades == [] then 0.0
    else Gains(trades[..|trades| - 1]) + (trades[|trades| - 1].capitalAfter - trades[|trades| - 1].capitalBefore)
  }

  function Used(busy: seq<Option<int>>): (n: nat)
    ensures n <= |busy|
  {
    if busy == [] then 0 else Used(busy[..|busy| - 1]) + if busy[|busy| - 1].Some? then 1 else 0
  }

  lemma {:induction false} UsedUpdate(busy: seq<Option<int>>, i: nat, date: int)
    requires i < |busy|
    ensures Used(busy[i := Some(date)]) == Used(busy) + if busy[i].Some? then 0 else 1
  {
    var n := |busy| - 1;
    if i < n {
      UsedUpdate(busy[..n], i, date);
      assert busy[i := Some(date)][..n] == busy[..n][i := Some(date)];
    } else {
      assert busy[i := Some(date)][..n] == busy[..n];
    }
  }

  lemma {:induction false} EmptySums(slots: nat, each: real)
    ensures Sum(Empty(slots, each).capital) == Times(slots as real, each) && Used(Empty(slots, each).busy) == 0
  {
    var b := Empty(slots, each);
    if slots > 0 {
      EmptySums(slots - 1, each);
      assert b.capital[..slots - 1] == Empty(slots - 1, each).capital;
      assert b.busy[..slots - 1] == Empty(slots - 1, each).busy;
    }
  }

  /** What recording a slot's first capital in whole cents leaves out. */
  function Lost(each: real): (d: real)
    ensures -0.005 <= d <= 0.005
  {
    each - Round2(each)
  }

  /** Slot capital is the start and the recorded gains, up to the cents lost once per used slot. A used slot holds whole
      cents. */
  ghost predicate Balanced(b: Book, slots: nat, each: real) {
    && |b.capital| == |b.busy| == slots
    && Sum(b.capital) == Times(slots as real, each) + Gains(b.trades) - Times(Used(b.busy) as real, Lost(each))
    && (forall s :: 0 <= s < slots ==> if b.busy[s].Some? then WholeCents(b.capital[s]) else b.capital[s] == each)
  }

  lemma TimesNext(n: nat, x: real)
    ensures Times((n + 1) as real, x) == Times(n as real, x) + x
  {
  }

  /** How a trade moves the three totals. */
  lemma TakeMovesTotals(b: Book, slot: nat, t: Trade)
    requires |b.capital| == |b.busy| && slot < |b.busy|
    ensures Sum(Take(b, slot, t).capital) == Sum(b.capital) - b.capital[slot] + t.capitalAfter
    ensures Gains(Take(b, slot, t).trades) == Gains(b.trades) + t.capitalAfter - t.capitalBefore
    ensures Used(Take(b, slot, t).busy) == Used(b.busy) + if b.busy[slot].Some? then 0 else 1
  {
    SumUpdate(b.capital, slot, t.capitalAfter);
    UsedUpdate(b.busy, slot, t.exitDate);
    assert (b.trades + [t])[..|b.trades|] == b.trades;
  }

  lemma TakeKeepsBalance(b: Book, slots: nat, each: real, slot: nat, t: Trade)
    requires Balanced(b, slots, each) && slot < slots
    requires t.capitalBefore == Round2(b.capital[slot]) && WholeCents(t.capitalAfter)
    ensures Balanced(Take(b, slot, t), slots, each)
  {
    TakeMovesTotals(b, slot, t);
    TimesNext(Used(b.busy), Lost(each));
    if b.busy[slot].Some? {
      Round2OfCents(b.capital[slot]);
    }
  }

  lemma {:induction false} RunIsBalanced(c: Config, strict: bool, slots: nat, each: real, signals: seq<Signal>)
    requires c.Sane()
    ensures Balanced(Run(c, strict, Empty(slots, each), signals), slots, each)
  {
    if signals == [] {
      EmptySums(slots, each);
    } else {
      RunIsBalanced(c, strict, slots, each, signals[..|signals| - 1]);
      var b, s := Run(c, strict, Empty(slots, each), signals[..|signals| - 1]), signals[|signals| - 1];
      var slot := FirstFree(b.busy, s.date, strict);
      if slot.Some? && Tradable(s, c) {
        TradeFacts(s, c, b.capital[slot.value]);
        TakeKeepsBalance(b, slots, each, slot.value, Simulated(s, c, b.capital[slot.value]).value);
      }
    }
  }

  /** Each point of the equity curve is the initial total and the gains recorded so far, to half a cent per slot and
      half a cent for the point itself. */
  ghost predicate CurvePoint(b: Book, slots: nat, each: real, k: nat)
    requires |b.curve| == |b.trades| && k < |b.curve|
  {
    var expected := Times(slots as real, each) + Gains(b.trades[..k + 1]);
    expected - 0.005 * (slots + 1) as real <= b.curve[k] <= expected + 0.005 * (slots + 1) as real
  }

  ghost predicate CurveFollows(b: Book, slots: nat, each: real) {
    |b.curve| == |b.trades| && forall k: nat :: k < |b.curve| ==> CurvePoint(b, slots, each, k)
  }

  lemma CurveStep(b: Book, slots: nat, each: real, slot: nat, t: Trade)
    requires CurveFollows(b, slots, each) && |b.capital| == |b.busy| && slot < |b.busy|
    requires Balanced(Take(b, slot, t), slots, each)
    ensures CurveFollows(Take(b, slot, t), slots, each)
  {
    var r := Take(b, slot, t);
    BalanceBound(r, slots, each);
    assert r.trades[..|r.trades|] == r.trades;
    forall k: nat | k < |r.curve| ensures CurvePoint(r, slots, each, k) {
      if k < |b.curve| {
        assert CurvePoint(b, slots, each, k);
        assert r.trades[..k + 1] == b.trades[..k + 1];
      }
    }
  }

  lemma {:induction false} CurveExactly(c: Config, strict: bool, slots: nat, each: real, signals: seq<Signal>)
    requires c.Sane()
    ensures CurveFollows(Run(c, strict, Empty(slots, each), signals), slots, each)
  {
    if signals != [] {
      CurveExactly(c, strict, slots, each, signals[..|signals| - 1]);
      RunIsBalanced(c, strict, slots, each, signals);
      var b, s := Run(c, strict, Empty(slots, each), signals[..|signals| - 1]), signals[|signals| - 1];
      var slot := FirstFree(b.busy, s.date, strict);
      if |b.trades| < c.maxTrades && slot.Some? && Tradable(s, c) {
        EntryPositive(s, c);
        CurveStep(b, slots, each, slot.value, Simulated(s, c, b.capital[slot.value]).value);
      }
    }
  }

  lemma TimesMono(a: real, b: real, k: real)
    requires a <= b && k >= 0.0
    ensures Times(a, k) <= Times(b, k) && Times(k, a) <= Times(k, b)
  {
    MulMono(a, b, k);
  }

  lemma SmallLoss(n: nat, slots: nat, d: real)
    requires n <= slots && -0.005 <= d <= 0.005
    ensures -0.005 * slots as real <= Times(n as real, d) <= 0.005 * slots as real
  {
    TimesMono(d, 0.005, n as real);
    TimesMono(-0.005, d, n as real);
    assert n as real <= slots as real;
  }

  lemma BalanceBound(b: Book, slots: nat, each: real)
    requires Balanced(b, slots, each)
    ensures -0.005 * slots as real
            <= Sum(b.capital) - (Times(slots as real, each) + Gains(b.trades)) <= 0.005 * slots as real
    ensures WholeCents(each) ==> Sum(b.capital) == Times(slots as real, each) + Gains(b.trades)
  {
    SmallLoss(Used(b.busy), slots, Lost(each));
    if WholeCents(each) {
      Round2OfCents(each);
      assert Times(Used(b.busy) as real, 0.0) == 0.0;
    }
  }

  /** Final capital is initial capital plus the recorded gains, to half a cent per slot, and exactly if a slot's share
      is whole cents. */
  lemma DiversifiedConserves(c: Config, signals: seq<Signal>)
    requires c.Sane() && c.maxConcurrentTrades >= 1
    ensures var b := Run(c, false, DiversifiedStart(c), signals);
            var expected := c.initialCapital + Gains(b.trades);
            && -0.005 * c.maxConcurrentTrades as real
               <= Sum(b.capital) - expected <= 0.005 * c.maxConcurrentTrades as real
            && (WholeCents(PerSlot(c)) ==> Sum(b.capital) == expected)
  {
    var b := Run(c, false, DiversifiedStart(c), signals);
    RunIsBalanced(c, false, SlotCount(c), PerSlot(c), signals);
    BalanceBound(b, SlotCount(c), PerSlot(c));
    SharesAddUp(c);
  }

  lemma CompoundingConserves(c: Config, signals: seq<Signal>)
    requires c.Sane()
    ensures var b := Run(c, true, CompoundingStart(c), signals);
            var expected := c.initialCapital + Gains(b.trades);
            -0.005 <= b.capital[0] - expected <= 0.005 && (WholeCents(c.initialCapital) ==> b.capital[0] == expected)
  {
    var b := Run(c, true, CompoundingStart(c), signals);
    RunIsBalanced(c, true, 1, c.initialCapital, signals);
    BalanceBound(b, 1, c.initialCapital);
    SharesAddUp(c);
    assert b.capital[..0] == [] && Sum([]) == 0.0;
    assert Sum(b.capital) == b.capital[0];
  }

  lemma {:induction false} NoSlotsNoTrades(c: Config, strict: bool, each: real, signals: seq<Signal>)
    requires c.Sane()
    ensures Run(c, strict, Empty(0, each), signals) == Empty(0, each)
  {
    if signals != [] {
      NoSlotsNoTrades(c, strict, each, signals[..|signals| - 1]);
      assert Empty(0, each).busy == [];
    }
  }

  ghost predicate NothingTradable(c: Config, signals: seq<Signal>) {
    forall i :: 0 <= i < |signals| ==> !Tradable(signals[i], c)
  }

  lemma FreeAtFirst(b: Book, date: int, strict: bool)
    requires Orderly(b, strict) && b.trades == [] && |b.busy| >= 1
    ensures FirstFree(b.busy, date, strict).Some?
  {
    assert IsFree(b.busy[0], date, strict);
  }

  /** With a slot, a run makes no trade exactly when none is permitted or no signal can be traded. */
  lemma {:induction false} NoTradeExactly(c: Config, strict: bool, slots: nat, each: real, signals: seq<Signal>)
    requires c.Sane() && slots >= 1
    ensures Run(c, strict, Empty(slots, each), signals).trades == [] <==>
              c.maxTrades <= 0 || NothingTradable(c, signals)
  {
    if signals != [] {
      var front, s := signals[..|signals| - 1], signals[|signals| - 1];
      var b := Run(c, strict, Empty(slots, each), front);
      NoTradeExactly(c, strict, slots, each, front);
      RunIsOrderly(c, strict, slots, each, front);
      if b.trades == [] {
        FreeAtFirst(b, s.date, strict);
      }
      assert NothingTradable(c, signals) <==> NothingTradable(c, front) && !Tradable(s, c);
    }
  }

  lemma {:induction false} UsedExactly(busy: seq<Option<int>>)
    ensures Used(busy) == 0 <==> forall s :: 0 <= s < |busy| ==> busy[s].None?
  {
    if busy != [] {
      UsedExactly(busy[..|busy| - 1]);
    }
  }

  lemma NothingLost(n: nat, each: real)
    ensures Times(n as real, Lost(each)) == 0.0 <==> n == 0 || WholeCents(each)
  {
    if WholeCents(each) {
      Round2OfCents(each);
    } else if n > 0 {
      assert Lost(each) != 0.0;
    }
  }

  /** Slot capital adds up to the start and the recorded gains exactly when the shares are whole cents or no trade was
      ever possible. */
  lemma SlotsConserveExactly(c: Config, strict: bool, slots: nat, each: real, signals: seq<Signal>)
    requires c.Sane() && slots >= 1
    ensures var b := Run(c, strict, Empty(slots, each), signals);
            Sum(b.capital) == Times(slots as real, each) + Gains(b.trades) <==>
            WholeCents(each) || c.maxTrades <= 0 || NothingTradable(c, signals)
  {
    var b := Run(c, strict, Empty(slots, each), signals);
    RunIsBalanced(c, strict, slots, each, signals);
    RunIsOrderly(c, strict, slots, each, signals);
    NoTradeExactly(c, strict, slots, each, signals);
    UsedExactly(b.busy);
    NothingLost(Used(b.busy), each);
    if b.trades != [] {
      assert b.busy[b.placed[0]].Some?;
    }
  }

  /** Either mode conserves capital exactly when there is a slot and its share of the initial capital is whole cents,
      unless no trade is possible at all: the first trade of a slot records its capital rounded, and without slots the
      whole initial capital disappears from the result. */
  lemma ConservedExactly(c: Config, signals: seq<Signal>)
    requires c.Sane()
    ensures var b := Run(c, false, DiversifiedStart(c), signals);
            Sum(b.capital) == c.initialCapital + Gains(b.trades) <==>
            c.maxConcurrentTrades >= 1 && (WholeCents(PerSlot(c)) || c.maxTrades <= 0 || NothingTradable(c, signals))
    ensures var b := Run(c, true, CompoundingStart(c), signals);
            Sum(b.capital) == c.initialCapital + Gains(b.trades) <==>
            WholeCents(c.initialCapital) || c.maxTrades <= 0 || NothingTradable(c, signals)
  {
    SharesAddUp(c);
    SlotsConserveExactly(c, true, 1, c.initialCapital, signals);
    if c.maxConcurrentTrades >= 1 {
      SlotsConserveExactly(c, false, SlotCount(c), PerSlot(c), signals);
    } else {
      NoSlotsNoTrades(c, false, PerSlot(c), signals);
      assert Empty(0, PerSlot(c)).capital == [];
    }
  }

  lemma ThirdIsNotCents()
    ensures !WholeCents(10000.0 / 3.0)
  {
    var x := 10000.0 / 3.0;
    assert (x * 100.0).Floor == 333333;
    assert Round2(x) != x;
    if WholeCents(x) {
      Round2OfCents(x);
    }
  }

  lemma FirstTradeLosesCents(c: Config, signals: seq<Signal>, i: nat)
    requires c.Sane() && c.maxConcurrentTrades >= 1 && c.maxTrades >= 1 && !WholeCents(PerSlot(c))
    requires i < |signals| && Tradable(signals[i], c)
    ensures var b := Run(c, false, DiversifiedStart(c), signals);
            b.trades != [] && Sum(b.capital) != c.initialCapital + Gains(b.trades)
  {
    ConservedExactly(c, signals);
    NoTradeExactly(c, false, SlotCount(c), PerSlot(c), signals);
  }

  /** A capital of 10000 over three slots and a single signal on two flat bars: the capital does not change by the
      recorded gain. */
  lemma ThirdsLoseCents(symbol: string) returns (c: Config, s: Signal)
    ensures c.Sane() && c.initialCapital == 10000.0 && c.maxConcurrentTrades == 3
    ensures var b := Run(c, false, DiversifiedStart(c), [s]);
            b.trades != [] && Sum(b.capital) != c.initialCapital + Gains(b.trades)
  {
    c := Config(10000.0, 5.0, 2.0, 5, 200, 30.0, 10.0, 3);
    var bar: Candle := CandleFields(0, 100.0, 101.0, 99.0, 100.0);
    var next: Candle := CandleFields(1, 100.0, 101.0, 99.0, 100.0);
    s := SignalFields(symbol, 0, 0, [bar, next]);
    ThirdIsNotCents();
    FirstTradeLosesCents(c, [s], 0);
  }

  lemma SharesAddUp(c: Config)
    ensures c.maxConcurrentTrades >= 1 ==> Times(SlotCount(c) as real, PerSlot(c)) == c.initialCapital
    ensures Times(1.0, c.initialCapital) == c.initialCapital
  {
    var n := c.maxConcurrentTrades as real;
    if c.maxConcurrentTrades >= 1 {
      assert n * (c.initialCapital / n) == c.initialCapital;
    }
  }

  // ----- growth bounds

  /** 1 + x + ... + x^(n-1): what a rounding error of each trade can grow to. */
  function Geometric(x: real, n: nat): real {
    if n == 0 then 0.0 else Times(Geometric(x, n - 1), x) + 1.0
  }

  /** `each` grown n times by `x`, and an error of `e` in each growth. */
  function Grown(each: real, x: real, e: real, n: nat): real { Times(each, Pow(x, n)) + Times(e, Geometric(x, n)) }

  function Low(c: Config, each: real, n: nat): real { Grown(each, Worst(c), -0.005, n) }

  function High(c: Config, each: real, n: nat): real { Grown(each, Best(c), 0.005, n) }

  lemma Distribute(a: real, p: real, e: real, g: real, x: real)
    ensures Times(Times(a, p) + Times(e, g), x) + e == Times(a, x * p) + Times(e, Times(g, x) + 1.0)
  {
    assert Times(a, p) * x == a * (x * p);
    assert Times(e, g) * x == e * (g * x);
  }

  lemma GrownNext(each: real, x: real, e: real, n: nat)
    ensures Grown(each, x, e, n + 1) == Times(Grown(each, x, e, n), x) + e
  {
    Distribute(each, Pow(x, n), e, Geometric(x, n), x);
  }

  lemma ProductBetween(low: real, before: real, high: real, worst: real, growth: real, best: real)
    requires low <= before <= high && before >= 0.0 && 0.0 <= worst <= growth <= best
    ensures Times(low, worst) <= Times(before, growth) <= Times(high, best) && Times(before, growth) >= 0.0
  {
    TimesMono(low, before, worst);
    TimesMono(worst, growth, before);
    TimesMono(growth, best, before);
    TimesMono(before, high, best);
    TimesMono(0.0, before, growth);
    assert Times(0.0, growth) == 0.0;
  }

  lemma GrowthStep(c: Config, each: real, n: nat, before: real, growth: real)
    requires 0.0 <= Worst(c) <= growth <= Best(c) && before >= 0.0
    requires Low(c, each, n) <= before <= High(c, each, n)
    ensures Low(c, each, n + 1) <= Round2(Times(before, growth)) <= High(c, each, n + 1)
    ensures Round2(Times(before, growth)) >= 0.0
  {
    GrownNext(each, Worst(c), -0.005, n);
    GrownNext(each, Best(c), 0.005, n);
    ProductBetween(Low(c, each, n), before, High(c, each, n), Worst(c), growth, Best(c));
    Round2Nonnegative(Times(before, growth));
  }

  function TradesIn(placed: seq<nat>, s: nat): nat {
    if placed == [] then 0 else TradesIn(placed[..|placed| - 1], s) + if placed[|placed| - 1] == s then 1 else 0
  }

  /** Capital between the bounds of a slot with n trades. */
  ghost predicate InBounds(c: Config, each: real, n: nat, x: real) {
    x >= 0.0 && Low(c, each, n) <= x <= High(c, each, n)
  }

  ghost predicate Bounded(c: Config, b: Book, each: real) {
    forall s :: 0 <= s < |b.capital| ==> InBounds(c, each, TradesIn(b.placed, s), b.capital[s])
  }

  lemma TradesInNext(placed: seq<nat>, slot: nat, s: nat)
    ensures TradesIn(placed + [slot], s) == TradesIn(placed, s) + if s == slot then 1 else 0
  {
    assert (placed + [slot])[..|placed|] == placed;
  }

  lemma TakeKeepsBounds(c: Config, b: Book, each: real, slot: nat, t: Trade, growth: real)
    requires |b.capital| == |b.busy| && slot < |b.capital| && Bounded(c, b, each)
    requires 0.0 <= Worst(c) <= growth <= Best(c) && t.capitalAfter == Round2(Times(b.capital[slot], growth))
    ensures Bounded(c, Take(b, slot, t), each)
  {
    var r := Take(b, slot, t);
    assert InBounds(c, each, TradesIn(b.placed, slot), b.capital[slot]);
    GrowthStep(c, each, TradesIn(b.placed, slot), b.capital[slot], growth);
    forall s | 0 <= s < |r.capital| ensures InBounds(c, each, TradesIn(r.placed, s), r.capital[s]) {
      TradesInNext(b.placed, slot, s);
      assert InBounds(c, each, TradesIn(b.placed, s), b.capital[s]);
    }
  }

  /** The larger multiplier, whatever its sign. */
  function Steepest(c: Config): real { Max(Abs(Worst(c)), Abs(Best(c))) }

  /** Capital no further from zero than n trades at the larger multiplier can take it. */
  ghost predicate InReach(c: Config, each: real, n: nat, x: real) {
    Abs(x) <= Grown(Abs(each), Steepest(c), 0.005, n)
  }

  ghost predicate Reached(c: Config, b: Book, each: real) {
    forall s :: 0 <= s < |b.capital| ==> InReach(c, each, TradesIn(b.placed, s), b.capital[s])
  }

  lemma AbsProduct(x: real, y: real, m: real, k: real)
    requires Abs(x) <= m && Abs(y) <= k
    ensures Abs(Times(x, y)) <= Times(m, k)
  {
    var a, b := Abs(x), Abs(y);
    TimesMono(a, m, b);
    TimesMono(b, k, m);
    assert Times(-x, y) == -Times(x, y) && Times(x, -y) == -Times(x, y) && Times(-x, -y) == Times(x, y);
    TimesMono(0.0, a, b);
    assert Times(0.0, b) == 0.0;
  }

  lemma ReachStep(c: Config, each: real, n: nat, before: real, growth: real)
    requires InReach(c, each, n, before) && Abs(growth) <= Steepest(c)
    ensures InReach(c, each, n + 1, Round2(Times(before, growth)))
  {
    GrownNext(Abs(each), Steepest(c), 0.005, n);
    AbsProduct(before, growth, Grown(Abs(each), Steepest(c), 0.005, n), Steepest(c));
  }

  lemma TakeKeepsReach(c: Config, b: Book, each: real, slot: nat, t: Trade, growth: real)
    requires |b.capital| == |b.busy| && slot < |b.capital| && Reached(c, b, each)
    requires Abs(growth) <= Steepest(c) && t.capitalAfter == Round2(Times(b.capital[slot], growth))
    ensures Reached(c, Take(b, slot, t), each)
  {
    var r := Take(b, slot, t);
    ReachStep(c, each, TradesIn(b.placed, slot), b.capital[slot], growth);
    forall s | 0 <= s < |r.capital| ensures InReach(c, each, TradesIn(r.placed, s), r.capital[s]) {
      TradesInNext(b.placed, slot, s);
      assert InReach(c, each, TradesIn(b.placed, s), b.capital[s]);
    }
  }

  lemma StartIsBounded(c: Config, slots: nat, each: real)
    ensures Reached(c, Empty(slots, each), each)
    ensures each >= 0.0 ==> Bounded(c, Empty(slots, each), each)
  {
    assert Pow(Worst(c), 0) == 1.0 && Pow(Best(c), 0) == 1.0 && Pow(Steepest(c), 0) == 1.0;
    assert Times(each, 1.0) == each && Times(Abs(each), 1.0) == Abs(each);
  }

  /** What one trade multiplies by, in the forms that the bounds need. */
  lemma GrowthFacts(s: Signal, c: Config, capital: real)
    requires c.Sane() && Tradable(s, c)
    ensures Entry(s, c) > 0.0
    ensures var t := Simulated(s, c, capital).value;
            && t.capitalAfter == Round2(Times(capital, Growth(t.returnPct))) && Abs(Growth(t.returnPct)) <= Steepest(c)
            && (Worst(c) >= 0.0 ==> Worst(c) <= Growth(t.returnPct) <= Best(c))
  {
    TradeFacts(s, c, capital);
    TradeBounds(s, c, capital);
    if Worst(c) >= 0.0 {
      WorstBoundsSlippage(c);
    }
  }

  /** For every configuration, capital after the n trades of a slot is no further from zero than the n-th power of the
      larger multiplier takes the start, up to half a cent per trade grown at the same rate. Where a stop leaves
      something, it lies between the start times the n-th powers of the worst and the best multiplier, with the same
      allowance, and is not negative. */
  lemma {:induction false} RunIsBounded(c: Config, strict: bool, slots: nat, each: real, signals: seq<Signal>)
    requires c.Sane()
    ensures Reached(c, Run(c, strict, Empty(slots, each), signals), each)
    ensures Worst(c) >= 0.0 && each >= 0.0 ==> Bounded(c, Run(c, strict, Empty(slots, each), signals), each)
  {
    if signals == [] {
      StartIsBounded(c, slots, each);
    } else {
      RunIsBounded(c, strict, slots, each, signals[..|signals| - 1]);
      var b, s := Run(c, strict, Empty(slots, each), signals[..|signals| - 1]), signals[|signals| - 1];
      var slot := FirstFree(b.busy, s.date, strict);
      if slot.Some? && Tradable(s, c) {
        GrowthFacts(s, c, b.capital[slot.value]);
        var t := Simulated(s, c, b.capital[slot.value]).value;
        TakeKeepsReach(c, b, each, slot.value, t, Growth(t.returnPct));
        if Worst(c) >= 0.0 && each >= 0.0 {
          TakeKeepsBounds(c, b, each, slot.value, t, Growth(t.returnPct));
        }
      }
    }
  }

  lemma {:induction false} OneSlotHoldsAll(placed: seq<nat>)
    requires forall i :: 0 <= i < |placed| ==> placed[i] == 0
    ensures TradesIn(placed, 0) == |placed|
  {
    if placed != [] {
      OneSlotHoldsAll(placed[..|placed| - 1]);
    }
  }

  /** The bounds for all trades of the compounding mode. */
  lemma CompoundingBounds(c: Config, signals: seq<Signal>)
    requires c.Sane()
    ensures var b := Run(c, true, CompoundingStart(c), signals);
            && InReach(c, c.initialCapital, |b.trades|, b.capital[0])
            && (Worst(c) >= 0.0 ==> InBounds(c, c.initialCapital, |b.trades|, b.capital[0]))
  {
    var b := Run(c, true, CompoundingStart(c), signals);
    RunIsBounded(c, true, 1, c.initialCapital, signals);
    RunIsOrderly(c, true, 1, c.initialCapital, signals);
    OneSlotHoldsAll(b.placed);
    assert 0 < |b.capital|;
  }
}
