/** nse_dashboard/five_percent_strategy/backtester.py, `_summarize` and the whole backtest. */
module BacktestReport {
  import opened Numbers
  import opened TradeSimulation
  import opened Backtest

  // ----- the running-peak drawdown

  /** The change from one capital to another in percent; zero when there is nothing to compare with. */
  function Change(from: real, to: real): real {
    if from == 0.0 then 0.0 else (to / from - 1.0) * 100.0
  }

  /** The change, cleared of its denominator. */
  lemma ChangeExactly(from: real, to: real)
    ensures Change(from, to) * from == if from == 0.0 then 0.0 else 100.0 * (to - from)
    ensures from == 0.0 ==> Change(from, to) == 0.0
  {
    if from != 0.0 {
      assert to / from * from == to;
    }
  }

  lemma ChangeOrder(low: real, high: real, to: real)
    requires 0.0 < low <= high && to >= 0.0
    ensures Change(high, to) <= Change(low, to)
  {
    var x, y := to / high, to / low;
    assert x * high == to && y * low == to;
    if y < x {
      MulStrict(y, x, low);
      MulMono(low, high, x);
      assert x >= 0.0 by {
        if x < 0.0 {
          MulStrict(x, 0.0, high);
        }
      }
    }
  }

  lemma ChangeOrderBelowZero(low: real, high: real, to: real)
    requires 0.0 < low <= high && to < 0.0
    ensures Change(low, to) <= Change(high, to)
  {
    var x, y := to / high, to / low;
    assert x * high == to && y * low == to;
    assert x < 0.0 by {
      if x >= 0.0 {
        MulMono(0.0, x, high);
      }
    }
    if y > x {
      MulStrict(x, y, low);
      MulMono(low, high, -x);
    }
  }

  /** The worst change from any point of the list to the same or a later one, among points with capital. */
  ghost predicate IsWorstDrop(xs: seq<real>, d: real) {
    && (forall i, j :: 0 <= i <= j < |xs| && xs[i] > 0.0 ==> d <= Change(xs[i], xs[j]))
    && (d == 0.0 || exists i, j :: 0 <= i <= j < |xs| && xs[i] > 0.0 && Change(xs[i], xs[j]) == d)
  }

  ghost predicate IsPeak(xs: seq<real>, p: real) {
    (forall i :: 0 <= i < |xs| ==> xs[i] <= p) && p in xs
  }

  /** Point `i` is the highest of the points up to `j`. */
  ghost predicate IsPeakAt(xs: seq<real>, i: int, j: int) {
    0 <= i <= j < |xs| && forall k :: 0 <= k <= j ==> xs[k] <= xs[i]
  }

  /** The least change, by some measure, from a peak to a point for which it is the peak, and zero if there is none. */
  ghost predicate IsPeakDrop(change: (real, real) -> real, xs: seq<real>, d: real) {
    && d <= 0.0 && (forall i, j :: IsPeakAt(xs, i, j) ==> d <= change(xs[i], xs[j]))
    && (d == 0.0 || exists i, j :: IsPeakAt(xs, i, j) && change(xs[i], xs[j]) == d)
  }

  lemma NextPeak(xs: seq<real>, x: real, peak: real) returns (where: nat)
    requires IsPeak(xs, peak)
    ensures IsPeak(xs + [x], Max(peak, x))
    ensures IsPeakAt(xs + [x], where, |xs|) && (xs + [x])[where] == Max(peak, x)
  {
    var ys := xs + [x];
    var at: nat :| at < |xs| && xs[at] == peak;
    where := if peak >= x then at else |xs|;
    assert ys[where] == Max(peak, x);
  }

  /** A peak before the last point is a peak of the list without it. */
  lemma PeakBefore(xs: seq<real>, x: real, i: int, j: int)
    requires j < |xs|
    ensures IsPeakAt(xs + [x], i, j) <==> IsPeakAt(xs, i, j)
    ensures IsPeakAt(xs, i, j) ==> (xs + [x])[i] == xs[i] && (xs + [x])[j] == xs[j]
  {
    if IsPeakAt(xs + [x], i, j) {
      assert forall k :: 0 <= k <= j ==> (xs + [x])[k] == xs[k];
    }
  }

  lemma NextDrop(change: (real, real) -> real, xs: seq<real>, x: real, peak: real, drop: real)
    requires IsPeak(xs, peak) && IsPeakDrop(change, xs, drop)
    ensures IsPeak(xs + [x], Max(peak, x))
    ensures IsPeakDrop(change, xs + [x], Min(drop, change(Max(peak, x), x)))
  {
    var ys, fall := xs + [x], change(Max(peak, x), x);
    var where := NextPeak(xs, x, peak);
    forall i, j | IsPeakAt(ys, i, j) ensures Min(drop, fall) <= change(ys[i], ys[j]) {
      if j < |xs| {
        PeakBefore(xs, x, i, j);
      } else {
        assert ys[where] <= ys[i] <= ys[where];
      }
    }
    if fall < drop {
      assert change(ys[where], ys[|xs|]) == fall;
    } else if drop != 0.0 {
      var i, j :| IsPeakAt(xs, i, j) && change(xs[i], xs[j]) == drop;
      PeakBefore(xs, x, i, j);
    }
  }

  ghost predicate NoDebt(xs: seq<real>) { forall i :: 0 <= i < |xs| ==> xs[i] >= 0.0 }

  lemma FirstPoint(x: real)
    ensures IsPeak([x], x) && IsPeakDrop(Change, [x], 0.0)
  {
    assert [x][0] == x;
    if x != 0.0 {
      assert x / x == 1.0;
    }
  }

  lemma {:induction false} PeakExists(xs: seq<real>, j: nat) returns (i: nat)
    requires j < |xs|
    ensures IsPeakAt(xs, i, j)
  {
    if j == 0 {
      i := 0;
    } else {
      i := PeakExists(xs, j - 1);
      if xs[j] > xs[i] {
        i := j;
      }
    }
  }

  /** Point `i` is the least of the points with capital up to `j`. */
  ghost predicate IsLeastAt(xs: seq<real>, i: int, j: int) {
    0 <= i <= j < |xs| && xs[i] > 0.0 && forall k :: 0 <= k <= j && xs[k] > 0.0 ==> xs[i] <= xs[k]
  }

  lemma {:induction false} LeastExists(xs: seq<real>, from: nat, j: nat) returns (i: nat)
    requires from <= j < |xs| && xs[from] > 0.0
    ensures IsLeastAt(xs, i, j)
    decreases j
  {
    if j == 0 {
      i := 0;
    } else if forall k :: 0 <= k < j ==> xs[k] <= 0.0 {
      i := j;
    } else {
      var k: nat :| k < j && xs[k] > 0.0;
      i := LeastExists(xs, k, j - 1);
      if 0.0 < xs[j] < xs[i] {
        i := j;
      }
    }
  }

  /** No point below zero falls further than `d` from the least point with capital before it. */
  ghost predicate DebtsCovered(xs: seq<real>, d: real) {
    forall i, j :: IsLeastAt(xs, i, j) && xs[j] < 0.0 ==> d <= Change(xs[i], xs[j])
  }

  lemma PairCovered(xs: seq<real>, d: real, i: nat, j: nat)
    requires IsPeakDrop(Change, xs, d) && DebtsCovered(xs, d) && i <= j < |xs| && xs[i] > 0.0
    ensures d <= Change(xs[i], xs[j])
  {
    if xs[j] >= 0.0 {
      var p := PeakExists(xs, j);
      ChangeOrder(xs[i], xs[p], xs[j]);
    } else {
      var m := LeastExists(xs, i, j);
      ChangeOrderBelowZero(xs[m], xs[i], xs[j]);
    }
  }

  lemma AllPairsCovered(xs: seq<real>, d: real)
    requires IsPeakDrop(Change, xs, d) && DebtsCovered(xs, d)
    ensures forall i, j :: 0 <= i <= j < |xs| && xs[i] > 0.0 ==> d <= Change(xs[i], xs[j])
  {
    forall i, j | 0 <= i <= j < |xs| && xs[i] > 0.0 ensures d <= Change(xs[i], xs[j]) {
      PairCovered(xs, d, i, j);
    }
  }

  lemma DropAttained(xs: seq<real>, d: real)
    requires IsPeakDrop(Change, xs, d) && d != 0.0 && (NoDebt(xs) || (xs != [] && xs[0] > 0.0))
    ensures exists i, j :: 0 <= i <= j < |xs| && xs[i] > 0.0 && Change(xs[i], xs[j]) == d
  {
    var i, j :| IsPeakAt(xs, i, j) && Change(xs[i], xs[j]) == d;
    assert xs[0] <= xs[i];
  }

  /** While no point is negative, no pair of points falls further than the worst fall from a peak. */
  lemma PeakDropIsWorst(xs: seq<real>, d: real)
    requires NoDebt(xs) && IsPeakDrop(Change, xs, d)
    ensures IsWorstDrop(xs, d)
  {
    AllPairsCovered(xs, d);
    if d != 0.0 {
      DropAttained(xs, d);
    }
  }

  /** From a positive start, the worst fall from a peak is the worst fall between any two points if and only if no point
      below zero falls further from the least point with capital before it. */
  lemma WorstDropExactly(xs: seq<real>, d: real)
    requires IsPeakDrop(Change, xs, d) && xs != [] && xs[0] > 0.0
    ensures IsWorstDrop(xs, d) <==> DebtsCovered(xs, d)
  {
    if DebtsCovered(xs, d) {
      AllPairsCovered(xs, d);
      if d != 0.0 {
        DropAttained(xs, d);
      }
    }
  }

  /** A curve that loses half and then everything and more: the fall from the peak is 110%, the one from the point in
      between 120%. */
  lemma DebtFallsFurther()
    ensures IsPeakDrop(Change, [100.0, 50.0, -10.0], -110.0) && !IsWorstDrop([100.0, 50.0, -10.0], -110.0)
  {
    var xs := [100.0, 50.0, -10.0];
    assert IsPeakAt(xs, 0, 2) && Change(xs[0], xs[2]) == -110.0;
    assert Change(xs[0], xs[1]) == -50.0 && Change(xs[0], xs[0]) == 0.0;
    assert Change(xs[1], xs[2]) == -120.0;
  }

  /** The running peak and the worst fall of the points seen so far. */
  ghost predicate Tracked(xs: seq<real>, peak: real, drop: real) { IsPeak(xs, peak) && IsPeakDrop(Change, xs, drop) }

  /** The initial capital and the first `k` points of the curve. */
  ghost function PointsTo(initialCapital: real, curve: seq<real>, k: nat): seq<real>
    requires k <= |curve|
  {
    [initialCapital] + curve[..k]
  }

  lemma PointsNext(initialCapital: real, curve: seq<real>, k: nat)
    requires k < |curve|
    ensures PointsTo(initialCapital, curve, k) + [curve[k]] == PointsTo(initialCapital, curve, k + 1)
  {
  }

  lemma TrackNext(initialCapital: real, curve: seq<real>, k: nat, peak: real, drop: real)
    requires k < |curve| && Tracked(PointsTo(initialCapital, curve, k), peak, drop)
    ensures var next := Max(peak, curve[k]);
            Tracked(PointsTo(initialCapital, curve, k + 1), next, Min(drop, Change(next, curve[k])))
  {
    NextDrop(Change, PointsTo(initialCapital, curve, k), curve[k], peak, drop);
    PointsNext(initialCapital, curve, k);
  }

  lemma TrackFirst(initialCapital: real, curve: seq<real>)
    ensures Tracked(PointsTo(initialCapital, curve, 0), initialCapital, 0.0)
  {
    FirstPoint(initialCapital);
    assert PointsTo(initialCapital, curve, 0) == [initialCapital];
  }

  lemma TrackedAll(initialCapital: real, curve: seq<real>, peak: real, drop: real)
    requires Tracked(PointsTo(initialCapital, curve, |curve|), peak, drop)
    ensures IsPeakDrop(Change, [initialCapital] + curve, drop)
    ensures NoDebt([initialCapital] + curve) ==> IsWorstDrop([initialCapital] + curve, drop)
    ensures initialCapital > 0.0 ==>
              (IsWorstDrop([initialCapital] + curve, drop) <==> DebtsCovered([initialCapital] + curve, drop))
  {
    var xs := [initialCapital] + curve;
    assert PointsTo(initialCapital, curve, |curve|) == xs;
    if NoDebt(xs) {
      PeakDropIsWorst(xs, drop);
    }
    if initialCapital > 0.0 {
      WorstDropExactly(xs, drop);
    }
  }

  /** The single pass of `_summarize` computes the worst fall from a peak of the initial capital followed by the equity
      curve. As long as no point is negative that is the worst fall between any two points, and from a positive start
      exactly as long as no point below zero falls further from the least point with capital before it. */
  method MaxDrawdownPct(initialCapital: real, curve: seq<real>) returns (drawdown: real)
    ensures IsPeakDrop(Change, [initialCapital] + curve, drawdown)
    ensures NoDebt([initialCapital] + curve) ==> IsWorstDrop([initialCapital] + curve, drawdown)
    ensures initialCapital > 0.0 ==>
              (IsWorstDrop([initialCapital] + curve, drawdown) <==> DebtsCovered([initialCapital] + curve, drawdown))
  {
    var peak := initialCapital;
    drawdown := 0.0;
    TrackFirst(initialCapital, curve);
    for k := 0 to |curve|
      invariant Tracked(PointsTo(initialCapital, curve, k), peak, drawdown)
    {
      TrackNext(initialCapital, curve, k, peak, drawdown);
      peak := Max(peak, curve[k]);
      drawdown := Min(drawdown, Change(peak, curve[k]));
    }
    TrackedAll(initialCapital, curve, peak, drawdown);
  }

  // ----- streaks

  ghost predicate IsBlock(trades: seq<Trade>, win: bool, from: int, to: int) {
    0 <= from <= to <= |trades| && forall k :: from <= k < to ==> trades[k].win == win
  }

  /** The length of the longest contiguous block of trades with one result among the first `end`. */
  ghost predicate IsLongest(trades: seq<Trade>, win: bool, end: int, n: int) {
    && (exists from, to :: IsBlock(trades, win, from, to) && to <= end && to - from == n)
    && forall from, to :: IsBlock(trades, win, from, to) && to <= end ==> to - from <= n
  }

  /** The block that ends at `end` and cannot be extended to the left. */
  ghost predicate IsCurrent(trades: seq<Trade>, win: bool, end: int, n: nat) {
    && IsBlock(trades, win, end - n, end)
    && (n < end ==> trades[end - n - 1].win != win)
  }

  lemma CurrentIsLongestThere(trades: seq<Trade>, win: bool, from: int, end: int, n: nat)
    requires IsCurrent(trades, win, end, n) && IsBlock(trades, win, from, end)
    ensures end - from <= n
  {
    assert end - n - 1 < from || n >= end;
  }

  /** `_longest_streak`. */
  method LongestStreak(trades: seq<Trade>, win: bool) returns (longest: nat)
    ensures IsLongest(trades, win, |trades|, longest)
  {
    longest := 0;
    var current: nat := 0;
    assert IsBlock(trades, win, 0, 0);
    for k := 0 to |trades|
      invariant IsCurrent(trades, win, k, current)
      invariant IsLongest(trades, win, k, longest) && current <= longest
    {
      ghost var before := longest;
      if trades[k].win == win {
        current := current + 1;
        if current > longest {
          longest := current;
        }
      } else {
        current := 0;
      }
      NextLongest(trades, win, k, before, current);
    }
  }

  lemma NextLongest(trades: seq<Trade>, win: bool, k: nat, before: nat, current: nat)
    requires k < |trades| && IsLongest(trades, win, k, before) && IsCurrent(trades, win, k + 1, current)
    ensures IsLongest(trades, win, k + 1, if current > before then current else before)
  {
    forall from, to | IsBlock(trades, win, from, to) && to <= k + 1
      ensures to - from <= if current > before then current else before
    {
      if to == k + 1 {
        CurrentIsLongestThere(trades, win, from, k + 1, current);
      }
    }
    assert IsBlock(trades, win, k + 1 - current, k + 1);
    var from, to :| IsBlock(trades, win, from, to) && to <= k && to - from == before;
  }

  // ----- the whole backtest

  datatype Report = Report(trades: seq<Trade>, curve: seq<real>, finalCapital: real, maxDrawdownPct: real,
                           longestWinStreak: nat, longestLossStreak: nat)

  lemma {:induction false} SumNonnegative(xs: seq<real>)
    requires forall i :: 0 <= i < |xs| ==> xs[i] >= 0.0
    ensures Sum(xs) >= 0.0
  {
    if xs != [] {
      SumNonnegative(xs[..|xs| - 1]);
    }
  }

  /** The equity curve never dips below zero while a stop leaves something after slippage and costs. */
  lemma {:induction false} CurveNonnegative(c: Config, strict: bool, slots: nat, each: real, signals: seq<Signal>)
    requires c.Sane() && Worst(c) >= 0.0 && each >= 0.0
    ensures forall i :: 0 <= i < |Run(c, strict, Empty(slots, each), signals).curve| ==>
              Run(c, strict, Empty(slots, each), signals).curve[i] >= 0.0
  {
    if signals != [] {
      var front := signals[..|signals| - 1];
      CurveNonnegative(c, strict, slots, each, front);
      RunIsBounded(c, strict, slots, each, signals);
      var b, r := Run(c, strict, Empty(slots, each), front), Run(c, strict, Empty(slots, each), signals);
      SumNonnegative(r.capital);
      Round2Nonnegative(Sum(r.capital));
    }
  }

  lemma NoDebtFrom(x: real, curve: seq<real>)
    requires x >= 0.0 && forall i :: 0 <= i < |curve| ==> curve[i] >= 0.0
    ensures NoDebt([x] + curve)
  {
  }

  lemma DiversifiedCurve(c: Config, signals: seq<Signal>)
    requires c.Sane() && Worst(c) >= 0.0
    ensures NoDebt([c.initialCapital] + Run(c, false, DiversifiedStart(c), signals).curve)
  {
    ShareNonnegative(c);
    CurveNonnegative(c, false, SlotCount(c), PerSlot(c), signals);
    NoDebtFrom(c.initialCapital, Run(c, false, DiversifiedStart(c), signals).curve);
  }

  lemma CompoundingCurve(c: Config, signals: seq<Signal>)
    requires c.Sane() && Worst(c) >= 0.0
    ensures NoDebt([c.initialCapital] + Run(c, true, CompoundingStart(c), signals).curve)
  {
    CurveNonnegative(c, true, 1, c.initialCapital, signals);
    NoDebtFrom(c.initialCapital, Run(c, true, CompoundingStart(c), signals).curve);
  }

  /** The book at the end of the run in either mode. */
  ghost function FinalBook(c: Config, diversify: bool, signals: seq<Signal>): Book
    requires c.Sane()
  {
    if diversify then Run(c, false, DiversifiedStart(c), signals) else Run(c, true, CompoundingStart(c), signals)
  }

  /** `run_backtest` on the generated signals. */
  method RunBacktest(c: Config, diversify: bool, signals: seq<Signal>) returns (r: Report)
    requires c.Sane()
    ensures var b := FinalBook(c, diversify, signals);
            r.trades == b.trades && r.curve == b.curve && r.finalCapital == Sum(b.capital)
    ensures IsPeakDrop(Change, [c.initialCapital] + r.curve, r.maxDrawdownPct)
    ensures Worst(c) >= 0.0 ==> IsWorstDrop([c.initialCapital] + r.curve, r.maxDrawdownPct)
    ensures IsWorstDrop([c.initialCapital] + r.curve, r.maxDrawdownPct) <==>
            DebtsCovered([c.initialCapital] + r.curve, r.maxDrawdownPct)
    ensures IsLongest(r.trades, true, |r.trades|, r.longestWinStreak)
    ensures IsLongest(r.trades, false, |r.trades|, r.longestLossStreak)
  {
    var trades, curve, finalCapital;
    if diversify {
      trades, curve, finalCapital := RunDiversified(c, signals);
    } else {
      trades, curve, finalCapital := RunCompounding(c, signals);
      SumOfOne(finalCapital);
    }
    if Worst(c) >= 0.0 {
      DiversifiedCurve(c, signals);
      CompoundingCurve(c, signals);
    }
    var drawdown := MaxDrawdownPct(c.initialCapital, curve);
    var wins := LongestStreak(trades, true);
    var losses := LongestStreak(trades, false);
    r := Report(trades, curve, finalCapital, drawdown, wins, losses);
  }

  lemma SumOfOne(x: real)
    ensures Sum([x]) == x
  {
    assert [x][..0] == [] && Sum([]) == 0.0;
  }

  lemma ShareNonnegative(c: Config)
    requires c.Sane()
    ensures PerSlot(c) >= 0.0
  {
    var n := (if c.maxConcurrentTrades > 1 then c.maxConcurrentTrades else 1) as real;
    DivMono(0.0, c.initialCapital, n);
  }
}
