/** nse_dashboard/trading/chartink.py: the MACD trend screen and its bearish inverse. */
module Chartink {
  import opened Values
  import opened Numbers
  import opened Series

  // ----- directional movement, `_adx`

  function Up(bars: seq<Bar>, i: nat): real
    requires 0 < i < |bars|
  {
    bars[i].high - bars[i - 1].high
  }

  function Down(bars: seq<Bar>, i: nat): real
    requires 0 < i < |bars|
  {
    -(bars[i].low - bars[i - 1].low)
  }

  /** `gain.where((gain > loss) & (gain > 0), 0.0)`; the first difference is missing, so 0. */
  function Movement(gain: real, loss: real): real {
    if gain > loss && gain > 0.0 then gain else 0.0
  }

  function PlusDm(bars: seq<Bar>): (r: seq<Cell>)
    ensures |r| == |bars|
  {
    seq(|bars|, i requires 0 <= i < |bars| => Some(if i == 0 then 0.0 else Movement(Up(bars, i), Down(bars, i))))
  }

  function MinusDm(bars: seq<Bar>): (r: seq<Cell>)
    ensures |r| == |bars|
  {
    seq(|bars|, i requires 0 <= i < |bars| => Some(if i == 0 then 0.0 else Movement(Down(bars, i), Up(bars, i))))
  }

  /** `100 * movement / range` on one bar; 0 / 0 is NaN. */
  function IndexCell(movement: Cell, range: Cell): Cell {
    if movement.None? || range.None? || range.value == 0.0 then None
    else Some(100.0 * movement.value / range.value)
  }

  function DirectionalIndex(bars: seq<Bar>, movement: seq<Cell>, period: nat): (r: seq<Cell>)
    requires period > 1 && |movement| == |bars|
    ensures |r| == |bars|
  {
    var averaged := Ewm(movement, WilderAlpha(period), period);
    seq(|bars|, i requires 0 <= i < |bars| => IndexCell(averaged[i], AverageRange(bars, period)[i]))
  }

  function PlusDi(bars: seq<Bar>, period: nat): (r: seq<Cell>)
    requires period > 1
    ensures |r| == |bars|
  {
    DirectionalIndex(bars, PlusDm(bars), period)
  }

  function MinusDi(bars: seq<Bar>, period: nat): (r: seq<Cell>)
    requires period > 1
    ensures |r| == |bars|
  {
    DirectionalIndex(bars, MinusDm(bars), period)
  }

  /** The directional spread; a zero denominator is replaced by 1e-12. */
  function DxCell(plus: Cell, minus: Cell): Cell {
    if plus.None? || minus.None? then None
    else
      var total := plus.value + minus.value;
      var denominator := if total == 0.0 then 0.000000000001 else total;
      Some(100.0 * Abs(plus.value - minus.value) / denominator)
  }

  function Dx(bars: seq<Bar>, period: nat): (r: seq<Cell>)
    requires period > 1
    ensures |r| == |bars|
  {
    seq(|bars|, i requires 0 <= i < |bars| => DxCell(PlusDi(bars, period)[i], MinusDi(bars, period)[i]))
  }

  function Adx(bars: seq<Bar>, period: nat): (r: seq<Cell>)
    requires period > 1
    ensures |r| == |bars|
  {
    Ewm(Dx(bars, period), WilderAlpha(period), period)
  }

  // ----- the moving averages

  function Closes(bars: seq<Bar>): (r: seq<Cell>)
    ensures |r| == |bars|
  {
    seq(|bars|, i requires 0 <= i < |bars| => Some(bars[i].close))
  }

  function Ema(bars: seq<Bar>, span: nat): (r: seq<Cell>)
    requires span > 1
    ensures |r| == |bars|
  {
    Ewm(Closes(bars), SpanAlpha(span), 0)
  }

  function Minus(a: Cell, b: Cell): Cell {
    if a.None? || b.None? then None else Some(a.value - b.value)
  }

  function Difference(xs: seq<Cell>, ys: seq<Cell>): (r: seq<Cell>)
    requires |xs| == |ys|
    ensures |r| == |xs|
  {
    seq(|xs|, i requires 0 <= i < |xs| => Minus(xs[i], ys[i]))
  }

  function Macd(bars: seq<Bar>): (r: seq<Cell>)
    ensures |r| == |bars|
  {
    Difference(Ema(bars, 12), Ema(bars, 26))
  }

  function MacdSignal(bars: seq<Bar>): (r: seq<Cell>)
    ensures |r| == |bars|
  {
    Ewm(Macd(bars), SpanAlpha(9), 0)
  }

  function Histogram(bars: seq<Bar>): (r: seq<Cell>)
    ensures |r| == |bars|
  {
    Difference(Macd(bars), MacdSignal(bars))
  }

  // ----- the screen

  datatype Signal = BUY | SELL | HOLD

  datatype ScreenError = TooFewBars

  /** What the two condition sets look at: the last bar, and the one before where a crossing matters. */
  datatype Reading = Reading(
    macd: Cell, macdBefore: Cell, macdSignal: Cell, macdSignalBefore: Cell,
    histogram: Cell, histogramBefore: Cell, ema21: Cell, ema50: Cell, ema200: Cell,
    adx: Cell, plusDi: Cell, minusDi: Cell)

  datatype Conditions = Conditions(
    macdSide: bool, signalSide: bool, macdCross: bool, histogramMoves: bool,
    emasOrdered: bool, adxAbove25: bool, adxAboveDi: bool, diOrdered: bool)
  {
    predicate All() {
      macdSide && signalSide && macdCross && histogramMoves && emasOrdered && adxAbove25 && adxAboveDi && diOrdered
    }
  }

  function ReadLast(bars: seq<Bar>): Reading
    requires |bars| >= 2
  {
    var n := |bars| - 1;
    Reading(Macd(bars)[n], Macd(bars)[n - 1], MacdSignal(bars)[n], MacdSignal(bars)[n - 1],
            Histogram(bars)[n], Histogram(bars)[n - 1], Ema(bars, 21)[n], Ema(bars, 50)[n], Ema(bars, 200)[n],
            Adx(bars, 14)[n], PlusDi(bars, 14)[n], MinusDi(bars, 14)[n])
  }

  const ZERO: Cell := Some(0.0)
  const TWENTY_FIVE: Cell := Some(25.0)

  function BuyConditions(r: Reading): Conditions {
    Conditions(
      Below(ZERO, r.macd),
      Below(ZERO, r.macdSignal),
      Below(r.macdSignal, r.macd) && AtMost(r.macdBefore, r.macdSignalBefore),
      Below(r.histogramBefore, r.histogram),
      Below(r.ema50, r.ema21) && Below(r.ema200, r.ema50),
      Below(TWENTY_FIVE, r.adx),
      Below(r.plusDi, r.adx),
      Below(r.minusDi, r.plusDi))
  }

  function SellConditions(r: Reading): Conditions {
    Conditions(
      Below(r.macd, ZERO),
      Below(r.macdSignal, ZERO),
      Below(r.macd, r.macdSignal) && AtMost(r.macdSignalBefore, r.macdBefore),
      Below(r.histogram, r.histogramBefore),
      Below(r.ema21, r.ema50) && Below(r.ema50, r.ema200),
      Below(TWENTY_FIVE, r.adx),
      Below(r.minusDi, r.adx),
      Below(r.plusDi, r.minusDi))
  }

  function SignalOf(r: Reading): Signal {
    if BuyConditions(r).All() then BUY else if SellConditions(r).All() then SELL else HOLD
  }

  function Screen(bars: seq<Bar>): Result<Signal, ScreenError> {
    if |bars| < 202 then Err(TooFewBars) else Ok(SignalOf(ReadLast(bars)))
  }

  // ----- the reflected market

  function Opposite(s: Signal): Signal {
    match s
    case BUY => SELL
    case SELL => BUY
    case HOLD => HOLD
  }

  lemma MovementReflects(c: real, bars: seq<Bar>)
    ensures PlusDm(Reflect(c, bars)) == MinusDm(bars)
    ensures MinusDm(Reflect(c, bars)) == PlusDm(bars)
  {
    var mirror := Reflect(c, bars);
    forall i | 0 < i < |bars| ensures Up(mirror, i) == Down(bars, i) && Down(mirror, i) == Up(bars, i) {}
  }

  /** The directional indices trade places and the average directional index is unchanged. */
  lemma DirectionReflects(c: real, bars: seq<Bar>, period: nat)
    requires period > 1
    ensures PlusDi(Reflect(c, bars), period) == MinusDi(bars, period)
    ensures MinusDi(Reflect(c, bars), period) == PlusDi(bars, period)
    ensures Adx(Reflect(c, bars), period) == Adx(bars, period)
  {
    var mirror := Reflect(c, bars);
    TrueRangeReflects(c, bars);
    MovementReflects(c, bars);
    assert PlusDi(mirror, period) == MinusDi(bars, period);
    assert MinusDi(mirror, period) == PlusDi(bars, period);
    forall i | 0 <= i < |bars| ensures Dx(mirror, period)[i] == Dx(bars, period)[i] {
      DxSymmetric(PlusDi(bars, period)[i], MinusDi(bars, period)[i]);
    }
    assert Dx(mirror, period) == Dx(bars, period);
  }

  lemma DxSymmetric(plus: Cell, minus: Cell)
    ensures DxCell(plus, minus) == DxCell(minus, plus)
  {
    if plus.Some? && minus.Some? {
      assert plus.value + minus.value == minus.value + plus.value;
      assert Abs(plus.value - minus.value) == Abs(minus.value - plus.value);
    }
  }

  lemma EmaReflects(c: real, bars: seq<Bar>, span: nat)
    requires span > 1
    ensures Mirrored(c, Ema(bars, span), Ema(Reflect(c, bars), span))
  {
    EwmMirror(c, Closes(bars), Closes(Reflect(c, bars)), SpanAlpha(span), 0);
  }

  lemma DifferenceOfMirrored(c: real, xs: seq<Cell>, ys: seq<Cell>, mx: seq<Cell>, my: seq<Cell>)
    requires |xs| == |ys| && Mirrored(c, xs, mx) && Mirrored(c, ys, my)
    ensures Mirrored(0.0, Difference(xs, ys), Difference(mx, my))
  {
  }

  /** MACD, its signal line and the histogram change sign. */
  lemma MacdReflects(c: real, bars: seq<Bar>)
    ensures Mirrored(0.0, Macd(bars), Macd(Reflect(c, bars)))
    ensures Mirrored(0.0, MacdSignal(bars), MacdSignal(Reflect(c, bars)))
    ensures Mirrored(0.0, Histogram(bars), Histogram(Reflect(c, bars)))
  {
    var mirror := Reflect(c, bars);
    EmaReflects(c, bars, 12);
    EmaReflects(c, bars, 26);
    DifferenceOfMirrored(c, Ema(bars, 12), Ema(bars, 26), Ema(mirror, 12), Ema(mirror, 26));
    EwmMirror(0.0, Macd(bars), Macd(mirror), SpanAlpha(9), 0);
    DifferenceOfMirrored(0.0, Macd(bars), MacdSignal(bars), Macd(mirror), MacdSignal(mirror));
  }

  ghost predicate ReadingMirrored(c: real, r: Reading, m: Reading) {
    && m.macd == Mirror(0.0, r.macd) && m.macdBefore == Mirror(0.0, r.macdBefore)
    && m.macdSignal == Mirror(0.0, r.macdSignal) && m.macdSignalBefore == Mirror(0.0, r.macdSignalBefore)
    && m.histogram == Mirror(0.0, r.histogram) && m.histogramBefore == Mirror(0.0, r.histogramBefore)
    && m.ema21 == Mirror(c, r.ema21) && m.ema50 == Mirror(c, r.ema50) && m.ema200 == Mirror(c, r.ema200)
    && m.adx == r.adx && m.plusDi == r.minusDi && m.minusDi == r.plusDi
  }

  lemma ReadingReflects(c: real, bars: seq<Bar>)
    requires |bars| >= 2
    ensures ReadingMirrored(c, ReadLast(bars), ReadLast(Reflect(c, bars)))
  {
    MacdReflects(c, bars);
    EmaReflects(c, bars, 21);
    EmaReflects(c, bars, 50);
    EmaReflects(c, bars, 200);
    DirectionReflects(c, bars, 14);
  }

  /** On a mirrored reading each sell condition is the buy condition of the original, one by one. */
  lemma ConditionsReflect(c: real, r: Reading, m: Reading)
    requires ReadingMirrored(c, r, m)
    ensures SellConditions(m) == BuyConditions(r)
    ensures BuyConditions(m) == SellConditions(r)
  {
  }

  /** No reading satisfies both sets. */
  lemma NeverBoth(r: Reading)
    ensures !(BuyConditions(r).All() && SellConditions(r).All())
  {
  }

  /** The bearish set is the exact inverse: reflecting every bar about any price turns BUY into SELL,
      SELL into BUY, keeps HOLD, and exchanges the two condition sets entry by entry. */
  lemma ScreenReflects(c: real, bars: seq<Bar>)
    ensures |bars| < 202 ==> Screen(Reflect(c, bars)) == Screen(bars) == Err(TooFewBars)
    ensures |bars| >= 202 ==> Screen(Reflect(c, bars)) == Ok(Opposite(Screen(bars).value))
    ensures |bars| >= 2 ==> SellConditions(ReadLast(Reflect(c, bars))) == BuyConditions(ReadLast(bars))
    ensures |bars| >= 2 ==> BuyConditions(ReadLast(Reflect(c, bars))) == SellConditions(ReadLast(bars))
  {
    if |bars| >= 2 {
      var r, m := ReadLast(bars), ReadLast(Reflect(c, bars));
      ReadingReflects(c, bars);
      ConditionsReflect(c, r, m);
      NeverBoth(r);
    }
  }

  // ----- the directional indices are percentages

  lemma MovementWithinRange(bars: seq<Bar>, i: nat)
    requires i < |bars|
    ensures 0.0 <= PlusDm(bars)[i].value <= TrueRangeAt(bars, i)
    ensures 0.0 <= MinusDm(bars)[i].value <= TrueRangeAt(bars, i)
  {
  }

  /** An index whose movement never exceeds the range lies in [0, 100]; it is missing only while the
      average range is missing or zero, and a zero range has zero movement. */
  lemma IndexIsPercentage(bars: seq<Bar>, movement: seq<Cell>, period: nat, i: nat)
    requires period > 1 && |movement| == |bars| && i < |bars|
    requires forall j :: 0 <= j < |bars| ==> movement[j].Some? && 0.0 <= movement[j].value <= TrueRangeAt(bars, j)
    ensures Within(DirectionalIndex(bars, movement, period)[i], 0.0, 100.0)
    ensures var range := AverageRange(bars, period)[i];
            range.Some? && range.value == 0.0 ==> Ewm(movement, WilderAlpha(period), period)[i] == Some(0.0)
  {
    var alpha := WilderAlpha(period);
    var xs, ys := movement[..i + 1], TrueRange(bars)[..i + 1];
    var zeros: seq<Cell> := seq(|xs|, j => Some(0.0));
    assert Dominated(xs, ys) && Dominated(zeros, xs);
    EwmAfterMono(xs, ys, alpha);
    EwmAfterMono(zeros, xs, alpha);
    EwmAfterBounds(zeros, alpha, 0.0, 0.0);
    EwmAfterObserved(xs, alpha);
    var m, range := Ewm(movement, alpha, period)[i], AverageRange(bars, period)[i];
    if m.Some? && range.Some? && range.value > 0.0 {
      Percentage(m.value, range.value);
    }
  }

  lemma Percentage(part: real, whole: real)
    requires 0.0 <= part <= whole && whole > 0.0
    ensures 0.0 <= 100.0 * part / whole <= 100.0
  {
    DivMono(0.0, 100.0 * part, whole);
    DivMono(100.0 * part, 100.0 * whole, whole);
    assert 100.0 * whole / whole == 100.0;
  }

  lemma DxIsPercentage(plus: Cell, minus: Cell)
    requires Within(plus, 0.0, 100.0) && Within(minus, 0.0, 100.0)
    ensures Within(DxCell(plus, minus), 0.0, 100.0)
  {
    if plus.Some? && minus.Some? {
      var total := plus.value + minus.value;
      Percentage(Abs(plus.value - minus.value), if total == 0.0 then 0.000000000001 else total);
    }
  }

  /** +DI, -DI and ADX lie in [0, 100] wherever they are defined. */
  lemma AdxIsPercentage(bars: seq<Bar>, period: nat, i: nat)
    requires period > 1 && i < |bars|
    ensures Within(PlusDi(bars, period)[i], 0.0, 100.0)
    ensures Within(MinusDi(bars, period)[i], 0.0, 100.0)
    ensures Within(Adx(bars, period)[i], 0.0, 100.0)
  {
    forall j | 0 <= j < |bars|
      ensures 0.0 <= PlusDm(bars)[j].value <= TrueRangeAt(bars, j)
              && 0.0 <= MinusDm(bars)[j].value <= TrueRangeAt(bars, j)
    {
      MovementWithinRange(bars, j);
    }
    forall j | 0 <= j < |bars|
      ensures Within(PlusDi(bars, period)[j], 0.0, 100.0) && Within(MinusDi(bars, period)[j], 0.0, 100.0)
      ensures Within(Dx(bars, period)[j], 0.0, 100.0)
    {
      IndexIsPercentage(bars, PlusDm(bars), period, j);
      IndexIsPercentage(bars, MinusDm(bars), period, j);
      DxIsPercentage(PlusDi(bars, period)[j], MinusDi(bars, period)[j]);
    }
    EwmAfterBounds(Dx(bars, period)[..i + 1], WilderAlpha(period), 0.0, 100.0);
  }

  /** While no bar makes a lower low the screen never says SELL; while none makes a higher high, never BUY. */
  lemma OneSidedMarket(bars: seq<Bar>)
    requires |bars| >= 202
    ensures (forall i :: 0 < i < |bars| ==> bars[i].low >= bars[i - 1].low) ==> Screen(bars) != Ok(SELL)
    ensures (forall i :: 0 < i < |bars| ==> bars[i].high <= bars[i - 1].high) ==> Screen(bars) != Ok(BUY)
  {
    if forall i :: 0 < i < |bars| ==> bars[i].low >= bars[i - 1].low {
      NoLowerLowNeverSells(bars);
    }
    if forall i :: 0 < i < |bars| ==> bars[i].high <= bars[i - 1].high {
      NoLowerLowNeverSells(Reflect(0.0, bars));
      ScreenReflects(0.0, bars);
    }
  }

  lemma NoLowerLowNeverSells(bars: seq<Bar>)
    requires |bars| >= 202 && forall i :: 0 < i < |bars| ==> bars[i].low >= bars[i - 1].low
    ensures Screen(bars) != Ok(SELL)
  {
    var n := |bars| - 1;
    AdxIsPercentage(bars, 14, n);
    forall i | 0 <= i < |bars| ensures MinusDm(bars)[i] == Some(0.0) {
      assert i > 0 ==> bars[i].low >= bars[i - 1].low;
    }
    EwmAfterBounds(MinusDm(bars)[..n + 1], WilderAlpha(14), 0.0, 0.0);
    var averaged := Ewm(MinusDm(bars), WilderAlpha(14), 14)[n];
    assert averaged.Some? ==> averaged.value == 0.0;
    NoMovementNoIndex(averaged, AverageRange(bars, 14)[n]);
    assert MinusDi(bars, 14)[n] == IndexCell(averaged, AverageRange(bars, 14)[n]);
  }

  lemma NoMovementNoIndex(movement: Cell, range: Cell)
    requires movement.Some? ==> movement.value == 0.0
    ensures IndexCell(movement, range).Some? ==> IndexCell(movement, range).value == 0.0
  {
  }

  ghost predicate ClosesNeverFall(bars: seq<Bar>) {
    forall i, j :: 0 <= i <= j < |bars| ==> bars[i].close <= bars[j].close
  }

  lemma FasterEmaLeads(bars: seq<Bar>, fast: nat, slow: nat, i: nat)
    requires 1 < fast <= slow && i < |bars| && ClosesNeverFall(bars)
    ensures AtMost(Ema(bars, slow)[i], Ema(bars, fast)[i])
  {
    SpansOrdered(fast, slow);
    FasterMeanLeads(Closes(bars)[..i + 1], SpanAlpha(fast), SpanAlpha(slow));
  }

  lemma SpansOrdered(fast: nat, slow: nat)
    requires 1 < fast <= slow
    ensures SpanAlpha(slow) <= SpanAlpha(fast)
  {
    Shares(2.0 / (fast as real + 1.0), 2.0 / (slow as real + 1.0), fast as real + 1.0, slow as real + 1.0);
  }

  /** Of equal totals, the one with more parts has the smaller parts. */
  lemma Shares(p: real, q: real, x: real, y: real)
    requires 0.0 < x <= y && p > 0.0 && p * x == q * y
    ensures q <= p
  {
    MulMono(x, y, p);
    if q > p {
      MulStrict(p, q, y);
    }
  }

  /** While closes never fall, MACD is not negative and the averages never stand in bearish order, so the screen never
      says SELL; while they never rise, it never says BUY. */
  lemma TrendIsFollowed(bars: seq<Bar>)
    requires |bars| >= 202
    ensures ClosesNeverFall(bars) ==> Screen(bars) != Ok(SELL) && AtMost(ZERO, Macd(bars)[|bars| - 1])
    ensures ClosesNeverFall(Reflect(0.0, bars)) ==> Screen(bars) != Ok(BUY)
  {
    if ClosesNeverFall(bars) {
      RisingNeverSells(bars);
    }
    if ClosesNeverFall(Reflect(0.0, bars)) {
      RisingNeverSells(Reflect(0.0, bars));
      ScreenReflects(0.0, bars);
    }
  }

  lemma RisingNeverSells(bars: seq<Bar>)
    requires |bars| >= 202 && ClosesNeverFall(bars)
    ensures Screen(bars) != Ok(SELL) && AtMost(ZERO, Macd(bars)[|bars| - 1])
    ensures AtMost(Ema(bars, 50)[|bars| - 1], Ema(bars, 21)[|bars| - 1])
            && AtMost(Ema(bars, 200)[|bars| - 1], Ema(bars, 50)[|bars| - 1])
  {
    var n := |bars| - 1;
    FasterEmaLeads(bars, 12, 26, n);
    FasterEmaLeads(bars, 21, 50, n);
    FasterEmaLeads(bars, 50, 200, n);
    assert Macd(bars)[n] == Minus(Ema(bars, 12)[n], Ema(bars, 26)[n]);
  }

  // ----- the series by their recurrences

  /** A moving average of the closes starts with the first close and has weight 2 / (span + 1) on each further one. */
  lemma EmaRecurs(bars: seq<Bar>, span: nat, i: nat)
    requires span > 1 && i < |bars|
    ensures Ema(bars, span)[i].Some? && Ema(bars, span)[0] == Some(bars[0].close)
    ensures i > 0 ==> Ema(bars, span)[i - 1].Some?
                      && SpanMoves(span, Ema(bars, span)[i - 1].value, Ema(bars, span)[i].value, bars[i].close)
  {
    MeanExactly(Closes(bars), SpanAlpha(span), 0, 0, i);
    MeanExactly(Closes(bars), SpanAlpha(span), 0, 0, 0);
    if i > 0 {
      SpanRecurrence(span, Ema(bars, span)[i - 1].value, Ema(bars, span)[i].value, bars[i].close);
    }
  }

  /** MACD is the 12-bar average less the 26-bar one, and its signal line the 9-bar average of it. */
  lemma MacdRecurs(bars: seq<Bar>, i: nat)
    requires i < |bars|
    ensures Ema(bars, 12)[i].Some? && Ema(bars, 26)[i].Some?
    ensures Macd(bars)[i] == Some(Ema(bars, 12)[i].value - Ema(bars, 26)[i].value)
    ensures MacdSignal(bars)[i].Some? && MacdSignal(bars)[0] == Macd(bars)[0]
    ensures i > 0 ==> MacdSignal(bars)[i - 1].Some?
                      && SpanMoves(9, MacdSignal(bars)[i - 1].value, MacdSignal(bars)[i].value, Macd(bars)[i].value)
    ensures Histogram(bars)[i] == Some(Macd(bars)[i].value - MacdSignal(bars)[i].value)
  {
    forall j | 0 <= j < |bars| ensures Macd(bars)[j].Some? && Ema(bars, 12)[j].Some? && Ema(bars, 26)[j].Some? {
      EmaRecurs(bars, 12, j);
      EmaRecurs(bars, 26, j);
    }
    MeanExactly(Macd(bars), SpanAlpha(9), 0, 0, i);
    MeanExactly(Macd(bars), SpanAlpha(9), 0, 0, 0);
    if i > 0 {
      SpanRecurrence(9, MacdSignal(bars)[i - 1].value, MacdSignal(bars)[i].value, Macd(bars)[i].value);
    }
  }

  /** The directional movement of a bar goes to the side that moved further, if that side moved outward at all. */
  lemma MovementExactly(bars: seq<Bar>, i: nat)
    requires 0 < i < |bars|
    ensures var up, down := bars[i].high - bars[i - 1].high, bars[i - 1].low - bars[i].low;
            && (up > down && up > 0.0 ==> PlusDm(bars)[i] == Some(up) && MinusDm(bars)[i] == Some(0.0))
            && (down > up && down > 0.0 ==> MinusDm(bars)[i] == Some(down) && PlusDm(bars)[i] == Some(0.0))
            && (up == down || (up <= 0.0 && down <= 0.0) ==> PlusDm(bars)[i] == MinusDm(bars)[i] == Some(0.0))
    ensures PlusDm(bars)[0] == MinusDm(bars)[0] == Some(0.0)
  {
  }

  /** A directional index is 100 times the mean movement over the average range, and missing while that is missing or
      zero. */
  lemma IndexRecurs(bars: seq<Bar>, movement: seq<Cell>, period: nat, i: nat)
    requires period > 1 && |movement| == |bars| && i < |bars|
    requires forall j :: 0 <= j < |bars| ==> movement[j].Some?
    ensures var mean, range := Ewm(movement, WilderAlpha(period), 0), AverageRange(bars, period)[i];
            var index := DirectionalIndex(bars, movement, period)[i];
            && mean[0] == movement[0] && mean[i].Some?
            && (i > 0 ==> mean[i - 1].Some? && WilderMoves(period, mean[i - 1].value, mean[i].value, movement[i].value))
            && (index.Some? <==> range.Some? && range.value != 0.0)
            && (index.Some? ==> IsShare(index.value, mean[i].value, range.value))
  {
    var alpha := WilderAlpha(period);
    MeanExactly(movement, alpha, period, 0, i);
    MeanExactly(movement, alpha, period, 0, 0);
    AverageRangeDefined(bars, period, i);
    if i > 0 {
      var mean := Ewm(movement, alpha, 0);
      WilderRecurrence(period, mean[i - 1].value, mean[i].value, movement[i].value);
    }
    ShareOf(Ewm(movement, alpha, 0)[i].value, AverageRange(bars, period)[i]);
  }

  /** `share` percent of `whole` is `part`. */
  ghost predicate IsShare(share: real, part: real, whole: real) { share * whole == 100.0 * part }

  lemma ShareOf(part: real, whole: Cell)
    ensures IndexCell(Some(part), whole).Some? ==> IsShare(IndexCell(Some(part), whole).value, part, whole.value)
  {
  }

  /** DX is the spread of the two indices in percent of their sum, zero if both are, and missing with them. */
  lemma DxExactly(bars: seq<Bar>, period: nat, i: nat)
    requires period > 1 && i < |bars|
    ensures var plus, minus, dx := PlusDi(bars, period)[i], MinusDi(bars, period)[i], Dx(bars, period)[i];
            && (dx.Some? <==> plus.Some? && minus.Some?)
            && (dx.Some? ==> IsShare(dx.value, Abs(plus.value - minus.value), plus.value + minus.value))
            && (dx.Some? && plus.value == minus.value == 0.0 ==> dx.value == 0.0)
  {
    var plus, minus := PlusDi(bars, period)[i], MinusDi(bars, period)[i];
    AdxIsPercentage(bars, period, i);
    if plus.Some? && minus.Some? {
      SpreadShare(plus.value, minus.value);
    }
  }

  lemma SpreadShare(plus: real, minus: real)
    requires plus >= 0.0 && minus >= 0.0
    ensures IsShare(DxCell(Some(plus), Some(minus)).value, Abs(plus - minus), plus + minus)
    ensures plus == minus == 0.0 ==> DxCell(Some(plus), Some(minus)).value == 0.0
  {
    var part, total := 100.0 * Abs(plus - minus), plus + minus;
    if total == 0.0 {
      assert part == 0.0 && part / 0.000000000001 == 0.0;
    } else {
      assert part / total * total == part;
    }
  }

  predicate RangePositive(bars: seq<Bar>, period: nat, i: nat)
    requires period > 1 && i < |bars|
  {
    AverageRange(bars, period)[i].Some? && AverageRange(bars, period)[i].value != 0.0
  }

  /** An average range that is positive stays so. */
  lemma RangeStaysPositive(bars: seq<Bar>, period: nat, i: nat)
    requires period > 1 && 0 < i < |bars| && RangePositive(bars, period, i - 1)
    ensures RangePositive(bars, period, i)
  {
    AverageRangeDefined(bars, period, i - 1);
    AverageRangeRecurs(bars, period, i - 1);
    AverageRangeRecurs(bars, period, i);
    var mean := Ewm(TrueRange(bars), WilderAlpha(period), 0);
    StaysPositive(period, mean[i - 1].value, mean[i].value, TrueRangeAt(bars, i));
  }

  lemma StaysPositive(period: nat, before: real, now: real, x: real)
    requires period > 1 && WilderMoves(period, before, now, x) && before > 0.0 && x >= 0.0
    ensures now > 0.0
  {
    MulStrict(0.0, before, period as real - 1.0);
    if now <= 0.0 {
      MulMono(now, 0.0, period as real);
    }
  }

  lemma {:induction false} RangeStarts(bars: seq<Bar>, period: nat, n: nat) returns (f: nat)
    requires period > 1 && n <= |bars|
    ensures f <= n && forall i :: 0 <= i < n ==> (RangePositive(bars, period, i) <==> i >= f)
  {
    if n == 0 {
      f := 0;
    } else {
      f := RangeStarts(bars, period, n - 1);
      if f < n - 1 {
        RangeStaysPositive(bars, period, n - 1);
      } else if !RangePositive(bars, period, n - 1) {
        f := n;
      }
    }
  }

  lemma DxPresent(bars: seq<Bar>, period: nat, i: nat)
    requires period > 1 && i < |bars|
    ensures Dx(bars, period)[i].Some? <==> RangePositive(bars, period, i)
  {
    IndexRecurs(bars, PlusDm(bars), period, i);
    IndexRecurs(bars, MinusDm(bars), period, i);
    DxExactly(bars, period, i);
  }

  lemma DxStarts(bars: seq<Bar>, period: nat) returns (f: nat)
    requires period > 1
    ensures StartsAt(Dx(bars, period), f)
  {
    f := RangeStarts(bars, period, |bars|);
    forall i | 0 <= i < |bars| ensures Dx(bars, period)[i].Some? <==> i >= f {
      DxPresent(bars, period, i);
    }
  }

  /** ADX follows Wilder's recurrence from the first DX on, and is shown from the period-th DX on. */
  lemma AdxRecurs(bars: seq<Bar>, period: nat, i: nat) returns (f: nat)
    requires period > 1 && i < |bars|
    ensures StartsAt(Dx(bars, period), f)
    ensures var mean := Ewm(Dx(bars, period), WilderAlpha(period), 0);
            && (Adx(bars, period)[i] == if i + 1 >= f + period then mean[i] else None)
            && (i == f ==> mean[i] == Dx(bars, period)[i])
            && (i > f ==> mean[i - 1].Some? && mean[i].Some?
                          && WilderMoves(period, mean[i - 1].value, mean[i].value, Dx(bars, period)[i].value))
  {
    f := DxStarts(bars, period);
    MeanExactly(Dx(bars, period), WilderAlpha(period), period, f, i);
    if i > f {
      var mean := Ewm(Dx(bars, period), WilderAlpha(period), 0);
      WilderRecurrence(period, mean[i - 1].value, mean[i].value, Dx(bars, period)[i].value);
    }
  }

  // ----- what the screen says

  /** Both signals, inequality by inequality: the averages and MACD are always there, the directional figures have to
      be. */
  lemma ScreenExactly(bars: seq<Bar>)
    requires |bars| >= 202
    ensures var n := |bars| - 1;
            && Macd(bars)[n].Some? && Macd(bars)[n - 1].Some? && MacdSignal(bars)[n].Some?
            && MacdSignal(bars)[n - 1].Some?
            && Ema(bars, 21)[n].Some? && Ema(bars, 50)[n].Some? && Ema(bars, 200)[n].Some?
    ensures var n := |bars| - 1;
            var macd, line := Macd(bars)[n].value, MacdSignal(bars)[n].value;
            var macdBefore, lineBefore := Macd(bars)[n - 1].value, MacdSignal(bars)[n - 1].value;
            var short, middle, long := Ema(bars, 21)[n].value, Ema(bars, 50)[n].value, Ema(bars, 200)[n].value;
            var adx, plus, minus := Adx(bars, 14)[n], PlusDi(bars, 14)[n], MinusDi(bars, 14)[n];
            && (Screen(bars) == Ok(BUY) <==>
                && macd > 0.0 && line > 0.0 && macd > line && macdBefore <= lineBefore
                && macd - line > macdBefore - lineBefore && short > middle > long
                && adx.Some? && plus.Some? && minus.Some?
                && adx.value > 25.0 && adx.value > plus.value && plus.value > minus.value)
            && (Screen(bars) == Ok(SELL) <==>
                && macd < 0.0 && line < 0.0 && macd < line && macdBefore >= lineBefore
                && macd - line < macdBefore - lineBefore && short < middle < long
                && adx.Some? && plus.Some? && minus.Some?
                && adx.value > 25.0 && adx.value > minus.value && minus.value > plus.value)
  {
    var n := |bars| - 1;
    MacdRecurs(bars, n);
    MacdRecurs(bars, n - 1);
    EmaRecurs(bars, 21, n);
    EmaRecurs(bars, 50, n);
    EmaRecurs(bars, 200, n);
    NeverBoth(ReadLast(bars));
  }

  lemma EmaPrefix(bars: seq<Bar>, span: nat, k: nat)
    requires span > 1 && k <= |bars|
    ensures Ema(bars[..k], span) == Ema(bars, span)[..k]
  {
    assert Closes(bars[..k]) == Closes(bars)[..k];
    EwmPrefix(Closes(bars), SpanAlpha(span), 0, k);
  }

  lemma MacdPrefix(bars: seq<Bar>, k: nat)
    requires k <= |bars|
    ensures Macd(bars[..k]) == Macd(bars)[..k] && MacdSignal(bars[..k]) == MacdSignal(bars)[..k]
  {
    EmaPrefix(bars, 12, k);
    EmaPrefix(bars, 26, k);
    assert Macd(bars[..k]) == Macd(bars)[..k];
    EwmPrefix(Macd(bars), SpanAlpha(9), 0, k);
  }

  /** A signal needs a crossing on its own bar, so no two consecutive completed bars give the same one. */
  lemma NeverTwice(bars: seq<Bar>, k: nat)
    requires k < |bars|
    ensures Screen(bars[..k]) == Ok(BUY) ==> Screen(bars[..k + 1]) != Ok(BUY)
    ensures Screen(bars[..k]) == Ok(SELL) ==> Screen(bars[..k + 1]) != Ok(SELL)
  {
    if k >= 202 {
      MacdPrefix(bars, k);
      MacdPrefix(bars, k + 1);
      ScreenExactly(bars[..k]);
      ScreenExactly(bars[..k + 1]);
      assert Macd(bars[..k + 1])[k - 1] == Macd(bars[..k])[k - 1];
      assert MacdSignal(bars[..k + 1])[k - 1] == MacdSignal(bars[..k])[k - 1];
    }
  }
}
