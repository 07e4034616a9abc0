/** The pandas series operations behind the trading indicators. A cell is None where pandas holds NaN. */
module Series {
  import opened Values
  import opened Numbers

  type Cell = Option<real>

  datatype BarFields = BarFields(high: real, low: real, close: real)

  /** A completed bar; its close lies in its range. */
  type Bar = b: BarFields | b.low <= b.close <= b.high witness BarFields(1.0, 1.0, 1.0)

  predicate Below(a: Cell, b: Cell) { a.Some? && b.Some? && a.value < b.value }

  predicate AtMost(a: Cell, b: Cell) { a.Some? && b.Some? && a.value <= b.value }

  // ----- exponentially weighted means, `adjust=False, ignore_na=False`

  datatype EwmState = EwmState(average: Cell, oldWeight: real, observed: nat)

  function Blend(oldWeight: real, average: real, alpha: real, x: real): real
    requires oldWeight + alpha != 0.0
  {
    (oldWeight * average + alpha * x) / (oldWeight + alpha)
  }

  function Fade(weight: real, alpha: real): (r: real)
    requires weight >= 0.0 && 0.0 < alpha <= 1.0
    ensures r >= 0.0
  {
    weight * (1.0 - alpha)
  }

  function EwmStep(st: EwmState, x: Cell, alpha: real): (r: EwmState)
    requires 0.0 < alpha <= 1.0 && st.oldWeight >= 0.0
    ensures r.oldWeight >= 0.0
  {
    if st.average.None? then
      if x.None? then st else EwmState(x, 1.0, st.observed + 1)
    else
      var faded := Fade(st.oldWeight, alpha);
      if x.None? then EwmState(st.average, faded, st.observed)
      else EwmState(Some(Blend(faded, st.average.value, alpha, x.value)), 1.0, st.observed + 1)
  }

  function EwmAfter(xs: seq<Cell>, alpha: real): (r: EwmState)
    requires 0.0 < alpha <= 1.0
    ensures r.oldWeight >= 0.0
  {
    if xs == [] then EwmState(None, 1.0, 0) else EwmStep(EwmAfter(xs[..|xs| - 1], alpha), xs[|xs| - 1], alpha)
  }

  /** The last cell of `xs.ewm(alpha, adjust=False, min_periods=minPeriods).mean()`. */
  function EwmLast(xs: seq<Cell>, alpha: real, minPeriods: nat): Cell
    requires 0.0 < alpha <= 1.0
  {
    var st := EwmAfter(xs, alpha);
    if st.observed >= minPeriods then st.average else None
  }

  function Ewm(xs: seq<Cell>, alpha: real, minPeriods: nat): (r: seq<Cell>)
    requires 0.0 < alpha <= 1.0
    ensures |r| == |xs|
  {
    seq(|xs|, i requires 0 <= i < |xs| => EwmLast(xs[..i + 1], alpha, minPeriods))
  }

  /** The smoothing factor of `ewm(span=...)`. */
  function SpanAlpha(span: nat): (r: real)
    requires span > 1
    ensures 0.0 < r < 1.0
  {
    2.0 / (span as real + 1.0)
  }

  /** The smoothing factor of Wilder's averages. */
  function WilderAlpha(period: nat): (r: real)
    requires period >= 1
    ensures 0.0 < r <= 1.0
    ensures period > 1 ==> r < 1.0
  {
    1.0 / period as real
  }

  // ----- a mean of mirrored cells is the mirrored mean

  /** Reflection of a price about c / 2; with c = 0, negation. */
  function Mirror(c: real, x: Cell): Cell {
    if x.None? then None else Some(c - x.value)
  }

  ghost predicate Mirrored(c: real, xs: seq<Cell>, ys: seq<Cell>) {
    |xs| == |ys| && forall i :: 0 <= i < |xs| ==> ys[i] == Mirror(c, xs[i])
  }

  lemma BlendMirror(w: real, a: real, alpha: real, x: real, c: real)
    requires w >= 0.0 && alpha > 0.0
    ensures Blend(w, c - a, alpha, c - x) == c - Blend(w, a, alpha, x)
  {
    var total := w + alpha;
    var p := w * a + alpha * x;
    assert w * (c - a) + alpha * (c - x) == c * total - p;
    assert (c * total - p) / total == c - p / total;
  }

  lemma EwmStepMirror(c: real, st: EwmState, su: EwmState, x: Cell, alpha: real)
    requires 0.0 < alpha <= 1.0 && st.oldWeight >= 0.0
    requires su == EwmState(Mirror(c, st.average), st.oldWeight, st.observed)
    ensures EwmStep(su, Mirror(c, x), alpha) ==
            EwmState(Mirror(c, EwmStep(st, x, alpha).average), EwmStep(st, x, alpha).oldWeight,
                     EwmStep(st, x, alpha).observed)
  {
    if st.average.Some? && x.Some? {
      var w, a := Fade(st.oldWeight, alpha), st.average.value;
      BlendMirror(w, a, alpha, x.value, c);
      assert EwmStep(st, x, alpha).average.value == Blend(w, a, alpha, x.value);
      assert EwmStep(su, Mirror(c, x), alpha).average.value == Blend(w, c - a, alpha, c - x.value);
    }
  }

  lemma {:induction false} EwmAfterMirror(c: real, xs: seq<Cell>, ys: seq<Cell>, alpha: real)
    requires 0.0 < alpha <= 1.0 && Mirrored(c, xs, ys)
    ensures EwmAfter(ys, alpha).average == Mirror(c, EwmAfter(xs, alpha).average)
    ensures EwmAfter(ys, alpha).oldWeight == EwmAfter(xs, alpha).oldWeight
    ensures EwmAfter(ys, alpha).observed == EwmAfter(xs, alpha).observed
  {
    if xs != [] {
      var n := |xs| - 1;
      EwmAfterMirror(c, xs[..n], ys[..n], alpha);
      EwmStepMirror(c, EwmAfter(xs[..n], alpha), EwmAfter(ys[..n], alpha), xs[n], alpha);
    }
  }

  lemma EwmMirror(c: real, xs: seq<Cell>, ys: seq<Cell>, alpha: real, minPeriods: nat)
    requires 0.0 < alpha <= 1.0 && Mirrored(c, xs, ys)
    ensures Mirrored(c, Ewm(xs, alpha, minPeriods), Ewm(ys, alpha, minPeriods))
  {
    forall i | 0 <= i < |xs|
      ensures Ewm(ys, alpha, minPeriods)[i] == Mirror(c, Ewm(xs, alpha, minPeriods)[i])
    {
      EwmAfterMirror(c, xs[..i + 1], ys[..i + 1], alpha);
    }
  }

  // ----- the recurrence behind a mean

  /** Cells that are missing before `f` and present from there on. */
  ghost predicate StartsAt(xs: seq<Cell>, f: nat) {
    f <= |xs| && forall i :: 0 <= i < |xs| ==> (xs[i].Some? <==> i >= f)
  }

  lemma {:induction false} EwmAfterStart(xs: seq<Cell>, alpha: real, f: nat)
    requires 0.0 < alpha <= 1.0 && StartsAt(xs, f)
    ensures var st := EwmAfter(xs, alpha);
            st.oldWeight == 1.0 && st.observed == |xs| - f && (st.average.Some? <==> |xs| > f)
  {
    var n := |xs| - 1;
    if f <= n {
      EwmAfterStart(xs[..n], alpha, f);
    } else if xs != [] {
      EwmAfterStart(xs[..n], alpha, n);
    }
  }

  /** One step of the mean of the present cells. */
  ghost predicate Moves(alpha: real, before: real, now: real, x: real) {
    now == (1.0 - alpha) * before + alpha * x
  }

  lemma BlendMoves(alpha: real, average: real, x: real)
    requires 0.0 < alpha <= 1.0
    ensures Moves(alpha, average, Blend(Fade(1.0, alpha), average, alpha, x), x)
  {
    assert Fade(1.0, alpha) + alpha == 1.0;
    assert (Fade(1.0, alpha) * average + alpha * x) / 1.0 == (1.0 - alpha) * average + alpha * x;
  }

  /** What pandas computes when no cell is missing after the first present one: the mean starts with that cell, moves by
      the recurrence from then on, and is shown from the `minPeriods`-th present cell on. */
  lemma MeanExactly(xs: seq<Cell>, alpha: real, minPeriods: nat, f: nat, i: nat)
    requires 0.0 < alpha <= 1.0 && StartsAt(xs, f) && i < |xs|
    ensures Ewm(xs, alpha, 0)[i].Some? <==> i >= f
    ensures Ewm(xs, alpha, minPeriods)[i] == if i + 1 >= f + minPeriods then Ewm(xs, alpha, 0)[i] else None
    ensures i == f ==> Ewm(xs, alpha, 0)[i] == xs[i]
    ensures i > f ==> Ewm(xs, alpha, 0)[i - 1].Some?
    ensures i > f ==>
              Moves(alpha, Ewm(xs, alpha, 0)[i - 1].value, Ewm(xs, alpha, 0)[i].value, xs[i].value)
  {
    EwmAfterStart(xs[..i + 1], alpha, if i + 1 < f then i + 1 else f);
    EwmAfterStart(xs[..i], alpha, if i < f then i else f);
    assert xs[..i + 1][..i] == xs[..i];
    if i > f {
      BlendMoves(alpha, EwmAfter(xs[..i], alpha).average.value, xs[i].value);
    }
  }

  lemma FadePow(alpha: real, n: nat)
    requires 0.0 < alpha < 1.0
    ensures Pow(1.0 - alpha, n) > 0.0 && Fade(Pow(1.0 - alpha, n), alpha) == Pow(1.0 - alpha, n + 1)
  {
    PowPositive(1.0 - alpha, n);
  }

  lemma {:induction false} EwmAfterGap(xs: seq<Cell>, gap: seq<Cell>, alpha: real)
    requires 0.0 < alpha < 1.0 && EwmAfter(xs, alpha).average.Some? && EwmAfter(xs, alpha).oldWeight == 1.0
    requires forall i :: 0 <= i < |gap| ==> gap[i].None?
    ensures EwmAfter(xs + gap, alpha).average == EwmAfter(xs, alpha).average
    ensures EwmAfter(xs + gap, alpha).oldWeight == Pow(1.0 - alpha, |gap|)
  {
    var n := |gap| - 1;
    if gap == [] {
      assert xs + gap == xs;
    } else {
      EwmAfterGap(xs, gap[..n], alpha);
      assert (xs + gap)[..|xs| + n] == xs + gap[..n];
      FadePow(alpha, n);
    }
  }

  /** The weighted mean of an old average and a new cell. */
  ghost predicate IsWeightedMean(now: real, weight: real, before: real, alpha: real, x: real) {
    now * (weight + alpha) == weight * before + alpha * x
  }

  lemma BlendIsWeightedMean(weight: real, before: real, alpha: real, x: real)
    requires weight > 0.0 && alpha > 0.0
    ensures IsWeightedMean(Blend(weight, before, alpha, x), weight, before, alpha, x)
  {
  }

  /** A gap of missing cells keeps the mean, and the next cell is blended with the old weight faded once per bar. */
  lemma MeanOverGap(xs: seq<Cell>, gap: seq<Cell>, x: real, alpha: real)
    requires 0.0 < alpha < 1.0 && EwmAfter(xs, alpha).average.Some? && EwmAfter(xs, alpha).oldWeight == 1.0
    requires forall i :: 0 <= i < |gap| ==> gap[i].None?
    ensures var before, after := EwmAfter(xs, alpha).average, EwmAfter(xs + gap + [Some(x)], alpha).average;
            after.Some? && IsWeightedMean(after.value, Pow(1.0 - alpha, |gap| + 1), before.value, alpha, x)
  {
    EwmAfterGap(xs, gap, alpha);
    EwmAppend(xs + gap, Some(x), alpha);
    BlendOverGap(EwmAfter(xs + gap, alpha), |gap|, x, alpha);
  }

  lemma EwmAppend(xs: seq<Cell>, x: Cell, alpha: real)
    requires 0.0 < alpha <= 1.0
    ensures EwmAfter(xs + [x], alpha) == EwmStep(EwmAfter(xs, alpha), x, alpha)
  {
    assert (xs + [x])[..|xs|] == xs;
  }

  lemma BlendOverGap(st: EwmState, n: nat, x: real, alpha: real)
    requires 0.0 < alpha < 1.0 && st.average.Some? && st.oldWeight == Pow(1.0 - alpha, n) && st.oldWeight >= 0.0
    ensures var after := EwmStep(st, Some(x), alpha).average;
            after.Some? && IsWeightedMean(after.value, Pow(1.0 - alpha, n + 1), st.average.value, alpha, x)
  {
    FadePow(alpha, n);
    PowPositive(1.0 - alpha, n + 1);
    BlendIsWeightedMean(Pow(1.0 - alpha, n + 1), st.average.value, alpha, x);
  }

  /** A mean only looks back. */
  lemma EwmPrefix(xs: seq<Cell>, alpha: real, minPeriods: nat, k: nat)
    requires 0.0 < alpha <= 1.0 && k <= |xs|
    ensures Ewm(xs[..k], alpha, minPeriods) == Ewm(xs, alpha, minPeriods)[..k]
  {
    forall i | 0 <= i < k ensures Ewm(xs[..k], alpha, minPeriods)[i] == Ewm(xs, alpha, minPeriods)[i] {
      assert xs[..k][..i + 1] == xs[..i + 1];
    }
  }

  /** The recurrence of `ewm(span=...)`, cleared of its denominator. */
  ghost predicate SpanMoves(span: nat, before: real, now: real, x: real) {
    (span as real + 1.0) * now == (span as real - 1.0) * before + 2.0 * x
  }

  lemma SpanRecurrence(span: nat, before: real, now: real, x: real)
    requires span > 1 && Moves(SpanAlpha(span), before, now, x)
    ensures SpanMoves(span, before, now, x)
  {
    Cleared(span as real + 1.0, SpanAlpha(span), 2.0, before, x);
  }

  /** Wilder's recurrence, cleared of its denominator. */
  ghost predicate WilderMoves(period: nat, before: real, now: real, x: real) {
    period as real * now == (period as real - 1.0) * before + x
  }

  lemma WilderRecurrence(period: nat, before: real, now: real, x: real)
    requires period >= 1 && Moves(WilderAlpha(period), before, now, x)
    ensures WilderMoves(period, before, now, x)
  {
    Cleared(period as real, WilderAlpha(period), 1.0, before, x);
  }

  lemma Cleared(d: real, alpha: real, e: real, before: real, x: real)
    requires d * alpha == e
    ensures d * ((1.0 - alpha) * before + alpha * x) == (d - e) * before + e * x
  {
    assert d * ((1.0 - alpha) * before) == d * before - d * alpha * before;
    assert d * (alpha * x) == d * alpha * x;
  }

  // ----- a mean keeps order and bounds

  ghost predicate Dominated(xs: seq<Cell>, ys: seq<Cell>) {
    |xs| == |ys| && forall i :: 0 <= i < |xs| ==> CellDominated(xs[i], ys[i])
  }

  lemma BlendMono(w: real, a: real, b: real, alpha: real, x: real, y: real)
    requires w >= 0.0 && alpha > 0.0 && a <= b && x <= y
    ensures Blend(w, a, alpha, x) <= Blend(w, b, alpha, y)
  {
    MulMono(a, b, w);
    MulMono(x, y, alpha);
    DivMono(w * a + alpha * x, w * b + alpha * y, w + alpha);
  }

  /** Two states that have seen the same cells present, the first never above the second. */
  ghost predicate StateDominated(st: EwmState, su: EwmState) {
    && st.oldWeight == su.oldWeight && st.observed == su.observed
    && CellDominated(st.average, su.average)
  }

  ghost predicate CellDominated(x: Cell, y: Cell) {
    x.Some? == y.Some? && (x.Some? ==> x.value <= y.value)
  }

  lemma EwmStepMono(st: EwmState, su: EwmState, x: Cell, y: Cell, alpha: real)
    requires 0.0 < alpha <= 1.0 && st.oldWeight >= 0.0 && su.oldWeight >= 0.0
    requires StateDominated(st, su) && CellDominated(x, y)
    ensures StateDominated(EwmStep(st, x, alpha), EwmStep(su, y, alpha))
  {
    if st.average.Some? && x.Some? {
      BlendMono(Fade(st.oldWeight, alpha), st.average.value, su.average.value, alpha, x.value, y.value);
    }
  }

  lemma {:induction false} EwmAfterMono(xs: seq<Cell>, ys: seq<Cell>, alpha: real)
    requires 0.0 < alpha <= 1.0 && Dominated(xs, ys)
    ensures StateDominated(EwmAfter(xs, alpha), EwmAfter(ys, alpha))
  {
    if xs != [] {
      var n := |xs| - 1;
      EwmAfterMono(xs[..n], ys[..n], alpha);
      EwmStepMono(EwmAfter(xs[..n], alpha), EwmAfter(ys[..n], alpha), xs[n], ys[n], alpha);
    }
  }

  lemma BlendSame(w: real, alpha: real, c: real)
    requires w >= 0.0 && alpha > 0.0
    ensures Blend(w, c, alpha, c) == c
  {
    assert w * c + alpha * c == c * (w + alpha);
  }

  ghost predicate Within(x: Cell, low: real, high: real) {
    x.Some? ==> low <= x.value <= high
  }

  lemma EwmStepBounds(st: EwmState, x: Cell, alpha: real, low: real, high: real)
    requires 0.0 < alpha <= 1.0 && st.oldWeight >= 0.0
    requires Within(st.average, low, high) && Within(x, low, high)
    ensures Within(EwmStep(st, x, alpha).average, low, high)
  {
    if st.average.Some? && x.Some? {
      var w, a := Fade(st.oldWeight, alpha), st.average.value;
      BlendMono(w, low, a, alpha, low, x.value);
      BlendMono(w, a, high, alpha, x.value, high);
      BlendSame(w, alpha, low);
      BlendSame(w, alpha, high);
    }
  }

  /** Cells between two bounds average to a value between them. */
  lemma {:induction false} EwmAfterBounds(xs: seq<Cell>, alpha: real, low: real, high: real)
    requires 0.0 < alpha <= 1.0 && low <= high
    requires forall i :: 0 <= i < |xs| ==> Within(xs[i], low, high)
    ensures Within(EwmAfter(xs, alpha).average, low, high)
  {
    if xs != [] {
      var n := |xs| - 1;
      EwmAfterBounds(xs[..n], alpha, low, high);
      EwmStepBounds(EwmAfter(xs[..n], alpha), xs[n], alpha, low, high);
    }
  }

  /** With every cell present, the first observation starts the mean and each further one counts. */
  lemma {:induction false} EwmAfterObserved(xs: seq<Cell>, alpha: real)
    requires 0.0 < alpha <= 1.0 && forall i :: 0 <= i < |xs| ==> xs[i].Some?
    ensures EwmAfter(xs, alpha).observed == |xs|
    ensures xs != [] ==> EwmAfter(xs, alpha).average.Some?
  {
    if xs != [] {
      EwmAfterObserved(xs[..|xs| - 1], alpha);
    }
  }

  // ----- on a rising series a faster mean is the higher one

  ghost predicate Rising(xs: seq<Cell>) {
    && (forall i :: 0 <= i < |xs| ==> xs[i].Some?)
    && forall i, j :: 0 <= i <= j < |xs| ==> xs[i].value <= xs[j].value
  }

  /** One step of a mean whose weights add up to one. */
  function Toward(average: real, alpha: real, x: real): real { average + alpha * (x - average) }

  lemma BlendIsToward(average: real, alpha: real, x: real)
    requires 0.0 < alpha <= 1.0
    ensures Blend(Fade(1.0, alpha), average, alpha, x) == Toward(average, alpha, x)
  {
    assert Fade(1.0, alpha) + alpha == 1.0;
    assert (Fade(1.0, alpha) * average + alpha * x) / 1.0 == Toward(average, alpha, x);
  }

  lemma TowardFaster(average: real, a: real, b: real, x: real)
    requires b <= a < 1.0 && average <= x
    ensures Toward(average, b, x) <= Toward(average, a, x) <= x
  {
    MulMono(b, a, x - average);
    MulMono(a, 1.0, x - average);
  }

  lemma TowardHigher(slow: real, fast: real, b: real, x: real)
    requires 0.0 < b < 1.0 && slow <= fast
    ensures Toward(slow, b, x) <= Toward(fast, b, x)
  {
    var g, rest := fast - slow, b * (x - fast);
    MulMono(b, 1.0, g);
    calc {
      Toward(slow, b, x);
      slow + b * ((x - fast) + g);
      slow + rest + b * g;
    }
    assert Toward(fast, b, x) == slow + g + rest;
  }

  lemma TowardOrder(fast: real, slow: real, a: real, b: real, x: real)
    requires 0.0 < b <= a < 1.0 && slow <= fast <= x
    ensures Toward(slow, b, x) <= Toward(fast, a, x) <= x
  {
    TowardHigher(slow, fast, b, x);
    TowardFaster(fast, a, b, x);
  }

  lemma {:induction false} FasterMeanLeads(xs: seq<Cell>, a: real, b: real)
    requires 0.0 < b <= a < 1.0 && Rising(xs) && xs != []
    ensures var fast, slow := EwmAfter(xs, a), EwmAfter(xs, b);
            && fast.oldWeight == slow.oldWeight == 1.0 && fast.average.Some? && slow.average.Some?
            && slow.average.value <= fast.average.value <= xs[|xs| - 1].value
  {
    var n := |xs| - 1;
    if n > 0 {
      FasterMeanLeads(xs[..n], a, b);
      var fast, slow := EwmAfter(xs[..n], a).average.value, EwmAfter(xs[..n], b).average.value;
      BlendIsToward(fast, a, xs[n].value);
      BlendIsToward(slow, b, xs[n].value);
      TowardOrder(fast, slow, a, b, xs[n].value);
    } else {
      assert xs[..n] == [];
    }
  }

  // ----- true range

  function TrueRangeAt(bars: seq<Bar>, i: nat): (r: real)
    requires i < |bars|
    ensures r >= 0.0
  {
    var spread := bars[i].high - bars[i].low;
    if i == 0 then spread
    else
      var previous := bars[i - 1].close;
      Max(Max(spread, Abs(bars[i].high - previous)), Abs(bars[i].low - previous))
  }

  function TrueRange(bars: seq<Bar>): (r: seq<Cell>)
    ensures |r| == |bars|
  {
    seq(|bars|, i requires 0 <= i < |bars| => Some(TrueRangeAt(bars, i)))
  }

  /** Wilder's average range: `wilder_atr`, and `average_range` inside `_adx`. */
  function AverageRange(bars: seq<Bar>, period: nat): (r: seq<Cell>)
    requires period >= 1
    ensures |r| == |bars|
  {
    Ewm(TrueRange(bars), WilderAlpha(period), period)
  }

  /** It is missing exactly on the first period - 1 bars and never negative. */
  lemma AverageRangeDefined(bars: seq<Bar>, period: nat, i: nat)
    requires period >= 1 && i < |bars|
    ensures AverageRange(bars, period)[i].Some? <==> i + 1 >= period
    ensures AverageRange(bars, period)[i].Some? ==> AverageRange(bars, period)[i].value >= 0.0
  {
    var xs := TrueRange(bars)[..i + 1];
    var zeros: seq<Cell> := seq(|xs|, j => Some(0.0));
    EwmAfterObserved(xs, WilderAlpha(period));
    EwmAfterMono(zeros, xs, WilderAlpha(period));
    EwmAfterObserved(zeros, WilderAlpha(period));
    EwmAfterBounds(zeros, WilderAlpha(period), 0.0, 0.0);
  }

  /** The true range is the largest of the bar's own range and of its two distances from the close before. */
  lemma TrueRangeExactly(bars: seq<Bar>, i: nat)
    requires 0 < i < |bars|
    ensures var b, close, range := bars[i], bars[i - 1].close, TrueRangeAt(bars, i);
            && range >= b.high - b.low && range >= b.high - close && range >= close - b.low
            && (range == b.high - b.low || range == b.high - close || range == close - b.low)
    ensures TrueRangeAt(bars, 0) == bars[0].high - bars[0].low
  {
  }

  /** The average range follows Wilder's recurrence from the first true range on, and is shown from
      bar period - 1 on. */
  lemma AverageRangeRecurs(bars: seq<Bar>, period: nat, i: nat)
    requires period >= 1 && i < |bars|
    ensures var mean := Ewm(TrueRange(bars), WilderAlpha(period), 0);
            && (AverageRange(bars, period)[i] == if i + 1 >= period then mean[i] else None)
            && mean[0] == Some(TrueRangeAt(bars, 0)) && mean[i].Some?
            && (i > 0 ==> mean[i - 1].Some?
                          && WilderMoves(period, mean[i - 1].value, mean[i].value, TrueRangeAt(bars, i)))
  {
    var xs := TrueRange(bars);
    MeanExactly(xs, WilderAlpha(period), period, 0, i);
    MeanExactly(xs, WilderAlpha(period), period, 0, 0);
    if i > 0 {
      var mean := Ewm(xs, WilderAlpha(period), 0);
      WilderRecurrence(period, mean[i - 1].value, mean[i].value, TrueRangeAt(bars, i));
    }
  }

  // ----- the reflected market

  function ReflectBar(c: real, b: Bar): Bar {
    BarFields(c - b.low, c - b.high, c - b.close)
  }

  /** Every price p becomes c - p, so highs become lows. */
  function Reflect(c: real, bars: seq<Bar>): (r: seq<Bar>)
    ensures |r| == |bars|
  {
    seq(|bars|, i requires 0 <= i < |bars| => ReflectBar(c, bars[i]))
  }

  lemma TrueRangeReflects(c: real, bars: seq<Bar>)
    ensures TrueRange(Reflect(c, bars)) == TrueRange(bars)
  {
    forall i | 0 <= i < |bars| ensures TrueRangeAt(Reflect(c, bars), i) == TrueRangeAt(bars, i) {}
  }
}
