/** nse_dashboard/trading/indicators.py, `supertrend`: ratcheting bands with regime flips. */
module SuperTrend {
  import opened Values
  import opened Numbers
  import opened Series

  function Midpoint(b: Bar): (m: real)
    ensures b.low <= m <= b.high
  {
    (b.high + b.low) / 2.0
  }

  // ----- the specification: one value per bar from `start` on

  /** Bars with their basic bands, which are present from `start` on. */
  datatype Chart = Chart(bars: seq<Bar>, basicUpper: seq<Cell>, basicLower: seq<Cell>, start: nat)
  {
    ghost predicate Valid() {
      && |basicUpper| == |basicLower| == |bars| && start < |bars|
      && (forall i :: On(i) ==> basicUpper[i].Some? && basicLower[i].Some?)
    }

    /** The first bar's midpoint lies between its bands, as it does for a multiplier that is not negative. */
    ghost predicate Straddles()
      requires Valid()
    {
      BasicLower(start) <= Midpoint(bars[start]) <= BasicUpper(start)
    }

    ghost predicate On(i: int) { start <= i < |bars| && |basicUpper| == |basicLower| == |bars| }

    function BasicUpper(i: nat): real
      requires Valid() && On(i)
    {
      basicUpper[i].value
    }

    function BasicLower(i: nat): real
      requires Valid() && On(i)
    {
      basicLower[i].value
    }

    /** The upper band follows the basic band down and is reset by a close above it. */
    function Upper(i: nat): real
      requires Valid() && On(i)
    {
      if i == start then BasicUpper(i)
      else if BasicUpper(i) < Upper(i - 1) || bars[i - 1].close > Upper(i - 1) then BasicUpper(i)
      else Upper(i - 1)
    }

    /** The lower band follows the basic band up and is reset by a close below it. */
    function Lower(i: nat): real
      requires Valid() && On(i)
    {
      if i == start then BasicLower(i)
      else if BasicLower(i) > Lower(i - 1) || bars[i - 1].close < Lower(i - 1) then BasicLower(i)
      else Lower(i - 1)
    }

    predicate Bullish(i: nat)
      requires Valid() && On(i)
    {
      if i == start then bars[i].close >= Midpoint(bars[i])
      else if Bullish(i - 1) then bars[i].close >= Lower(i)
      else bars[i].close > Upper(i)
    }

    function Line(i: nat): real
      requires Valid() && On(i)
    {
      if Bullish(i) then Lower(i) else Upper(i)
    }

    predicate Flip(i: nat)
      requires Valid() && On(i)
    {
      i > start && Bullish(i) != Bullish(i - 1)
    }

    /** The trend turns bearish on a close below the lower band and bullish on a close above the upper one, and on no
        other. */
    lemma FlipsExactly(i: nat)
      requires Valid() && On(i) && i > start
      ensures Bullish(i - 1) ==> (Flip(i) <==> bars[i].close < Lower(i))
      ensures !Bullish(i - 1) ==> (Flip(i) <==> bars[i].close > Upper(i))
    {
    }

    // ----- bands as running extremes

    ghost predicate UpperReset(i: nat)
      requires Valid() && On(i)
    {
      i == start || bars[i - 1].close > Upper(i - 1)
    }

    ghost predicate LowerReset(i: nat)
      requires Valid() && On(i)
    {
      i == start || bars[i - 1].close < Lower(i - 1)
    }

    /** `r` is the last reset at or before `i`. */
    ghost predicate LastUpperReset(r: nat, i: nat)
      requires Valid() && On(i)
    {
      On(r) && r <= i && UpperReset(r) && forall k :: r < k <= i ==> !UpperReset(k)
    }

    ghost predicate LastLowerReset(r: nat, i: nat)
      requires Valid() && On(i)
    {
      On(r) && r <= i && LowerReset(r) && forall k :: r < k <= i ==> !LowerReset(k)
    }

    /** The upper band is the least basic upper band since its last reset. */
    lemma {:induction false} UpperIsRunningMinimum(r: nat, i: nat)
      requires Valid() && On(i) && LastUpperReset(r, i)
      ensures forall k :: r <= k <= i ==> Upper(i) <= BasicUpper(k)
      ensures exists k :: r <= k <= i && Upper(i) == BasicUpper(k)
    {
      if i == r {
        assert Upper(i) == BasicUpper(i);
      } else {
        assert !UpperReset(i);
        UpperIsRunningMinimum(r, i - 1);
        var k :| r <= k <= i - 1 && Upper(i - 1) == BasicUpper(k);
        assert Upper(i) == BasicUpper(i) || Upper(i) == BasicUpper(k);
      }
    }

    /** The lower band is the greatest basic lower band since its last reset. */
    lemma {:induction false} LowerIsRunningMaximum(r: nat, i: nat)
      requires Valid() && On(i) && LastLowerReset(r, i)
      ensures forall k :: r <= k <= i ==> Lower(i) >= BasicLower(k)
      ensures exists k :: r <= k <= i && Lower(i) == BasicLower(k)
    {
      if i == r {
        assert Lower(i) == BasicLower(i);
      } else {
        assert !LowerReset(i);
        LowerIsRunningMaximum(r, i - 1);
        var k :| r <= k <= i - 1 && Lower(i - 1) == BasicLower(k);
        assert Lower(i) == BasicLower(i) || Lower(i) == BasicLower(k);
      }
    }

    /** Every bar has a last reset, so the two facts above describe every band value. */
    lemma {:induction false} ResetsExist(i: nat) returns (upper: nat, lower: nat)
      requires Valid() && On(i)
      ensures LastUpperReset(upper, i) && LastLowerReset(lower, i)
    {
      upper, lower := i, i;
      if i != start {
        var u, l := ResetsExist(i - 1);
        upper := if UpperReset(i) then i else u;
        lower := if LowerReset(i) then i else l;
      }
    }

    /** The bands are in order exactly if every basic lower band since the last lower reset is at most every basic upper
        band since the last upper reset. */
    lemma BandsOrderedExactly(u: nat, l: nat, i: nat)
      requires Valid() && On(i) && LastUpperReset(u, i) && LastLowerReset(l, i)
      ensures Lower(i) <= Upper(i) <==>
              forall j, k :: l <= j <= i && u <= k <= i ==> BasicLower(j) <= BasicUpper(k)
    {
      UpperIsRunningMinimum(u, i);
      LowerIsRunningMaximum(l, i);
    }

    // ----- the line as a trailing stop

    /** On a bar that keeps its regime the close is on the regime's side of the line. */
    lemma CloseRespectsLine(i: nat)
      requires Valid() && On(i) && (i > start || Straddles()) && !Flip(i)
      ensures Bullish(i) ==> bars[i].close >= Line(i)
      ensures !Bullish(i) ==> bars[i].close <= Line(i)
    {
    }

    /** A regime kept over two bars after its flip bar moves the line only its own way. */
    lemma LineTrailsOneBar(i: nat)
      requires Valid() && start < i && On(i) && (i > start + 1 || Straddles())
      requires Bullish(i) == Bullish(i - 1) && !Flip(i - 1)
      ensures Bullish(i) ==> Line(i) >= Line(i - 1)
      ensures !Bullish(i) ==> Line(i) <= Line(i - 1)
    {
      CloseRespectsLine(i - 1);
    }

    ghost predicate SameRegime(a: nat, b: nat)
      requires Valid() && start <= a <= b < |bars|
    {
      forall k :: a <= k <= b ==> Bullish(k) == Bullish(a)
    }

    /** Along a whole run of one regime that starts past its flip bar, a bullish line never falls and a
        bearish line never rises. */
    lemma {:induction false} LineTrails(a: nat, i: nat, b: nat)
      requires Valid() && start <= a <= i <= b < |bars| && (a > start || Straddles())
      requires SameRegime(a, b) && !Flip(a)
      ensures Bullish(a) ==> Line(i) <= Line(b)
      ensures !Bullish(a) ==> Line(i) >= Line(b)
    {
      if i < b {
        assert Bullish(b - 1) == Bullish(a) && Bullish(b) == Bullish(a);
        assert b - 1 > a ==> Bullish(b - 2) == Bullish(a);
        LineTrails(a, i, b - 1);
        LineTrailsOneBar(b);
      }
    }

    /** When a kept regime moves its line the wrong way from one bar to the next. */
    ghost predicate TurnsBack(i: nat)
      requires Valid() && On(i) && On(i + 1)
    {
      if Bullish(i) then bars[i].close < Lower(i) && BasicLower(i + 1) < Lower(i)
      else bars[i].close > Upper(i) && BasicUpper(i + 1) > Upper(i)
    }

    /** The line never moves against the regime of bar `a` between `a` and `b`. */
    ghost predicate Trails(a: nat, b: nat)
      requires Valid() && start <= a <= b < |bars|
    {
      forall i, j :: a <= i <= j <= b ==> if Bullish(a) then Line(i) <= Line(j) else Line(i) >= Line(j)
    }

    /** One regime trails from its very first bar, flip or not, if and only if that bar closes on the right side of its
        own line or the next basic band does not give way: no later bar can turn the line back. */
    lemma LineTrailsExactly(a: nat, b: nat)
      requires Valid() && start <= a < b < |bars| && SameRegime(a, b)
      ensures Trails(a, b) <==> !TurnsBack(a)
      ensures TurnsBack(a) && (a > start || Straddles()) ==> Flip(a)
    {
      assert Bullish(a + 1) == Bullish(a);
      if !Flip(a) && (a > start || Straddles()) {
        CloseRespectsLine(a);
      }
      if TurnsBack(a) {
        assert !(if Bullish(a) then Line(a) <= Line(a + 1) else Line(a) >= Line(a + 1));
      } else {
        assert if Bullish(a) then Line(a) <= Line(a + 1) else Line(a) >= Line(a + 1);
        forall i, j | a <= i <= j <= b
          ensures if Bullish(a) then Line(i) <= Line(j) else Line(i) >= Line(j)
        {
          FollowFrom(a, i, j);
        }
      }
    }

    lemma FollowFrom(a: nat, i: nat, j: nat)
      requires Valid() && start <= a <= i <= j < |bars| && a + 1 < |bars|
      requires SameRegime(a, j) && Bullish(a + 1) == Bullish(a)
      requires if Bullish(a) then Line(a) <= Line(a + 1) else Line(a) >= Line(a + 1)
      ensures if Bullish(a) then Line(i) <= Line(j) else Line(i) >= Line(j)
    {
      if a < j {
        var from := if i > a then i else a + 1;
        assert Bullish(from) == Bullish(a) && Bullish(from - 1) == Bullish(a);
        assert SameRegime(from, j);
        LineTrails(from, from, j);
        LineTrails(a + 1, a + 1, from);
      }
    }
  }

  // ----- the in-place computation

  /** The index of the first present cell, or None. */
  method FirstPresent(cells: seq<Cell>) returns (start: Option<nat>)
    ensures start.None? ==> forall i :: 0 <= i < |cells| ==> cells[i].None?
    ensures start.Some? ==> start.value < |cells| && cells[start.value].Some?
    ensures start.Some? ==> forall i :: 0 <= i < start.value ==> cells[i].None?
  {
    for i := 0 to |cells|
      invariant forall j :: 0 <= j < i ==> cells[j].None?
    {
      if cells[i].Some? {
        return Some(i);
      }
    }
    start := None;
  }

  /** The first bar with an average range is bar period - 1. */
  method FirstAverage(bars: seq<Bar>, period: nat) returns (start: Option<nat>)
    requires period >= 1
    ensures start == if |bars| >= period then Some(period - 1) else None
  {
    var atr := AverageRange(bars, period);
    forall i | 0 <= i < |bars| ensures atr[i].Some? <==> i + 1 >= period {
      AverageRangeDefined(bars, period, i);
    }
    start := FirstPresent(atr);
    assert |bars| >= period ==> atr[period - 1].Some?;
  }

  function NextUpper(basic: Cell, previous: Cell, closeBefore: real): Cell {
    if Below(basic, previous) || Below(previous, Some(closeBefore)) then basic else previous
  }

  function NextLower(basic: Cell, previous: Cell, closeBefore: real): Cell {
    if Below(previous, basic) || Below(Some(closeBefore), previous) then basic else previous
  }

  function NextTrend(bullish: bool, upper: Cell, lower: Cell, close: real): bool {
    if bullish then AtMost(lower, Some(close)) else Below(upper, Some(close))
  }

  /** Column values up to `end` that follow from their left neighbours. */
  ghost predicate Filled(c: Chart, upper: seq<Cell>, lower: seq<Cell>, trend: seq<bool>, end: int)
    requires c.Valid() && |upper| == |lower| == |trend| == |c.bars| && c.start < end <= |c.bars|
  {
    && (forall k :: 0 <= k < c.start ==> !trend[k])
    && (forall k :: 0 <= k < |c.bars| && (k <= c.start || k >= end) ==>
         upper[k] == c.basicUpper[k] && lower[k] == c.basicLower[k])
    && trend[c.start] == (c.bars[c.start].close >= Midpoint(c.bars[c.start]))
    && (forall k :: c.start < k < end ==> upper[k] == NextUpper(c.basicUpper[k], upper[k - 1], c.bars[k - 1].close))
    && (forall k :: c.start < k < end ==> lower[k] == NextLower(c.basicLower[k], lower[k - 1], c.bars[k - 1].close))
    && (forall k :: c.start < k < end ==> trend[k] == NextTrend(trend[k - 1], upper[k], lower[k], c.bars[k].close))
  }

  /** Such columns hold the specified values. */
  lemma {:induction false} FilledIsSpecified(c: Chart, upper: seq<Cell>, lower: seq<Cell>, trend: seq<bool>, i: nat)
    requires c.Valid() && |upper| == |lower| == |trend| == |c.bars| && c.On(i)
    requires Filled(c, upper, lower, trend, |c.bars|)
    ensures upper[i] == Some(c.Upper(i)) && lower[i] == Some(c.Lower(i)) && trend[i] == c.Bullish(i)
  {
    if i == c.start {
      assert upper[i] == c.basicUpper[i] && lower[i] == c.basicLower[i];
    } else {
      FilledIsSpecified(c, upper, lower, trend, i - 1);
      assert upper[i] == NextUpper(c.basicUpper[i], upper[i - 1], c.bars[i - 1].close);
      assert lower[i] == NextLower(c.basicLower[i], lower[i - 1], c.bars[i - 1].close);
      assert trend[i] == NextTrend(trend[i - 1], upper[i], lower[i], c.bars[i].close);
    }
  }

  lemma FilledStep(c: Chart, upper: seq<Cell>, lower: seq<Cell>, trend: seq<bool>, i: nat, u: Cell, l: Cell, t: bool)
    requires c.Valid() && |upper| == |lower| == |trend| == |c.bars| && c.start < i < |c.bars|
    requires Filled(c, upper, lower, trend, i)
    requires u == NextUpper(upper[i], upper[i - 1], c.bars[i - 1].close)
    requires l == NextLower(lower[i], lower[i - 1], c.bars[i - 1].close)
    requires t == NextTrend(trend[i - 1], u, l, c.bars[i].close)
    ensures Filled(c, upper[i := u], lower[i := l], trend[i := t], i + 1)
  {
    assert upper[i] == c.basicUpper[i] && lower[i] == c.basicLower[i];
  }

  /** The loop: a band cell that is not replaced by its neighbour keeps its basic value. */
  method FillBands(c: Chart, upper: array<Cell>, lower: array<Cell>, trend: array<bool>)
    requires c.Valid() && upper.Length == lower.Length == trend.Length == |c.bars|
    requires upper != lower && upper[..] == c.basicUpper && lower[..] == c.basicLower
    requires forall k :: 0 <= k < |c.bars| ==> !trend[k]
    modifies upper, lower, trend
    ensures Filled(c, upper[..], lower[..], trend[..], |c.bars|)
  {
    trend[c.start] := c.bars[c.start].close >= Midpoint(c.bars[c.start]);
    for i := c.start + 1 to |c.bars|
      invariant Filled(c, upper[..], lower[..], trend[..], i)
    {
      ghost var us, ls, ts := upper[..], lower[..], trend[..];
      var closeBefore := c.bars[i - 1].close;
      upper[i] := NextUpper(upper[i], upper[i - 1], closeBefore);
      lower[i] := NextLower(lower[i], lower[i - 1], closeBefore);
      trend[i] := NextTrend(trend[i - 1], upper[i], lower[i], c.bars[i].close);
      FilledStep(c, us, ls, ts, i, upper[i], lower[i], trend[i]);
      assert upper[..] == us[i := upper[i]] && lower[..] == ls[i := lower[i]] && trend[..] == ts[i := trend[i]];
    }
  }

  /** What `supertrend` returns: nothing before the first average, the specified columns from there on. */
  ghost predicate Columns(c: Chart, line: seq<Cell>, bullish: seq<bool>, flip: seq<bool>)
    requires c.Valid()
  {
    && |line| == |bullish| == |flip| == |c.bars|
    && (forall i :: 0 <= i < c.start ==> line[i] == None && !bullish[i] && !flip[i])
    && (forall i :: c.On(i) ==> line[i] == Some(c.Line(i)))
    && (forall i :: c.On(i) ==> bullish[i] == c.Bullish(i))
    && (forall i :: c.On(i) ==> flip[i] == c.Flip(i))
  }

  /** `midpoint + multiplier * atr`, missing where the average range is. */
  function Band(midpoint: real, multiplier: real, atr: Cell): Cell {
    if atr.None? then None else Some(midpoint + multiplier * atr.value)
  }

  lemma BandSide(midpoint: real, multiplier: real, atr: Cell)
    requires atr.Some? && atr.value >= 0.0 && multiplier >= 0.0
    ensures Band(midpoint, multiplier, atr).value >= midpoint
    ensures Band(midpoint, -multiplier, atr).value <= midpoint
  {
    MulMono(0.0, atr.value, multiplier);
    assert -multiplier * atr.value == -(multiplier * atr.value);
  }

  function Bands(bars: seq<Bar>, period: nat, multiplier: real): (r: seq<Cell>)
    requires period >= 1
    ensures |r| == |bars|
  {
    seq(|bars|, i requires 0 <= i < |bars| => Band(Midpoint(bars[i]), multiplier, AverageRange(bars, period)[i]))
  }

  function ChartOf(bars: seq<Bar>, period: nat, multiplier: real): Chart
    requires period >= 1
  {
    Chart(bars, Bands(bars, period, multiplier), Bands(bars, period, -multiplier), period - 1)
  }

  lemma ChartOfValid(bars: seq<Bar>, period: nat, multiplier: real)
    requires 1 <= period <= |bars|
    ensures var c := ChartOf(bars, period, multiplier);
            && c.Valid() && (forall i :: 0 <= i < c.start ==> c.basicUpper[i] == None)
            && (multiplier >= 0.0 ==> c.Straddles())
  {
    var c := ChartOf(bars, period, multiplier);
    forall i | 0 <= i < |bars|
      ensures i < c.start ==> c.basicUpper[i] == None
      ensures i >= c.start ==> c.basicUpper[i].Some? && c.basicLower[i].Some?
      ensures i >= c.start && multiplier >= 0.0 ==>
                c.basicLower[i].value <= Midpoint(bars[i]) <= c.basicUpper[i].value
    {
      AverageRangeDefined(bars, period, i);
      if i >= c.start && multiplier >= 0.0 {
        BandSide(Midpoint(bars[i]), multiplier, AverageRange(bars, period)[i]);
      }
    }
  }

  /** Two bands around the middle of a bar, `multiplier` average ranges away on either side. */
  ghost predicate IsBandPair(upper: real, lower: real, bar: Bar, multiplier: real, range: real) {
    upper + lower == bar.high + bar.low && upper - lower == 2.0 * multiplier * range
  }

  lemma BandAround(bar: Bar, multiplier: real, atr: Cell)
    requires atr.Some?
    ensures IsBandPair(Band(Midpoint(bar), multiplier, atr).value, Band(Midpoint(bar), -multiplier, atr).value, bar,
                       multiplier, atr.value)
  {
    assert -multiplier * atr.value == -(multiplier * atr.value);
  }

  /** The basic bands of a bar lie around the middle of its range, a multiple of the average range
      away on either side. */
  lemma BandsExactly(bars: seq<Bar>, period: nat, multiplier: real, i: nat)
    requires 1 <= period <= i + 1 <= |bars|
    ensures ChartOf(bars, period, multiplier).Valid() && AverageRange(bars, period)[i].Some?
    ensures var c := ChartOf(bars, period, multiplier);
            c.On(i)
            && IsBandPair(c.BasicUpper(i), c.BasicLower(i), bars[i], multiplier, AverageRange(bars, period)[i].value)
  {
    ChartOfValid(bars, period, multiplier);
    AverageRangeDefined(bars, period, i);
    BandAround(bars[i], multiplier, AverageRange(bars, period)[i]);
  }

  /** The chart starts on bar period - 1, with the trend given by the half of its range that this bar closes in. */
  lemma StartExactly(bars: seq<Bar>, period: nat, multiplier: real)
    requires 1 <= period <= |bars|
    ensures var c := ChartOf(bars, period, multiplier);
            && c.Valid() && c.start == period - 1
            && (c.Bullish(c.start) <==> 2.0 * bars[period - 1].close >= bars[period - 1].high + bars[period - 1].low)
  {
    ChartOfValid(bars, period, multiplier);
  }

  // ----- the reflected market

  lemma BandReflects(c: real, midpoint: real, multiplier: real, atr: Cell)
    ensures Band(c - midpoint, multiplier, atr) == Mirror(c, Band(midpoint, -multiplier, atr))
    ensures Band(c - midpoint, -multiplier, atr) == Mirror(c, Band(midpoint, multiplier, atr))
  {
    if atr.Some? {
      assert -multiplier * atr.value == -(multiplier * atr.value);
    }
  }

  lemma BasicBandsReflect(c: real, bars: seq<Bar>, period: nat, multiplier: real)
    requires period >= 1
    ensures var chart, mirror := ChartOf(bars, period, multiplier), ChartOf(Reflect(c, bars), period, multiplier);
            && mirror.start == chart.start
            && Mirrored(c, chart.basicLower, mirror.basicUpper) && Mirrored(c, chart.basicUpper, mirror.basicLower)
  {
    TrueRangeReflects(c, bars);
    forall i | 0 <= i < |bars|
      ensures var atr := AverageRange(bars, period)[i];
              && Band(Midpoint(Reflect(c, bars)[i]), multiplier, atr) ==
                   Mirror(c, Band(Midpoint(bars[i]), -multiplier, atr))
              && Band(Midpoint(Reflect(c, bars)[i]), -multiplier, atr) ==
                   Mirror(c, Band(Midpoint(bars[i]), multiplier, atr))
    {
      assert Midpoint(Reflect(c, bars)[i]) == c - Midpoint(bars[i]);
      BandReflects(c, Midpoint(bars[i]), multiplier, AverageRange(bars, period)[i]);
    }
  }

  /** A chart on reflected bars with the basic bands of the other one, exchanged and reflected. */
  ghost predicate IsMirror(c: real, chart: Chart, mirror: Chart) {
    && chart.Valid() && mirror.Valid() && mirror.start == chart.start && mirror.bars == Reflect(c, chart.bars)
    && Mirrored(c, chart.basicLower, mirror.basicUpper) && Mirrored(c, chart.basicUpper, mirror.basicLower)
  }

  lemma {:induction false} BandsReflect(c: real, chart: Chart, mirror: Chart, i: nat)
    requires IsMirror(c, chart, mirror) && chart.On(i)
    ensures mirror.Upper(i) == c - chart.Lower(i) && mirror.Lower(i) == c - chart.Upper(i)
  {
    if i > chart.start {
      BandsReflect(c, chart, mirror, i - 1);
      assert mirror.bars[i - 1].close == c - chart.bars[i - 1].close;
    }
  }

  lemma {:induction false} TrendReflects(c: real, chart: Chart, mirror: Chart, i: nat)
    requires IsMirror(c, chart, mirror) && chart.On(i)
    requires chart.bars[chart.start].close != Midpoint(chart.bars[chart.start])
    ensures mirror.Bullish(i) == !chart.Bullish(i)
  {
    BandsReflect(c, chart, mirror, i);
    assert mirror.bars[i].close == c - chart.bars[i].close;
    if i > chart.start {
      TrendReflects(c, chart, mirror, i - 1);
    } else {
      assert Midpoint(mirror.bars[i]) == c - Midpoint(chart.bars[i]);
    }
  }

  /** Reflecting every bar about any price exchanges the two bands and reflects them. Unless the first bar closes
      exactly in the middle of its range it also turns every trend around and reflects the line. */
  lemma ChartReflects(c: real, bars: seq<Bar>, period: nat, multiplier: real, i: nat)
    requires 1 <= period <= i + 1 <= |bars|
    ensures ChartOf(bars, period, multiplier).Valid() && ChartOf(Reflect(c, bars), period, multiplier).Valid()
    ensures ChartOf(bars, period, multiplier).On(i) && ChartOf(Reflect(c, bars), period, multiplier).On(i)
    ensures var chart, mirror := ChartOf(bars, period, multiplier), ChartOf(Reflect(c, bars), period, multiplier);
            && mirror.Upper(i) == c - chart.Lower(i) && mirror.Lower(i) == c - chart.Upper(i)
            && (2.0 * bars[period - 1].close != bars[period - 1].high + bars[period - 1].low ==>
                  mirror.Bullish(i) == !chart.Bullish(i) && mirror.Line(i) == c - chart.Line(i))
  {
    var chart, mirror := ChartOf(bars, period, multiplier), ChartOf(Reflect(c, bars), period, multiplier);
    ChartOfValid(bars, period, multiplier);
    ChartOfValid(Reflect(c, bars), period, multiplier);
    BasicBandsReflect(c, bars, period, multiplier);
    BandsReflect(c, chart, mirror, i);
    if 2.0 * bars[period - 1].close != bars[period - 1].high + bars[period - 1].low {
      TrendReflects(c, chart, mirror, i);
    }
  }

  // ----- the columns

  predicate Changed(trend: seq<bool>, start: nat, i: nat)
    requires i < |trend|
  {
    i > start && trend[i] != trend[i - 1]
  }

  lemma ColumnsAreSpecified(c: Chart, upper: seq<Cell>, lower: seq<Cell>, trend: seq<bool>, line: seq<Cell>,
                            flip: seq<bool>)
    requires c.Valid() && |upper| == |lower| == |trend| == |line| == |flip| == |c.bars|
    requires Filled(c, upper, lower, trend, |c.bars|)
    requires forall k :: 0 <= k < c.start ==> c.basicUpper[k] == None
    requires forall k :: 0 <= k < |c.bars| ==> line[k] == if trend[k] then lower[k] else upper[k]
    requires forall k :: 0 <= k < |c.bars| ==> flip[k] == Changed(trend, c.start, k)
    ensures Columns(c, line, trend, flip)
  {
    forall i | 0 <= i < |c.bars|
      ensures i < c.start ==> line[i] == None && !trend[i] && !flip[i]
      ensures c.On(i) ==> line[i] == Some(c.Line(i)) && trend[i] == c.Bullish(i) && flip[i] == c.Flip(i)
    {
      if c.On(i) {
        FilledIsSpecified(c, upper, lower, trend, i);
        if i > c.start {
          FilledIsSpecified(c, upper, lower, trend, i - 1);
        }
      }
    }
  }

  /** `supertrend`. */
  method Compute(bars: seq<Bar>, period: nat, multiplier: real)
    returns (line: seq<Cell>, bullish: seq<bool>, flip: seq<bool>)
    requires period >= 1
    ensures |bars| < period ==> line == seq(|bars|, i => None) && bullish == flip == seq(|bars|, i => false)
    ensures |bars| >= period ==>
              ChartOf(bars, period, multiplier).Valid()
              && Columns(ChartOf(bars, period, multiplier), line, bullish, flip)
  {
    var n := |bars|;
    var start := FirstAverage(bars, period);
    if start.None? {
      return seq(n, i => None), seq(n, i => false), seq(n, i => false);
    }
    var c := ChartOf(bars, period, multiplier);
    ChartOfValid(bars, period, multiplier);
    var upper := new Cell[n](i requires 0 <= i < n => c.basicUpper[i]);
    var lower := new Cell[n](i requires 0 <= i < n => c.basicLower[i]);
    var trend := new bool[n](i => false);
    assert upper[..] == c.basicUpper && lower[..] == c.basicLower;
    FillBands(c, upper, lower, trend);
    line := seq(n, i requires 0 <= i < n reads upper, lower, trend => if trend[i] then lower[i] else upper[i]);
    bullish := trend[..];
    flip := seq(n, i requires 0 <= i < n => Changed(bullish, c.start, i));
    ColumnsAreSpecified(c, upper[..], lower[..], bullish, line, flip);
  }

  // ----- a line that falls

  /** The bars of the example: two quiet ones, a gap up, and a bar that closes higher still. */
  function GapBars(): seq<Bar> {
    var quiet: Bar, gap: Bar, next: Bar :=
      BarFields(100.0, 98.0, 98.5), BarFields(125.0, 105.0, 106.0), BarFields(116.0, 108.0, 115.0);
    [quiet, quiet, gap, next]
  }

  lemma BlendHalf(average: real, x: real)
    ensures Blend(0.5, average, 0.5, x) == (average + x) / 2.0
  {
    assert (0.5 * average + 0.5 * x) / (0.5 + 0.5) == 0.5 * average + 0.5 * x;
  }

  /** With a period of two the average range moves half the way to the true range. */
  lemma HalfWay(xs: seq<Cell>, x: real)
    requires xs != []
    requires var st := EwmAfter(xs, 0.5); st.average.Some? && st.oldWeight == 1.0
    ensures var st, next := EwmAfter(xs, 0.5), EwmAfter(xs + [Some(x)], 0.5);
            next == EwmState(Some((st.average.value + x) / 2.0), 1.0, st.observed + 1)
  {
    var all: seq<Cell> := xs + [Some(x)];
    assert all[..|all| - 1] == xs;
    assert Fade(1.0, 0.5) == 0.5;
    BlendHalf(EwmAfter(xs, 0.5).average.value, x);
    assert EwmAfter(all, 0.5) == EwmStep(EwmAfter(xs, 0.5), Some(x), 0.5);
  }

  lemma GapTrueRange()
    ensures TrueRange(GapBars()) == [Some(2.0), Some(2.0), Some(26.5), Some(10.0)]
  {
  }

  lemma MeansOfFour(xs: seq<Cell>)
    requires xs == [Some(2.0), Some(2.0), Some(26.5), Some(10.0)]
    ensures EwmLast(xs[..2], 0.5, 2) == Some(2.0)
    ensures EwmLast(xs[..3], 0.5, 2) == Some(14.25)
    ensures EwmLast(xs[..4], 0.5, 2) == Some(12.125)
  {
    assert xs[..1][..0] == [];
    assert EwmAfter(xs[..1], 0.5) == EwmState(Some(2.0), 1.0, 1);
    assert xs[..2] == xs[..1] + [Some(2.0)] && xs[..3] == xs[..2] + [Some(26.5)] && xs[..4] == xs[..3] + [Some(10.0)];
    HalfWay(xs[..1], 2.0);
    HalfWay(xs[..2], 26.5);
    HalfWay(xs[..3], 10.0);
  }

  lemma GapRanges()
    ensures var atr := AverageRange(GapBars(), 2);
            |atr| == 4 && atr[1] == Some(2.0) && atr[2] == Some(14.25) && atr[3] == Some(12.125)
  {
    GapTrueRange();
    MeansOfFour(TrueRange(GapBars()));
    assert WilderAlpha(2) == 0.5;
  }

  /** `supertrend` with a period of two and a multiplier of one half: the gap lifts the lower band above the upper one,
      the trend turns bullish on a close below its own line, and the line then falls while the trend stays bullish. */
  lemma LineCanFallAfterFlip()
    ensures var c := ChartOf(GapBars(), 2, 0.5);
            && c.Valid() && c.Straddles() && c.On(2) && c.On(3)
            && c.Lower(2) > c.Upper(2) && c.Flip(2) && c.SameRegime(2, 3) && c.TurnsBack(2)
            && c.bars[2].close < c.Line(2) && c.Line(3) < c.Line(2)
  {
    var c := ChartOf(GapBars(), 2, 0.5);
    ChartOfValid(GapBars(), 2, 0.5);
    GapRanges();
    assert c.BasicUpper(1) == 100.0 && c.BasicLower(1) == 98.0;
    assert c.BasicUpper(2) == 122.125 && c.BasicLower(2) == 107.875;
    assert c.BasicUpper(3) == 118.0625 && c.BasicLower(3) == 105.9375;
    assert c.Upper(1) == 100.0 && c.Lower(1) == 98.0 && !c.Bullish(1);
    assert c.Upper(2) == 100.0 && c.Lower(2) == 107.875 && c.Bullish(2);
    assert c.Lower(3) == 105.9375 && c.Bullish(3);
  }
}
