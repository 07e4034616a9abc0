/** nse_dashboard/options/max_pain.py: the settlement at which option writers pay least. */
module MaxPain {
  import opened Values
  import opened Numbers

  datatype OptionType = Call | Put

  datatype TickFields = TickFields(strike: real, optionType: OptionType, openInterest: int, lotSize: int)

  /** `OptionTick.__post_init__` refuses every other tick. */
  type OptionTick = t: TickFields | t.strike > 0.0 && t.openInterest >= 0 && t.lotSize > 0
    witness TickFields(1.0, Call, 0, 1)

  datatype ChainError = ChainRequired

  datatype Report = Report(strike: real, payout: real, payouts: map<real, real>)

  function Contracts(t: OptionTick): (n: real)
    ensures n >= 0.0
  {
    (t.openInterest * t.lotSize) as real
  }

  function Intrinsic(t: OptionTick, settlement: real): real {
    match t.optionType
    case Call => Max(settlement - t.strike, 0.0)
    case Put => Max(t.strike - settlement, 0.0)
  }

  /** What one tick's open contracts pay out at a settlement price. */
  function TickPayout(t: OptionTick, settlement: real): real {
    Scale(Intrinsic(t, settlement), Contracts(t))
  }

  /** A value per contract, times a number of contracts. */
  function Scale(value: real, contracts: real): real { value * contracts }

  function TickPayouts(chain: seq<OptionTick>, settlement: real): (r: seq<real>)
    ensures |r| == |chain|
  {
    seq(|chain|, i requires 0 <= i < |chain| => TickPayout(chain[i], settlement))
  }

  /** Total payout of the chain when the underlying settles at `settlement`. */
  function Payout(chain: seq<OptionTick>, settlement: real): real {
    Sum(TickPayouts(chain, settlement))
  }

  ghost predicate Listed(chain: seq<OptionTick>, strike: real) {
    exists t :: t in chain && t.strike == strike
  }

  ghost predicate Increasing(xs: seq<real>) {
    forall i, j :: 0 <= i < j < |xs| ==> xs[i] < xs[j]
  }

  /** Inserts a strike into a sorted list of distinct strikes. */
  function Insert(xs: seq<real>, x: real): (r: seq<real>)
    requires Increasing(xs)
    ensures Increasing(r)
    ensures forall y :: y in r <==> y in xs || y == x
  {
    if xs == [] then [x]
    else
      var last := xs[|xs| - 1];
      var front := xs[..|xs| - 1];
      assert forall y :: y in xs <==> y in front || y == last;
      if x > last then xs + [x]
      else if x == last then xs
      else
        var inserted := Insert(front, x);
        assert forall i :: 0 <= i < |inserted| ==> inserted[i] in inserted;
        assert forall y :: y in front ==> y < last;
        inserted + [last]
  }

  /** `sorted({tick.strike for tick in chain})`. */
  function Strikes(chain: seq<OptionTick>): (r: seq<real>)
    ensures Increasing(r)
    ensures forall y :: y in r <==> Listed(chain, y)
    ensures chain != [] ==> r != []
  {
    if chain == [] then []
    else
      var last := chain[|chain| - 1];
      var front := chain[..|chain| - 1];
      var r := Insert(Strikes(front), last.strike);
      assert forall t :: t in chain <==> t in front || t == last;
      assert last.strike in r;
      r
  }

  // ----- the shape of the payout curve

  /** A height on or below the chord of two others, weighted u : v with w = u + v. */
  ghost predicate BelowChord(f: real, fa: real, fb: real, w: real, u: real, v: real) {
    f * w <= fa * u + fb * v
  }

  ghost predicate OnChord(f: real, fa: real, fb: real, w: real, u: real, v: real) {
    f * w == fa * u + fb * v
  }

  lemma LineOnChord(f: real, fa: real, fb: real, w: real, u: real, v: real, slope: real)
    requires w == u + v && f == fa + slope * v && fb == f + slope * u
    ensures OnChord(f, fa, fb, w, u, v)
  {
  }

  lemma RampConvex(f: real, fa: real, fb: real, w: real, u: real, v: real)
    requires u >= 0.0 && v >= 0.0 && OnChord(f, fa, fb, w, u, v)
    ensures BelowChord(Max(f, 0.0), Max(fa, 0.0), Max(fb, 0.0), w, u, v)
    ensures (fa >= 0.0 && fb >= 0.0 && f >= 0.0) || (fa <= 0.0 && fb <= 0.0 && f <= 0.0) ==>
              OnChord(Max(f, 0.0), Max(fa, 0.0), Max(fb, 0.0), w, u, v)
  {
    MulMono(fa, Max(fa, 0.0), u);
    MulMono(fb, Max(fb, 0.0), v);
    MulMono(0.0, Max(fa, 0.0), u);
    MulMono(0.0, Max(fb, 0.0), v);
  }

  lemma IntrinsicConvex(t: OptionTick, a: real, s: real, b: real)
    requires a <= s <= b
    ensures BelowChord(Intrinsic(t, s), Intrinsic(t, a), Intrinsic(t, b), b - a, b - s, s - a)
    ensures t.strike <= a || b <= t.strike ==>
              OnChord(Intrinsic(t, s), Intrinsic(t, a), Intrinsic(t, b), b - a, b - s, s - a)
  {
    var k, u, v := t.strike, b - s, s - a;
    match t.optionType
    case Call =>
      LineOnChord(s - k, a - k, b - k, b - a, u, v, 1.0);
      RampConvex(s - k, a - k, b - k, b - a, u, v);
    case Put =>
      LineOnChord(k - s, k - a, k - b, b - a, u, v, -1.0);
      RampConvex(k - s, k - a, k - b, b - a, u, v);
  }

  lemma ScaleChord(f: real, fa: real, fb: real, w: real, u: real, v: real, n: real)
    requires n >= 0.0 && BelowChord(f, fa, fb, w, u, v)
    ensures BelowChord(Scale(f, n), Scale(fa, n), Scale(fb, n), w, u, v)
    ensures OnChord(f, fa, fb, w, u, v) ==> OnChord(Scale(f, n), Scale(fa, n), Scale(fb, n), w, u, v)
  {
    MulMono(f * w, fa * u + fb * v, n);
    assert f * n * w == f * w * n;
    assert fa * n * u + fb * n * v == (fa * u + fb * v) * n;
  }

  lemma TickConvex(t: OptionTick, a: real, s: real, b: real)
    requires a <= s <= b
    ensures BelowChord(TickPayout(t, s), TickPayout(t, a), TickPayout(t, b), b - a, b - s, s - a)
    ensures t.strike <= a || b <= t.strike ==>
              OnChord(TickPayout(t, s), TickPayout(t, a), TickPayout(t, b), b - a, b - s, s - a)
  {
    IntrinsicConvex(t, a, s, b);
    ScaleChord(Intrinsic(t, s), Intrinsic(t, a), Intrinsic(t, b), b - a, b - s, s - a, Contracts(t));
  }

  /** Sums keep both chord relations. */
  lemma {:induction false} SumChord(xs: seq<real>, xa: seq<real>, xb: seq<real>, w: real, u: real, v: real)
    requires |xs| == |xa| == |xb|
    requires forall i :: 0 <= i < |xs| ==> BelowChord(xs[i], xa[i], xb[i], w, u, v)
    ensures BelowChord(Sum(xs), Sum(xa), Sum(xb), w, u, v)
    ensures (forall i :: 0 <= i < |xs| ==> OnChord(xs[i], xa[i], xb[i], w, u, v)) ==>
              OnChord(Sum(xs), Sum(xa), Sum(xb), w, u, v)
  {
    var n := |xs|;
    if n > 0 {
      SumChord(xs[..n - 1], xa[..n - 1], xb[..n - 1], w, u, v);
      assert BelowChord(xs[n - 1], xa[n - 1], xb[n - 1], w, u, v);
    }
  }

  lemma {:induction false} SumMono(xs: seq<real>, ys: seq<real>)
    requires |xs| == |ys| && forall i :: 0 <= i < |xs| ==> xs[i] <= ys[i]
    ensures Sum(xs) <= Sum(ys)
  {
    var n := |xs|;
    if n > 0 {
      SumMono(xs[..n - 1], ys[..n - 1]);
    }
  }

  ghost predicate NoStrikeInside(chain: seq<OptionTick>, a: real, b: real) {
    forall t :: t in chain ==> t.strike <= a || b <= t.strike
  }

  /** The payout is a convex function of the settlement price, and linear between two settlements
      that have no listed strike between them. */
  lemma PayoutConvex(chain: seq<OptionTick>, a: real, s: real, b: real)
    requires a <= s <= b
    ensures BelowChord(Payout(chain, s), Payout(chain, a), Payout(chain, b), b - a, b - s, s - a)
    ensures NoStrikeInside(chain, a, b) ==>
              OnChord(Payout(chain, s), Payout(chain, a), Payout(chain, b), b - a, b - s, s - a)
  {
    var xs, xa, xb := TickPayouts(chain, s), TickPayouts(chain, a), TickPayouts(chain, b);
    forall i | 0 <= i < |chain|
      ensures BelowChord(xs[i], xa[i], xb[i], b - a, b - s, s - a)
      ensures NoStrikeInside(chain, a, b) ==> OnChord(xs[i], xa[i], xb[i], b - a, b - s, s - a)
    {
      TickConvex(chain[i], a, s, b);
      assert chain[i] in chain;
    }
    SumChord(xs, xa, xb, b - a, b - s, s - a);
  }

  /** The shares of all open calls with strikes up to `a`. */
  ghost function CallShares(chain: seq<OptionTick>, a: real): int {
    if chain == [] then 0
    else
      var t := chain[|chain| - 1];
      CallShares(chain[..|chain| - 1], a)
      + if t.optionType == Call && t.strike <= a then t.openInterest * t.lotSize else 0
  }

  /** The shares of all open puts with strikes from `b` on. */
  ghost function PutShares(chain: seq<OptionTick>, b: real): int {
    if chain == [] then 0
    else
      var t := chain[|chain| - 1];
      PutShares(chain[..|chain| - 1], b)
      + if t.optionType == Put && b <= t.strike then t.openInterest * t.lotSize else 0
  }

  lemma PayoutNext(chain: seq<OptionTick>, s: real)
    requires chain != []
    ensures Payout(chain, s) == Payout(chain[..|chain| - 1], s) + TickPayout(chain[|chain| - 1], s)
  {
    var n := |chain| - 1;
    assert TickPayouts(chain, s)[..n] == TickPayouts(chain[..n], s);
  }

  /** What one tick adds to the slope: its shares. */
  lemma TickSlope(t: OptionTick, a: real, b: real)
    requires a < b && (t.strike <= a || b <= t.strike)
    ensures var shares := (t.openInterest * t.lotSize) as real;
            TickPayout(t, b) - TickPayout(t, a) ==
            if t.optionType == Call && t.strike <= a then Scale(b - a, shares)
            else if t.optionType == Put && b <= t.strike then -Scale(b - a, shares)
            else 0.0
  {
    var shares, k := (t.openInterest * t.lotSize) as real, t.strike;
    ScaleLinear(b - k, a - k, shares);
    ScaleLinear(k - b, k - a, shares);
    assert Scale(0.0, shares) == 0.0;
  }

  lemma ScaleLinear(x: real, y: real, n: real)
    ensures Scale(x, n) - Scale(y, n) == Scale(x - y, n) == -Scale(y - x, n)
  {
  }

  lemma ScaleShares(x: real, m: int, n: int)
    ensures Scale(x, (m + n) as real) == Scale(x, m as real) + Scale(x, n as real)
    ensures Scale(x, (m - n) as real) == Scale(x, m as real) - Scale(x, n as real)
  {
    assert (m + n) as real == m as real + n as real && (m - n) as real == m as real - n as real;
  }

  lemma {:induction false} ScaledSlope(chain: seq<OptionTick>, a: real, b: real)
    requires a < b && NoStrikeInside(chain, a, b)
    ensures Payout(chain, b) - Payout(chain, a) == Scale(b - a, (CallShares(chain, a) - PutShares(chain, b)) as real)
  {
    if chain == [] {
      assert TickPayouts(chain, a) == [] && TickPayouts(chain, b) == [];
      assert Scale(b - a, 0.0) == 0.0;
    } else {
      var t, front := chain[|chain| - 1], chain[..|chain| - 1];
      assert t in chain && NoStrikeInside(front, a, b);
      ScaledSlope(front, a, b);
      PayoutNext(chain, a);
      PayoutNext(chain, b);
      TickSlope(t, a, b);
      var shares, before := t.openInterest * t.lotSize, CallShares(front, a) - PutShares(front, b);
      ScaleShares(b - a, before, shares);
    }
  }

  /** A payout that rises by the distance for every share. */
  ghost predicate RisesBy(low: real, high: real, distance: real, shares: int) {
    high - low == distance * shares as real
  }

  /** Between two settlements without a strike between them the payout rises by the distance for every share of the
      calls below and falls by it for every share of the puts above, contracts counting with their lot size. */
  lemma PayoutSlope(chain: seq<OptionTick>, a: real, b: real)
    requires a < b && NoStrikeInside(chain, a, b)
    ensures RisesBy(Payout(chain, a), Payout(chain, b), b - a, CallShares(chain, a) - PutShares(chain, b))
  {
    ScaledSlope(chain, a, b);
  }

  ghost predicate EveryStrikeAtLeast(chain: seq<OptionTick>, b: real) {
    forall t :: t in chain ==> b <= t.strike
  }

  ghost predicate EveryStrikeAtMost(chain: seq<OptionTick>, a: real) {
    forall t :: t in chain ==> t.strike <= a
  }

  lemma TickMonotoneOutside(t: OptionTick, a: real, b: real)
    requires a <= b
    ensures b <= t.strike ==> TickPayout(t, b) <= TickPayout(t, a)
    ensures t.strike <= a ==> TickPayout(t, a) <= TickPayout(t, b)
  {
    Scaled(Intrinsic(t, b), Intrinsic(t, a), Contracts(t));
    Scaled(Intrinsic(t, a), Intrinsic(t, b), Contracts(t));
  }

  /** Below every strike the payout never rises with the settlement; above every strike it never falls. */
  lemma PayoutMonotoneOutside(chain: seq<OptionTick>, a: real, b: real)
    requires a <= b
    ensures EveryStrikeAtLeast(chain, b) ==> Payout(chain, b) <= Payout(chain, a)
    ensures EveryStrikeAtMost(chain, a) ==> Payout(chain, a) <= Payout(chain, b)
  {
    var xa, xb := TickPayouts(chain, a), TickPayouts(chain, b);
    forall i | 0 <= i < |chain|
      ensures EveryStrikeAtLeast(chain, b) ==> xb[i] <= xa[i]
      ensures EveryStrikeAtMost(chain, a) ==> xa[i] <= xb[i]
    {
      assert chain[i] in chain;
      TickMonotoneOutside(chain[i], a, b);
    }
    if EveryStrikeAtLeast(chain, b) {
      SumMono(xb, xa);
    }
    if EveryStrikeAtMost(chain, a) {
      SumMono(xa, xb);
    }
  }

  /** Writers of calls lose as the settlement rises, writers of puts as it falls, and neither side pays
      anything while all its contracts are out of the money. */
  lemma PayoutSides(chain: seq<OptionTick>, a: real, b: real)
    requires a <= b
    ensures (forall t :: t in chain ==> t.optionType == Call) ==> 0.0 <= Payout(chain, a) <= Payout(chain, b)
    ensures (forall t :: t in chain ==> t.optionType == Put) ==> 0.0 <= Payout(chain, b) <= Payout(chain, a)
    ensures (forall t :: t in chain ==> t.optionType == Call) && EveryStrikeAtLeast(chain, b) ==>
              Payout(chain, b) == 0.0
    ensures (forall t :: t in chain ==> t.optionType == Put) && EveryStrikeAtMost(chain, a) ==> Payout(chain, a) == 0.0
  {
    var xa, xb := TickPayouts(chain, a), TickPayouts(chain, b);
    var zeros := seq(|chain|, i => 0.0);
    SumOfZeros(zeros);
    forall i | 0 <= i < |chain|
      ensures xa[i] >= 0.0 && xb[i] >= 0.0
      ensures chain[i].optionType == Call ==> xa[i] <= xb[i] && (b <= chain[i].strike ==> xb[i] == 0.0)
      ensures chain[i].optionType == Put ==> xb[i] <= xa[i] && (chain[i].strike <= a ==> xa[i] == 0.0)
    {
      TickSides(chain[i], a, b);
    }
    SumMono(zeros, xa);
    SumMono(zeros, xb);
    if forall t :: t in chain ==> t.optionType == Call {
      SumMono(xa, xb);
      if EveryStrikeAtLeast(chain, b) {
        SumMono(xb, zeros);
      }
    }
    if forall t :: t in chain ==> t.optionType == Put {
      SumMono(xb, xa);
      if EveryStrikeAtMost(chain, a) {
        SumMono(xa, zeros);
      }
    }
  }

  lemma TickSides(t: OptionTick, a: real, b: real)
    requires a <= b
    ensures TickPayout(t, a) >= 0.0 && TickPayout(t, b) >= 0.0
    ensures t.optionType == Call ==> TickPayout(t, a) <= TickPayout(t, b) && (b <= t.strike ==> TickPayout(t, b) == 0.0)
    ensures t.optionType == Put ==> TickPayout(t, b) <= TickPayout(t, a) && (t.strike <= a ==> TickPayout(t, a) == 0.0)
  {
    var ia, ib, n := Intrinsic(t, a), Intrinsic(t, b), Contracts(t);
    Scaled(ia, ib, n);
    Scaled(ib, ia, n);
    match t.optionType
    case Call => assert ia <= ib;
    case Put => assert ib <= ia;
  }

  lemma Scaled(x: real, y: real, n: real)
    requires n >= 0.0 && x >= 0.0
    ensures Scale(x, n) >= 0.0
    ensures x <= y ==> Scale(x, n) <= Scale(y, n)
    ensures x == 0.0 ==> Scale(x, n) == 0.0
  {
    if x <= y {
      MulMono(x, y, n);
    }
  }

  lemma {:induction false} SumOfZeros(xs: seq<real>)
    requires forall i :: 0 <= i < |xs| ==> xs[i] == 0.0
    ensures Sum(xs) == 0.0
  {
    if xs != [] {
      SumOfZeros(xs[..|xs| - 1]);
    }
  }

  // ----- from listed strikes to every settlement price

  ghost predicate BestStrike(chain: seq<OptionTick>, k: real) {
    && Listed(chain, k)
    && (forall y :: Listed(chain, y) ==> Payout(chain, k) <= Payout(chain, y))
    && (forall y :: Listed(chain, y) && Payout(chain, y) == Payout(chain, k) ==> k <= y)
  }

  /** Where a settlement falls among sorted strikes. */
  lemma {:induction false} Locate(xs: seq<real>, s: real) returns (n: nat)
    requires Increasing(xs)
    ensures n <= |xs|
    ensures forall i :: 0 <= i < n ==> xs[i] <= s
    ensures forall i :: n <= i < |xs| ==> s < xs[i]
  {
    if xs == [] || xs[|xs| - 1] <= s {
      n := |xs|;
    } else {
      n := Locate(xs[..|xs| - 1], s);
    }
  }

  /** The listed strikes around a settlement, if any. */
  lemma Neighbours(chain: seq<OptionTick>, s: real) returns (low: Option<real>, high: Option<real>)
    requires chain != []
    ensures low.Some? ==> Listed(chain, low.value) && low.value <= s
    ensures high.Some? ==> Listed(chain, high.value) && s < high.value
    ensures low.Some? || high.Some?
    ensures low.None? ==> EveryStrikeAtLeast(chain, high.value)
    ensures high.None? ==> EveryStrikeAtMost(chain, low.value)
    ensures low.Some? && high.Some? ==> NoStrikeInside(chain, low.value, high.value)
  {
    var xs := Strikes(chain);
    var n := Locate(xs, s);
    low := if n == 0 then None else Some(xs[n - 1]);
    high := if n == |xs| then None else Some(xs[n]);
    assert n > 0 ==> xs[n - 1] in xs;
    assert n < |xs| ==> xs[n] in xs;
    forall t | t in chain
      ensures (n > 0 && t.strike <= xs[n - 1]) || (n < |xs| && xs[n] <= t.strike)
    {
      assert Listed(chain, t.strike);
      var i :| 0 <= i < |xs| && xs[i] == t.strike;
    }
  }

  lemma ScaleSplit(x: real, u: real, v: real)
    ensures Scale(x, u + v) == Scale(x, u) + Scale(x, v)
  {
  }

  lemma ScaleMono(x: real, y: real, k: real)
    requires x <= y && k >= 0.0
    ensures Scale(x, k) <= Scale(y, k)
  {
    MulMono(x, y, k);
  }

  lemma ScaleStrict(x: real, y: real, k: real)
    requires x < y && k > 0.0
    ensures Scale(x, k) < Scale(y, k)
  {
    MulStrict(x, y, k);
  }

  /** The chord relation in terms of four products. */
  lemma ChordEquation(p: real, pa: real, pb: real, u: real, v: real)
    requires OnChord(p, pa, pb, u + v, u, v)
    ensures Scale(p, u + v) == Scale(pa, u) + Scale(pb, v)
  {
  }

  /** A height on the chord is no lower than the lower end. */
  lemma ChordAboveLowerEnd(p: real, pa: real, pb: real, u: real, v: real)
    requires u > 0.0 && v >= 0.0 && OnChord(p, pa, pb, u + v, u, v)
    ensures pa <= pb ==> pa <= p
    ensures pb < pa ==> pb < p
  {
    ChordEquation(p, pa, pb, u, v);
    if pa <= pb {
      ScaleSplit(pa, u, v);
      ScaleMono(pa, pb, v);
      if p < pa {
        ScaleStrict(p, pa, u + v);
      }
    } else {
      ScaleSplit(pb, u, v);
      ScaleStrict(pb, pa, u);
      if p <= pb {
        ScaleMono(p, pb, u + v);
      }
    }
  }

  /** Between neighbouring strikes no settlement is cheaper than both. */
  lemma PayoutBetween(chain: seq<OptionTick>, a: real, s: real, b: real)
    requires a <= s < b && NoStrikeInside(chain, a, b)
    ensures Payout(chain, a) <= Payout(chain, b) ==> Payout(chain, a) <= Payout(chain, s)
    ensures Payout(chain, b) < Payout(chain, a) ==> Payout(chain, b) < Payout(chain, s)
  {
    PayoutConvex(chain, a, s, b);
    ChordAboveLowerEnd(Payout(chain, s), Payout(chain, a), Payout(chain, b), b - s, s - a);
  }

  /** A strike that is least among the listed ones is least among all real settlement prices, and an
      equally cheap settlement below it lies below every listed strike. */
  lemma BestStrikeIsGlobal(chain: seq<OptionTick>, k: real, s: real)
    requires BestStrike(chain, k)
    ensures Payout(chain, k) <= Payout(chain, s)
    ensures s < k && Payout(chain, s) == Payout(chain, k) ==> forall y :: Listed(chain, y) ==> s < y
  {
    var low, high := Neighbours(chain, s);
    if low.None? {
      PayoutMonotoneOutside(chain, s, high.value);
      forall y | Listed(chain, y) ensures s < y {
        var t :| t in chain && t.strike == y;
      }
    } else if high.None? {
      PayoutMonotoneOutside(chain, low.value, s);
      var t :| t in chain && t.strike == k;
    } else {
      PayoutBetween(chain, low.value, s, high.value);
    }
  }

  ghost predicate LeastAnywhere(chain: seq<OptionTick>, k: real) {
    && (forall s: real :: Payout(chain, k) <= Payout(chain, s))
    && (forall s: real :: s < k && Payout(chain, s) == Payout(chain, k) ==> forall y :: Listed(chain, y) ==> s < y)
  }

  lemma BestStrikeIsLeastAnywhere(chain: seq<OptionTick>, k: real)
    requires BestStrike(chain, k)
    ensures LeastAnywhere(chain, k)
  {
    forall s: real
      ensures Payout(chain, k) <= Payout(chain, s)
      ensures s < k && Payout(chain, s) == Payout(chain, k) ==> forall y :: Listed(chain, y) ==> s < y
    {
      BestStrikeIsGlobal(chain, k, s);
    }
  }

  ghost predicate PayoutTable(chain: seq<OptionTick>, strikes: seq<real>, payouts: map<real, real>) {
    && (forall y :: y in payouts <==> y in strikes)
    && (forall y :: y in payouts ==> payouts[y] == Payout(chain, y))
  }

  method PayoutsAtStrikes(chain: seq<OptionTick>, strikes: seq<real>) returns (payouts: map<real, real>)
    ensures PayoutTable(chain, strikes, payouts)
  {
    payouts := map[];
    for i := 0 to |strikes|
      invariant PayoutTable(chain, strikes[..i], payouts)
    {
      payouts := payouts[strikes[i] := Payout(chain, strikes[i])];
      assert strikes[..i + 1] == strikes[..i] + [strikes[i]];
    }
    assert strikes[..|strikes|] == strikes;
  }

  /** The order of the key `(payouts[candidate], candidate)`. */
  predicate KeyAtMost(payouts: map<real, real>, a: real, b: real)
    requires a in payouts && b in payouts
  {
    payouts[a] < payouts[b] || (payouts[a] == payouts[b] && a <= b)
  }

  method LeastKey(strikes: seq<real>, payouts: map<real, real>) returns (strike: real)
    requires strikes != [] && forall y :: y in strikes ==> y in payouts
    ensures strike in strikes
    ensures forall y :: y in strikes ==> KeyAtMost(payouts, strike, y)
  {
    strike := strikes[0];
    for i := 1 to |strikes|
      invariant strike in strikes
      invariant forall j :: 0 <= j < i ==> KeyAtMost(payouts, strike, strikes[j])
    {
      if !KeyAtMost(payouts, strike, strikes[i]) {
        strike := strikes[i];
      }
    }
  }

  /** `calculate_max_pain`: payouts at the listed strikes, then the least (payout, strike) pair. */
  method CalculateMaxPain(chain: seq<OptionTick>) returns (r: Result<Report, ChainError>)
    ensures r.Err? <==> chain == []
    ensures r.Ok? ==> r.value.payout == Payout(chain, r.value.strike)
    ensures r.Ok? ==> BestStrike(chain, r.value.strike)
    ensures r.Ok? ==> LeastAnywhere(chain, r.value.strike)
    ensures r.Ok? ==> PayoutTable(chain, Strikes(chain), r.value.payouts)
  {
    if chain == [] {
      return Err(ChainRequired);
    }
    var strikes := Strikes(chain);
    var payouts := PayoutsAtStrikes(chain, strikes);
    var strike := LeastKey(strikes, payouts);
    forall y | Listed(chain, y) ensures KeyAtMost(payouts, strike, y) {
      assert y in strikes;
    }
    BestStrikeIsLeastAnywhere(chain, strike);
    r := Ok(Report(strike, payouts[strike], payouts));
  }
}
