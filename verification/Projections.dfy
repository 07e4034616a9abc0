/** nse_dashboard/services/growth_radar.py, `build_projections`: bear, base and bull price paths. */
module Projections {
  import opened Values
  import opened Numbers

  /** The features that the projection reads, after `_number`: None when missing or not finite. */
  datatype Features = Features(
    ebitda: Option<real>, revenue: Option<real>, marginPct: Option<real>, marketCap: Option<real>,
    netDebt: Option<real>, eps: Option<real>, growthYoyPct: Option<real>, growthTtmPct: Option<real>,
    pe: Option<real>, evEbitda: Option<real>, priceSales: Option<real>)

  /** Python's `x or default`: a zero counts as missing. */
  function Or(x: Option<real>, default: real): real {
    if x.None? || x.value == 0.0 then default else x.value
  }

  function Clamp(x: real, low: real, high: real): real { Max(low, Min(high, x)) }

  predicate Covered(f: Features) {
    && f.ebitda.Some? && f.ebitda.value > 0.0 && f.revenue.Some? && f.revenue.value > 0.0
    && f.marginPct.Some? && f.marginPct.value != 0.0 && f.marketCap.Some? && f.marketCap.value != 0.0
  }

  /** The inputs of one scenario path, clamped once before the loops. */
  datatype Inputs = Inputs(
    price: real, revenue: real, shares: real, netDebt: real, eps: Option<real>,
    growth: real, margin: real, pe: real, evEbitda: real, priceSales: real)
  {
    ghost predicate Valid() {
      && revenue > 0.0 && shares != 0.0 && 6.0 <= growth <= 30.0 && margin >= 1.0
      && 5.0 <= pe <= 45.0 && 4.0 <= evEbitda <= 30.0 && 0.3 <= priceSales <= 8.0
    }

    predicate HasEarnings() { eps.Some? && eps.value > 0.0 }
  }

  function InputsOf(price: real, f: Features): (a: Inputs)
    requires Covered(f)
    ensures a.Valid()
    ensures a.shares > 0.0 <==> f.marketCap.value > 0.0
  {
    var floor := Max(price, 0.000000001);
    var growth := if f.growthYoyPct.Some? then f.growthYoyPct.value else Or(f.growthTtmPct, 10.0);
    Inputs(
      price, f.revenue.value, Shares(f.marketCap.value, floor), Or(f.netDebt, 0.0), f.eps,
      Clamp(growth, 6.0, 30.0), Max(1.0, f.marginPct.value), Clamp(Or(f.pe, 18.0), 5.0, 45.0),
      Clamp(Or(f.evEbitda, 12.0), 4.0, 30.0),
      Clamp(Or(f.priceSales, f.marketCap.value / f.revenue.value), 0.3, 8.0))
  }

  function Shares(marketCap: real, price: real): (r: real)
    requires marketCap != 0.0 && price > 0.0
    ensures r != 0.0 && (r > 0.0 <==> marketCap > 0.0)
  {
    Quotient(marketCap, price);
    marketCap / price
  }

  lemma Quotient(x: real, y: real)
    requires x != 0.0 && y > 0.0
    ensures x / y != 0.0 && (x / y > 0.0 <==> x > 0.0)
  {
    assert (x / y) * y == x;
  }

  datatype Scenario = Scenario(growthDelta: real, marginDelta: real, multiple: real)

  const BEAR := Scenario(-7.0, -2.0, 0.78)
  const BASE := Scenario(0.0, 1.0, 1.0)
  const BULL := Scenario(7.0, 3.0, 1.22)

  /** What makes one scenario dominate another that starts from the same inputs. */
  ghost predicate Dominates(high: Scenario, low: Scenario) {
    && -7.0 <= low.growthDelta < high.growthDelta && 0.0 <= high.growthDelta
    && low.marginDelta <= high.marginDelta && 0.0 <= high.marginDelta
    && 0.0 < low.multiple < high.multiple
  }

  // ----- one scenario, year by year; step 1 is the first projected year

  function Grow(x: real, pct: real): real { x * (1.0 + pct / 100.0) }

  /** Moves from `anchor + gap` toward `anchor`. */
  function Fade(anchor: real, gap: real, weight: real): real { anchor + gap * weight }

  function FadedGrowth(a: Inputs, s: Scenario, step: nat): real
    requires step >= 1
  {
    Fade(6.0, a.growth + s.growthDelta - 6.0, Pow(0.78, step - 1))
  }

  function Phase(step: nat): (r: real)
    ensures 0.0 <= r <= 1.0
  {
    Min(1.0, step as real / 4.0)
  }

  function Drag(step: nat): real { if step > 5 then (step - 5) as real * 0.15 else 0.0 }

  function Margin(a: Inputs, s: Scenario, step: nat): (r: real)
    ensures r >= 1.0
  {
    Max(1.0, Fade(a.margin, s.marginDelta, Phase(step)) - Drag(step))
  }

  function Revenue(a: Inputs, s: Scenario, step: nat): real {
    if step == 0 then a.revenue else Grow(Revenue(a, s, step - 1), FadedGrowth(a, s, step))
  }

  function EpsGrowth(a: Inputs, s: Scenario, step: nat): (r: real)
    requires step >= 1
    ensures r >= 4.0
  {
    Max(4.0, FadedGrowth(a, s, step) + (Margin(a, s, step) - a.margin) * 0.8)
  }

  function Eps(a: Inputs, s: Scenario, step: nat): (r: Option<real>)
    ensures r.Some? <==> a.eps.Some?
  {
    if step == 0 then a.eps
    else
      var before := Eps(a, s, step - 1);
      if before.Some? && before.value > 0.0 then Some(Grow(before.value, EpsGrowth(a, s, step))) else before
  }

  /** What the starting earnings have been multiplied by. */
  function Factor(a: Inputs, s: Scenario, step: nat): real {
    if step == 0 then 1.0 else Grow(Factor(a, s, step - 1), EpsGrowth(a, s, step))
  }

  function Earned(x: real, y: real): real { x * y }

  function Product(x: real, y: real, z: real): real { x * y * z }

  function Ebitda(revenue: real, margin: real): real { revenue * margin / 100.0 }

  function EvMultiple(a: Inputs, step: nat): real { Fade(10.0, a.evEbitda - 10.0, Pow(0.82, step)) }

  function PsMultiple(a: Inputs, step: nat): real { Fade(1.5, a.priceSales - 1.5, Pow(0.82, step)) }

  function PeMultiple(a: Inputs, step: nat): real { Fade(16.0, a.pe - 16.0, Pow(0.82, step)) }

  /** Equity left of the enterprise value, never below zero. */
  function EvEquity(a: Inputs, s: Scenario, step: nat): (r: real)
    ensures r >= 0.0
  {
    Max(0.0, Product(Ebitda(Revenue(a, s, step), Margin(a, s, step)), EvMultiple(a, step), s.multiple) - a.netDebt)
  }

  function PsEquity(a: Inputs, s: Scenario, step: nat): real {
    Product(Revenue(a, s, step), PsMultiple(a, step), s.multiple)
  }

  function PeValue(a: Inputs, s: Scenario, step: nat): Option<real> {
    var eps := Eps(a, s, step);
    if a.HasEarnings() && eps.Some? then Some(Product(eps.value, PeMultiple(a, step), s.multiple)) else None
  }

  /** The mean of two per-share values and, with positive earnings, a third. */
  function Average(evValue: real, psValue: real, peValue: Option<real>): real {
    if peValue.None? then (evValue + psValue) / 2.0 else (evValue + psValue + peValue.value) / 3.0
  }

  function Price(a: Inputs, s: Scenario, step: nat): real
    requires a.shares != 0.0
  {
    Average(EvEquity(a, s, step) / a.shares, PsEquity(a, s, step) / a.shares, PeValue(a, s, step))
  }

  /** The price that a year's growth is measured against. */
  function PriceBefore(a: Inputs, s: Scenario, step: nat): real
    requires a.shares != 0.0 && step >= 1
  {
    if step == 1 then a.price else Price(a, s, step - 1)
  }

  // ----- scenario ordering

  lemma GrowOrder(x: real, y: real, p: real, q: real)
    requires 0.0 < x <= y && -100.0 < p <= q
    ensures 0.0 < Grow(x, p) <= Grow(y, q)
    ensures x < y || p < q ==> Grow(x, p) < Grow(y, q)
  {
    var u, v := 1.0 + p / 100.0, 1.0 + q / 100.0;
    MulStrict(0.0, x, u);
    MulMono(x, y, u);
    MulMono(u, v, y);
    if x < y {
      MulStrict(x, y, u);
    }
    if p < q {
      MulStrict(u, v, y);
    }
  }

  lemma ProductOrder(x: real, y: real, k: real, m: real, n: real)
    requires 0.0 < x < y && k > 0.0 && 0.0 < m <= n
    ensures 0.0 < Product(x, k, m) < Product(y, k, n)
  {
    MulStrict(0.0, x, k);
    MulStrict(x, y, k);
    MulStrict(0.0, x * k, m);
    MulStrict(x * k, y * k, m);
    MulMono(m, n, y * k);
  }

  lemma FadeOrder(anchor: real, g: real, h: real, w: real)
    requires g <= h && w >= 0.0
    ensures Fade(anchor, g, w) <= Fade(anchor, h, w)
  {
    MulMono(g, h, w);
  }

  lemma FadeStrict(anchor: real, g: real, h: real, w: real)
    requires g < h && w > 0.0
    ensures Fade(anchor, g, w) < Fade(anchor, h, w)
  {
    MulStrict(g, h, w);
  }

  /** A faded value stays between its start and its anchor. */
  lemma FadeBetween(anchor: real, gap: real, w: real, low: real)
    requires 0.0 <= w <= 1.0 && low <= anchor && low <= anchor + gap
    ensures low <= Fade(anchor, gap, w)
  {
    if gap < 0.0 {
      MulMono(w, 1.0, -gap);
      assert gap * w == -(w * -gap);
    } else {
      MulMono(0.0, gap, w);
    }
  }

  lemma GrowthOrder(a: Inputs, low: Scenario, high: Scenario, step: nat)
    requires a.Valid() && Dominates(high, low) && step >= 1
    ensures -1.0 <= FadedGrowth(a, low, step) < FadedGrowth(a, high, step)
    ensures FadedGrowth(a, high, step) >= 6.0
  {
    var w := Pow(0.78, step - 1);
    PowFraction(0.78, step - 1);
    FadeStrict(6.0, a.growth + low.growthDelta - 6.0, a.growth + high.growthDelta - 6.0, w);
    FadeBetween(6.0, a.growth + low.growthDelta - 6.0, w, -1.0);
    FadeBetween(6.0, a.growth + high.growthDelta - 6.0, w, 6.0);
  }

  lemma MarginOrder(a: Inputs, low: Scenario, high: Scenario, step: nat)
    requires a.Valid() && Dominates(high, low)
    ensures Margin(a, low, step) <= Margin(a, high, step)
  {
    FadeOrder(a.margin, low.marginDelta, high.marginDelta, Phase(step));
  }

  lemma {:induction false} RevenueOrder(a: Inputs, low: Scenario, high: Scenario, step: nat)
    requires a.Valid() && Dominates(high, low)
    ensures 0.0 < Revenue(a, low, step) <= Revenue(a, high, step)
    ensures step >= 1 ==> Revenue(a, low, step) < Revenue(a, high, step)
  {
    if step >= 1 {
      RevenueOrder(a, low, high, step - 1);
      GrowthOrder(a, low, high, step);
      GrowOrder(Revenue(a, low, step - 1), Revenue(a, high, step - 1), FadedGrowth(a, low, step),
                FadedGrowth(a, high, step));
    }
  }

  /** Earnings growth is weakly ordered, because of its floor of 4; in the first year it is strictly ordered. */
  lemma EpsGrowthOrder(a: Inputs, low: Scenario, high: Scenario, step: nat)
    requires a.Valid() && Dominates(high, low) && step >= 1
    ensures EpsGrowth(a, low, step) <= EpsGrowth(a, high, step)
    ensures step == 1 ==> EpsGrowth(a, low, step) < EpsGrowth(a, high, step)
  {
    GrowthOrder(a, low, high, step);
    MarginOrder(a, low, high, step);
    if step == 1 {
      FadeBetween(a.margin, high.marginDelta, Phase(1), a.margin);
      assert Margin(a, high, 1) >= a.margin;
    }
  }

  lemma {:induction false} FactorOrder(a: Inputs, low: Scenario, high: Scenario, step: nat)
    requires a.Valid() && Dominates(high, low)
    ensures 0.0 < Factor(a, low, step) <= Factor(a, high, step)
    ensures step >= 1 ==> Factor(a, low, step) < Factor(a, high, step)
  {
    if step >= 1 {
      FactorOrder(a, low, high, step - 1);
      EpsGrowthOrder(a, low, high, step);
      GrowOrder(Factor(a, low, step - 1), Factor(a, high, step - 1), EpsGrowth(a, low, step), EpsGrowth(a, high, step));
    }
  }

  lemma EarnedGrows(x: real, y: real, pct: real)
    ensures Grow(Earned(x, y), pct) == Earned(x, Grow(y, pct))
  {
    assert x * y * (1.0 + pct / 100.0) == x * (y * (1.0 + pct / 100.0));
  }

  /** Positive earnings are the starting earnings times a factor that does not depend on them, and stay positive. */
  lemma {:induction false} EpsIsFactor(a: Inputs, s: Scenario, step: nat)
    requires a.HasEarnings()
    ensures Eps(a, s, step) == Some(Earned(a.eps.value, Factor(a, s, step))) && Eps(a, s, step).value > 0.0
  {
    if step >= 1 {
      EpsIsFactor(a, s, step - 1);
      var before, growth := Eps(a, s, step - 1).value, EpsGrowth(a, s, step);
      GrowOrder(before, before, growth, growth);
      EarnedGrows(a.eps.value, Factor(a, s, step - 1), growth);
    }
  }

  lemma EpsOrder(a: Inputs, low: Scenario, high: Scenario, step: nat)
    requires a.Valid() && Dominates(high, low) && a.HasEarnings()
    ensures Eps(a, low, step).Some? && Eps(a, high, step).Some?
    ensures 0.0 < Eps(a, low, step).value <= Eps(a, high, step).value
    ensures step >= 1 ==> Eps(a, low, step).value < Eps(a, high, step).value
  {
    EpsIsFactor(a, low, step);
    EpsIsFactor(a, high, step);
    FactorOrder(a, low, high, step);
    if step >= 1 {
      EarnedStrict(a.eps.value, Factor(a, low, step), Factor(a, high, step));
    } else {
      assert Factor(a, low, 0) == Factor(a, high, 0) == 1.0;
    }
  }

  lemma EarnedStrict(x: real, y: real, z: real)
    requires x > 0.0 && y < z
    ensures Earned(x, y) < Earned(x, z)
  {
    MulStrict(y, z, x);
  }

  lemma MultiplesPositive(a: Inputs, step: nat)
    requires a.Valid()
    ensures EvMultiple(a, step) >= 4.0 && PsMultiple(a, step) >= 0.3 && PeMultiple(a, step) >= 5.0
  {
    var w := Pow(0.82, step);
    PowFraction(0.82, step);
    FadeBetween(10.0, a.evEbitda - 10.0, w, 4.0);
    FadeBetween(1.5, a.priceSales - 1.5, w, 0.3);
    FadeBetween(16.0, a.pe - 16.0, w, 5.0);
  }

  lemma EbitdaOrder(r: real, q: real, m: real, n: real)
    requires 0.0 < r < q && 1.0 <= m <= n
    ensures 0.0 < Ebitda(r, m) < Ebitda(q, n)
  {
    MulStrict(0.0, r, m);
    MulStrict(r, q, m);
    MulMono(m, n, q);
  }

  /** Both equity values, before they are divided among the shares. */
  lemma EquityOrder(a: Inputs, low: Scenario, high: Scenario, step: nat)
    requires a.Valid() && Dominates(high, low) && step >= 1
    ensures EvEquity(a, low, step) <= EvEquity(a, high, step)
    ensures 0.0 < PsEquity(a, low, step) < PsEquity(a, high, step)
  {
    RevenueOrder(a, low, high, step);
    MarginOrder(a, low, high, step);
    MultiplesPositive(a, step);
    var rl, rh := Revenue(a, low, step), Revenue(a, high, step);
    var ml, mh := Margin(a, low, step), Margin(a, high, step);
    EbitdaOrder(rl, rh, ml, mh);
    ProductOrder(Ebitda(rl, ml), Ebitda(rh, mh), EvMultiple(a, step), low.multiple, high.multiple);
    ProductOrder(rl, rh, PsMultiple(a, step), low.multiple, high.multiple);
  }

  lemma PeOrder(a: Inputs, low: Scenario, high: Scenario, step: nat)
    requires a.Valid() && Dominates(high, low) && step >= 1
    ensures PeValue(a, low, step).Some? == PeValue(a, high, step).Some? == a.HasEarnings()
    ensures a.HasEarnings() ==> 0.0 < PeValue(a, low, step).value < PeValue(a, high, step).value
  {
    if a.HasEarnings() {
      EpsOrder(a, low, high, step);
      MultiplesPositive(a, step);
      ProductOrder(Eps(a, low, step).value, Eps(a, high, step).value, PeMultiple(a, step), low.multiple, high.multiple);
    }
  }

  lemma AverageOrder(ev: real, ps: real, pe: Option<real>, ev': real, ps': real, pe': Option<real>)
    requires ev <= ev' && ps < ps' && pe.Some? == pe'.Some? && (pe.Some? ==> pe.value < pe'.value)
    ensures Average(ev, ps, pe) < Average(ev', ps', pe')
    ensures ev >= 0.0 && ps > 0.0 && (pe.Some? ==> pe.value > 0.0) ==> Average(ev, ps, pe) > 0.0
    ensures ev' <= 0.0 && ps' < 0.0 && pe.None? ==> Average(ev', ps', pe') < 0.0
  {
  }

  /** With shares outstanding, a dominating scenario has the higher price every year. */
  lemma PriceOrder(a: Inputs, low: Scenario, high: Scenario, step: nat)
    requires a.Valid() && a.shares > 0.0 && Dominates(high, low) && step >= 1
    ensures 0.0 < Price(a, low, step) < Price(a, high, step)
  {
    EquityOrder(a, low, high, step);
    PeOrder(a, low, high, step);
    var k := a.shares;
    var el, eh := EvEquity(a, low, step), EvEquity(a, high, step);
    var pl, ph := PsEquity(a, low, step), PsEquity(a, high, step);
    DivMono(el, eh, k);
    DivMono(0.0, el, k);
    DivStrict(pl, ph, k);
    DivStrict(0.0, pl, k);
    AverageOrder(el / k, pl / k, PeValue(a, low, step), eh / k, ph / k, PeValue(a, high, step));
  }

  lemma DivNegative(x: real, y: real, k: real)
    requires 0.0 <= x <= y && k < 0.0
    ensures y / k <= x / k <= 0.0
    ensures 0.0 < x < y ==> y / k < x / k < 0.0
  {
    DivMono(x, y, -k);
    DivMono(0.0, x, -k);
    if 0.0 < x < y {
      DivStrict(x, y, -k);
      DivStrict(0.0, x, -k);
    }
    assert x / k == -(x / -k) && y / k == -(y / -k);
  }

  /** Without earnings a negative share count turns every price negative and the order around. */
  lemma PriceOrderReversed(a: Inputs, low: Scenario, high: Scenario, step: nat)
    requires a.Valid() && a.shares < 0.0 && !a.HasEarnings() && Dominates(high, low) && step >= 1
    ensures Price(a, high, step) < Price(a, low, step) < 0.0
  {
    EquityOrder(a, low, high, step);
    PeOrder(a, low, high, step);
    var k := a.shares;
    var el, eh := EvEquity(a, low, step), EvEquity(a, high, step);
    var pl, ph := PsEquity(a, low, step), PsEquity(a, high, step);
    DivNegative(el, eh, k);
    DivNegative(pl, ph, k);
    AverageOrder(eh / k, ph / k, None, el / k, pl / k, None);
  }

  ghost predicate Ordered(a: Inputs, step: nat)
    requires a.shares != 0.0
  {
    0.0 < Price(a, BEAR, step) < Price(a, BASE, step) < Price(a, BULL, step)
  }

  /** Prices, revenue, margins and earnings of the three scenarios in every year. The code accepts a negative
      market capitalisation, although its own message asks for a positive one; then, without earnings, the
      price order fails every year. */
  lemma ScenariosOrdered(a: Inputs, step: nat)
    requires a.Valid() && step >= 1
    ensures a.shares > 0.0 ==> Ordered(a, step)
    ensures !a.HasEarnings() ==> (Ordered(a, step) <==> a.shares > 0.0)
    ensures 0.0 < Revenue(a, BEAR, step) < Revenue(a, BASE, step) < Revenue(a, BULL, step)
    ensures 1.0 <= Margin(a, BEAR, step) <= Margin(a, BASE, step) <= Margin(a, BULL, step)
    ensures a.HasEarnings() ==>
              0.0 < Eps(a, BEAR, step).value < Eps(a, BASE, step).value < Eps(a, BULL, step).value
  {
    RevenueOrder(a, BEAR, BASE, step);
    RevenueOrder(a, BASE, BULL, step);
    MarginOrder(a, BEAR, BASE, step);
    MarginOrder(a, BASE, BULL, step);
    if a.HasEarnings() {
      EpsOrder(a, BEAR, BASE, step);
      EpsOrder(a, BASE, BULL, step);
    }
    if a.shares > 0.0 {
      PriceOrder(a, BEAR, BASE, step);
      PriceOrder(a, BASE, BULL, step);
    } else if !a.HasEarnings() {
      PriceOrderReversed(a, BEAR, BASE, step);
    }
  }

  // ----- negative market capitalisation with earnings

  lemma QuotientOrder(el: real, eh: real, pl: real, ph: real, k: real)
    requires k < 0.0
    ensures el / k + pl < eh / k + ph <==> eh - el < -k * (ph - pl)
  {
    var q, r, d := el / k, eh / k, ph - pl;
    assert q * k == el && r * k == eh;
    assert eh - el == (q - r) * -k;
    assert -k * d == d * -k;
    if q - r < d {
      MulStrict(q - r, d, -k);
    } else {
      MulMono(d, q - r, -k);
    }
  }

  lemma QuotientSign(e: real, p: real, k: real)
    requires k < 0.0
    ensures 0.0 < e / k + p <==> e < -k * p
  {
    QuotientOrder(0.0, e, 0.0, p, k);
    assert 0.0 / k == 0.0;
  }

  lemma AverageOfThree(ev: real, ps: real, pe: real, k: real)
    requires k != 0.0
    ensures Average(ev / k, ps / k, Some(pe)) == ((ev + ps) / k + pe) / 3.0
  {
    assert ev / k + ps / k == (ev + ps) / k;
  }

  /** Equity value in all, before it is divided among the shares. */
  function Equity(a: Inputs, s: Scenario, step: nat): real { EvEquity(a, s, step) + PsEquity(a, s, step) }

  /** With positive earnings and a negative share count, a dominating scenario has the higher price in exactly the years
      in which its lead in earnings value, times the shares owed, exceeds its lead in equity. */
  lemma PriceOrderExactly(a: Inputs, low: Scenario, high: Scenario, step: nat)
    requires a.Valid() && a.shares < 0.0 && a.HasEarnings() && Dominates(high, low) && step >= 1
    ensures PeValue(a, low, step).Some? && PeValue(a, high, step).Some?
    ensures 0.0 < Equity(a, high, step) - Equity(a, low, step)
            && PeValue(a, low, step).value < PeValue(a, high, step).value
    ensures Price(a, low, step) < Price(a, high, step) <==>
            Equity(a, high, step) - Equity(a, low, step)
            < -a.shares * (PeValue(a, high, step).value - PeValue(a, low, step).value)
  {
    EquityOrder(a, low, high, step);
    PeOrder(a, low, high, step);
    AveragesOrdered(EvEquity(a, low, step), PsEquity(a, low, step), PeValue(a, low, step).value,
                    EvEquity(a, high, step), PsEquity(a, high, step), PeValue(a, high, step).value, a.shares);
  }

  lemma AveragesOrdered(ev: real, ps: real, pe: real, ev': real, ps': real, pe': real, k: real)
    requires k < 0.0
    ensures Average(ev / k, ps / k, Some(pe)) < Average(ev' / k, ps' / k, Some(pe')) <==>
            (ev' + ps') - (ev + ps) < -k * (pe' - pe)
  {
    AverageOfThree(ev, ps, pe, k);
    AverageOfThree(ev', ps', pe', k);
    QuotientOrder(ev + ps, ev' + ps', pe, pe', k);
  }

  /** What a price of one unit of starting earnings would be worth in a year. */
  function Value(a: Inputs, s: Scenario, step: nat): real {
    Product(Factor(a, s, step), PeMultiple(a, step), s.multiple)
  }

  lemma ValueOrder(a: Inputs, low: Scenario, high: Scenario, step: nat)
    requires a.Valid() && Dominates(high, low) && step >= 1
    ensures 0.0 < Value(a, low, step) < Value(a, high, step)
  {
    FactorOrder(a, low, high, step);
    MultiplesPositive(a, step);
    ProductOrder(Factor(a, low, step), Factor(a, high, step), PeMultiple(a, step), low.multiple, high.multiple);
  }

  lemma PeIsValue(a: Inputs, s: Scenario, step: nat)
    requires a.HasEarnings()
    ensures PeValue(a, s, step) == Some(Earned(a.eps.value, Value(a, s, step)))
  {
    EpsIsFactor(a, s, step);
    EarnedProduct(a.eps.value, Factor(a, s, step), PeMultiple(a, step), s.multiple);
  }

  lemma EarnedProduct(x: real, y: real, k: real, m: real)
    ensures Product(Earned(x, y), k, m) == Earned(x, Product(y, k, m))
  {
    assert x * y * k == x * (y * k);
    assert x * (y * k) * m == x * (y * k * m);
  }

  lemma AverageSign(ev: real, ps: real, pe: real, k: real)
    requires k < 0.0
    ensures 0.0 < Average(ev / k, ps / k, Some(pe)) <==> ev + ps < -k * pe
  {
    AverageOfThree(ev, ps, pe, k);
    QuotientSign(ev + ps, pe, k);
  }

  lemma PositiveExactly(a: Inputs, s: Scenario, step: nat)
    requires a.shares < 0.0 && a.HasEarnings()
    ensures PeValue(a, s, step).Some?
    ensures 0.0 < Price(a, s, step) <==> Equity(a, s, step) < -a.shares * PeValue(a, s, step).value
  {
    PeIsValue(a, s, step);
    AverageSign(EvEquity(a, s, step), PsEquity(a, s, step), PeValue(a, s, step).value, a.shares);
  }

  /** Equity per unit of value: what the starting earnings of the shares owed have to exceed. */
  function Ratio(equity: real, value: real): real
    requires value > 0.0
  {
    equity / value
  }

  lemma RatioExactly(equity: real, value: real, k: real, eps: real)
    requires value > 0.0
    ensures equity < -k * Earned(eps, value) <==> Ratio(equity, value) < Earned(-k, eps)
  {
    var q, m := Ratio(equity, value), Earned(-k, eps);
    assert q * value == equity;
    assert -k * Earned(eps, value) == m * value;
    if q < m {
      MulStrict(q, m, value);
    } else {
      MulMono(m, q, value);
    }
  }

  /** The largest of the three ratios that decide a year. */
  function Threshold(a: Inputs, step: nat): real
    requires a.Valid() && step >= 1
  {
    ValueOrder(a, BEAR, BASE, step);
    ValueOrder(a, BASE, BULL, step);
    var bear := Ratio(Equity(a, BEAR, step), Value(a, BEAR, step));
    var base := Ratio(Equity(a, BASE, step) - Equity(a, BEAR, step), Value(a, BASE, step) - Value(a, BEAR, step));
    var bull := Ratio(Equity(a, BULL, step) - Equity(a, BASE, step), Value(a, BULL, step) - Value(a, BASE, step));
    Max(bear, Max(base, bull))
  }

  lemma LeadExactly(a: Inputs, low: Scenario, high: Scenario, step: nat)
    requires a.Valid() && a.shares < 0.0 && a.HasEarnings() && Dominates(high, low) && step >= 1
    ensures Value(a, low, step) < Value(a, high, step)
    ensures Price(a, low, step) < Price(a, high, step) <==>
            Ratio(Equity(a, high, step) - Equity(a, low, step), Value(a, high, step) - Value(a, low, step))
            < Earned(-a.shares, a.eps.value)
  {
    var eps, vl, vh := a.eps.value, Value(a, low, step), Value(a, high, step);
    ValueOrder(a, low, high, step);
    PriceOrderExactly(a, low, high, step);
    PeIsValue(a, low, step);
    PeIsValue(a, high, step);
    assert Earned(eps, vh) - Earned(eps, vl) == Earned(eps, vh - vl);
    RatioExactly(Equity(a, high, step) - Equity(a, low, step), vh - vl, a.shares, eps);
  }

  /** With a negative share count and positive earnings, a year's prices are positive and in order if and only if the
      starting earnings of the shares owed exceed a threshold that does not depend on them. */
  lemma OrderedExactly(a: Inputs, step: nat)
    requires a.Valid() && a.shares < 0.0 && a.HasEarnings() && step >= 1
    ensures Ordered(a, step) <==> Threshold(a, step) < -a.shares * a.eps.value
  {
    LeadExactly(a, BEAR, BASE, step);
    LeadExactly(a, BASE, BULL, step);
    PositiveExactly(a, BEAR, step);
    PeIsValue(a, BEAR, step);
    ValueOrder(a, BEAR, BASE, step);
    RatioExactly(Equity(a, BEAR, step), Value(a, BEAR, step), a.shares, a.eps.value);
  }

  lemma {:induction false} PathIgnoresEarnings(a: Inputs, b: Inputs, s: Scenario, step: nat)
    requires b == a.(eps := b.eps)
    ensures Revenue(a, s, step) == Revenue(b, s, step) && Factor(a, s, step) == Factor(b, s, step)
    ensures Equity(a, s, step) == Equity(b, s, step) && Value(a, s, step) == Value(b, s, step)
  {
    if step >= 1 {
      PathIgnoresEarnings(a, b, s, step - 1);
      assert FadedGrowth(a, s, step) == FadedGrowth(b, s, step) && EpsGrowth(a, s, step) == EpsGrowth(b, s, step);
    }
    assert Margin(a, s, step) == Margin(b, s, step);
  }

  /** The threshold stays the same whatever the earnings are. */
  lemma ThresholdIgnoresEarnings(a: Inputs, eps: Option<real>, step: nat)
    requires a.Valid() && step >= 1
    ensures Threshold(a.(eps := eps), step) == Threshold(a, step)
  {
    PathIgnoresEarnings(a, a.(eps := eps), BEAR, step);
    PathIgnoresEarnings(a, a.(eps := eps), BASE, step);
    PathIgnoresEarnings(a, a.(eps := eps), BULL, step);
  }

  // ----- instances

  /** A company with a negative market capitalisation whose multiples are at their anchors. */
  function Anchored(eps: real, growth: real, netDebt: real): Features {
    Features(Some(100.0), Some(1000.0), Some(10.0), Some(-1000.0), Some(netDebt), Some(eps), Some(growth), None,
             Some(16.0), Some(10.0), Some(1.5))
  }

  ghost predicate IsAnchored(a: Inputs, eps: real, growth: real, netDebt: real) {
    a == Inputs(100.0, 1000.0, -10.0, netDebt, Some(eps), growth, 10.0, 16.0, 10.0, 1.5)
  }

  lemma AnchoredInputs(eps: real, growth: real, netDebt: real)
    requires 6.0 <= growth <= 30.0
    ensures IsAnchored(InputsOf(100.0, Anchored(eps, growth, netDebt)), eps, growth, netDebt)
  {
  }

  lemma FirstYear(a: Inputs, s: Scenario, eps: real, growth: real, netDebt: real)
    requires IsAnchored(a, eps, growth, netDebt) && eps > 0.0
    ensures EvMultiple(a, 1) == 10.0 && PsMultiple(a, 1) == 1.5 && PeMultiple(a, 1) == 16.0
    ensures FadedGrowth(a, s, 1) == growth + s.growthDelta
    ensures Revenue(a, s, 1) == Grow(1000.0, growth + s.growthDelta)
    ensures Margin(a, s, 1) == Max(1.0, 10.0 + s.marginDelta * 0.25)
    ensures Eps(a, s, 1) == Some(Grow(eps, EpsGrowth(a, s, 1)))
  {
    assert Pow(0.78, 0) == 1.0 && Phase(1) == 0.25 && Drag(1) == 0.0;
    assert Revenue(a, s, 0) == 1000.0 && Eps(a, s, 0) == Some(eps);
  }

  lemma FirstPrices(a: Inputs, eps: real)
    requires IsAnchored(a, eps, 6.0, 0.0) && eps > 0.0
    ensures Price(a, BEAR, 1) == (-189.189 + eps * 12.9792) / 3.0
    ensures Price(a, BASE, 1) == (-267.65 + eps * 16.992) / 3.0
    ensures Price(a, BULL, 1) == (-354.9895 + eps * 22.17472) / 3.0
  {
    FirstYear(a, BEAR, eps, 6.0, 0.0);
    FirstYear(a, BASE, eps, 6.0, 0.0);
    FirstYear(a, BULL, eps, 6.0, 0.0);
    assert EpsGrowth(a, BEAR, 1) == 4.0 && EpsGrowth(a, BASE, 1) == 6.2 && EpsGrowth(a, BULL, 1) == 13.6;
    assert EvEquity(a, BEAR, 1) == 733.59 && PsEquity(a, BEAR, 1) == 1158.3;
    assert EvEquity(a, BASE, 1) == 1086.5 && PsEquity(a, BASE, 1) == 1590.0;
    assert EvEquity(a, BULL, 1) == 1481.995 && PsEquity(a, BULL, 1) == 2067.9;
    assert PeValue(a, BEAR, 1) == Some(eps * 12.9792);
    assert PeValue(a, BASE, 1) == Some(eps * 16.992);
    assert PeValue(a, BULL, 1) == Some(eps * 22.17472);
  }

  /** The prices of a growing company so indebted that its enterprise value leaves nothing. */
  lemma IndebtedPrices(a: Inputs, eps: real)
    requires IsAnchored(a, eps, 30.0, 1000000.0) && eps > 0.0
    ensures Price(a, BEAR, 1) == (-143.91 + eps * 15.30048) / 3.0
    ensures Price(a, BASE, 1) == (-195.0 + eps * 20.832) / 3.0
    ensures Price(a, BULL, 1) == (-250.71 + eps * 26.85952) / 3.0
  {
    FirstYear(a, BEAR, eps, 30.0, 1000000.0);
    FirstYear(a, BASE, eps, 30.0, 1000000.0);
    FirstYear(a, BULL, eps, 30.0, 1000000.0);
    assert EpsGrowth(a, BEAR, 1) == 22.6 && EpsGrowth(a, BASE, 1) == 30.2 && EpsGrowth(a, BULL, 1) == 37.6;
    assert EvEquity(a, BEAR, 1) == 0.0 && PsEquity(a, BEAR, 1) == 1439.1;
    assert EvEquity(a, BASE, 1) == 0.0 && PsEquity(a, BASE, 1) == 1950.0;
    assert EvEquity(a, BULL, 1) == 0.0 && PsEquity(a, BULL, 1) == 2507.1;
    assert PeValue(a, BEAR, 1) == Some(eps * 15.30048);
    assert PeValue(a, BASE, 1) == Some(eps * 20.832);
    assert PeValue(a, BULL, 1) == Some(eps * 26.85952);
  }

  /** With a negative market capitalisation, large earnings keep the order of the first year and small ones turn it
      around; and prices can be in order and all negative. */
  lemma EitherOrder()
    ensures Ordered(InputsOf(100.0, Anchored(100.0, 6.0, 0.0)), 1)
    ensures var a := InputsOf(100.0, Anchored(1.0, 6.0, 0.0));
            Price(a, BULL, 1) < Price(a, BASE, 1) < Price(a, BEAR, 1) < 0.0
    ensures var a := InputsOf(100.0, Anchored(9.3, 30.0, 1000000.0));
            Price(a, BEAR, 1) < Price(a, BASE, 1) < Price(a, BULL, 1) < 0.0
  {
    AnchoredInputs(100.0, 6.0, 0.0);
    AnchoredInputs(1.0, 6.0, 0.0);
    AnchoredInputs(9.3, 30.0, 1000000.0);
    FirstPrices(InputsOf(100.0, Anchored(100.0, 6.0, 0.0)), 100.0);
    FirstPrices(InputsOf(100.0, Anchored(1.0, 6.0, 0.0)), 1.0);
    IndebtedPrices(InputsOf(100.0, Anchored(9.3, 30.0, 1000000.0)), 9.3);
  }

  // ----- the loops

  datatype Row = Row(year: int, price: real, yearGrowthPct: real, cumulativeGrowthPct: real,
                     revenue: real, marginPct: real, eps: Option<real>, multiple: real)

  datatype Failure = DivisionByZero | NoYears | NoRealGrowth

  datatype Projection = Unavailable | Available(bear: seq<Row>, base: seq<Row>, bull: seq<Row>)

  function Change(now: real, before: real): real
    requires before != 0.0
  {
    (now / before - 1.0) * 100.0
  }

  ghost predicate IsRow(a: Inputs, s: Scenario, startYear: int, step: nat, row: Row)
    requires a.shares != 0.0 && step >= 1
  {
    && row.year == startYear + step - 1
    && row.price == Price(a, s, step) && row.revenue == Revenue(a, s, step)
    && row.marginPct == Margin(a, s, step) && row.eps == Eps(a, s, step)
    && row.multiple == EvMultiple(a, step) * s.multiple
    && a.price != 0.0 && PriceBefore(a, s, step) != 0.0
    && row.yearGrowthPct == Change(row.price, PriceBefore(a, s, step))
    && row.cumulativeGrowthPct == Change(row.price, a.price)
  }

  ghost predicate IsPath(a: Inputs, s: Scenario, startYear: int, rows: seq<Row>)
    requires a.shares != 0.0
  {
    forall i :: 0 <= i < |rows| ==> IsRow(a, s, startYear, i + 1, rows[i])
  }

  /** One year of the loop body, from the running revenue, earnings and previous price. */
  method ProjectYear(a: Inputs, s: Scenario, step: nat, revenueBefore: real, epsBefore: Option<real>)
    returns (price: real, revenue: real, margin: real, eps: Option<real>, multiple: real)
    requires a.Valid() && step >= 1
    requires revenueBefore == Revenue(a, s, step - 1) && epsBefore == Eps(a, s, step - 1)
    ensures price == Price(a, s, step) && revenue == Revenue(a, s, step) && margin == Margin(a, s, step)
    ensures eps == Eps(a, s, step) && multiple == EvMultiple(a, step) * s.multiple
  {
    var growth := FadedGrowth(a, s, step);
    revenue := Grow(revenueBefore, growth);
    margin := Margin(a, s, step);
    eps := epsBefore;
    var peValue: Option<real> := None;
    EarningsKeepSign(a, s, step - 1);
    if epsBefore.Some? && epsBefore.value > 0.0 {
      eps := Some(Grow(epsBefore.value, Max(4.0, growth + (margin - a.margin) * 0.8)));
      peValue := Some(Product(eps.value, PeMultiple(a, step), s.multiple));
    }
    var evValue := Max(0.0, Product(Ebitda(revenue, margin), EvMultiple(a, step), s.multiple) - a.netDebt) / a.shares;
    var psValue := Product(revenue, PsMultiple(a, step), s.multiple) / a.shares;
    price := Average(evValue, psValue, peValue);
    multiple := EvMultiple(a, step) * s.multiple;
  }

  /** Whether a year is valued on earnings depends only on the earnings at the start. */
  lemma {:induction false} EarningsKeepSign(a: Inputs, s: Scenario, step: nat)
    ensures a.HasEarnings() <==> Eps(a, s, step).Some? && Eps(a, s, step).value > 0.0
  {
    if step >= 1 {
      EarningsKeepSign(a, s, step - 1);
      var before := Eps(a, s, step - 1);
      if before.Some? && before.value > 0.0 {
        GrowOrder(before.value, before.value, EpsGrowth(a, s, step), EpsGrowth(a, s, step));
      }
    }
  }

  /** Whether no year of a path is compared with a price of zero. */
  ghost predicate Completes(a: Inputs, s: Scenario, years: int)
    requires a.shares != 0.0
  {
    a.price != 0.0 && forall step :: 1 <= step < years ==> Price(a, s, step) != 0.0
  }

  method ProjectPath(a: Inputs, s: Scenario, startYear: int, endYear: int) returns (r: Result<seq<Row>, Failure>)
    requires a.Valid()
    ensures r.Ok? ==> |r.value| == (if endYear < startYear then 0 else endYear - startYear + 1)
    ensures r.Ok? ==> IsPath(a, s, startYear, r.value)
    ensures r.Ok? <==> endYear < startYear || Completes(a, s, endYear - startYear + 1)
    ensures r.Err? ==> r.error == DivisionByZero
  {
    var revenue, eps, previous := a.revenue, a.eps, a.price;
    var rows: seq<Row> := [];
    var year := startYear;
    while year <= endYear
      invariant startYear <= year && |rows| == year - startYear && (startYear <= endYear ==> year <= endYear + 1)
      invariant endYear < startYear ==> year == startYear
      invariant revenue == Revenue(a, s, |rows|) && eps == Eps(a, s, |rows|)
      invariant previous == PriceBefore(a, s, |rows| + 1)
      invariant IsPath(a, s, startYear, rows)
      invariant rows != [] ==> Completes(a, s, |rows|)
    {
      var step := year - startYear + 1;
      var price, margin, multiple;
      price, revenue, margin, eps, multiple := ProjectYear(a, s, step, revenue, eps);
      if previous == 0.0 || a.price == 0.0 {
        return Err(DivisionByZero);
      }
      var row := Row(year, price, Change(price, previous), Change(price, a.price), revenue, margin, eps, multiple);
      rows := rows + [row];
      previous := price;
      year := year + 1;
    }
    r := Ok(rows);
  }

  lemma PathsOrdered(a: Inputs, startYear: int, bear: seq<Row>, base: seq<Row>, bull: seq<Row>)
    requires a.Valid() && a.shares > 0.0 && |bear| == |base| == |bull|
    requires IsPath(a, BEAR, startYear, bear) && IsPath(a, BASE, startYear, base) && IsPath(a, BULL, startYear, bull)
    ensures forall i :: 0 <= i < |base| ==> 0.0 < bear[i].price < base[i].price < bull[i].price
  {
    forall i | 0 <= i < |base| ensures 0.0 < bear[i].price < base[i].price < bull[i].price {
      ScenariosOrdered(a, i + 1);
    }
  }

  /** The last price, rounded, over the current one is raised to one over the number of years. Beyond one year a
      negative ratio has no real root, and the complex one that Python computes cannot be rounded. */
  predicate HasGrowth(current: real, last: real, years: int)
    requires current != 0.0
  {
    years == 1 || Round2(last) / current >= 0.0
  }

  ghost predicate Reported(a: Inputs, s: Scenario, years: int)
    requires a.shares != 0.0 && years >= 1
  {
    Completes(a, s, years) && HasGrowth(a.price, Price(a, s, years), years)
  }

  ghost predicate AllComplete(a: Inputs, years: int)
    requires a.shares != 0.0
  {
    Completes(a, BEAR, years) && Completes(a, BASE, years) && Completes(a, BULL, years)
  }

  ghost predicate AllReported(a: Inputs, years: int)
    requires a.shares != 0.0 && years >= 1
  {
    Reported(a, BEAR, years) && Reported(a, BASE, years) && Reported(a, BULL, years)
  }

  /** `build_projections`. It fails without years, on a zero price to compare with, or on a growth rate that is not
      real, and for no other reason. */
  method BuildProjections(currentPrice: real, f: Features, startYear: int, endYear: int)
    returns (r: Result<Projection, Failure>)
    ensures r == Ok(Unavailable) <==>
            || f.ebitda.None? || f.ebitda.value <= 0.0 || f.revenue.None? || f.revenue.value <= 0.0
            || f.marginPct == None || f.marginPct == Some(0.0) || f.marketCap == None || f.marketCap == Some(0.0)
    ensures !Covered(f) ==> r == Ok(Unavailable)
    ensures Covered(f) && endYear < startYear ==> r == Err(NoYears)
    ensures Covered(f) && startYear <= endYear ==>
              var a, years := InputsOf(currentPrice, f), endYear - startYear + 1;
              && (r.Ok? <==> AllReported(a, years))
              && (r.Err? ==> r.error == if AllComplete(a, years) then NoRealGrowth else DivisionByZero)
    ensures Covered(f) && r.Ok? ==> r.value.Available? && startYear <= endYear
    ensures Covered(f) && r.Ok? ==> |r.value.bear| == |r.value.base| == |r.value.bull| == endYear - startYear + 1
    ensures Covered(f) && r.Ok? ==>
              var a := InputsOf(currentPrice, f);
              IsPath(a, BEAR, startYear, r.value.bear) && IsPath(a, BASE, startYear, r.value.base)
              && IsPath(a, BULL, startYear, r.value.bull)
    ensures Covered(f) && r.Ok? && f.marketCap.value > 0.0 ==>
              forall i :: 0 <= i < |r.value.base| ==>
                0.0 < r.value.bear[i].price < r.value.base[i].price < r.value.bull[i].price
  {
    if !Covered(f) {
      return Ok(Unavailable);
    }
    var a := InputsOf(currentPrice, f);
    var bear := ProjectPath(a, BEAR, startYear, endYear);
    if bear.Err? { return Err(bear.error); }
    var base := ProjectPath(a, BASE, startYear, endYear);
    if base.Err? { return Err(base.error); }
    var bull := ProjectPath(a, BULL, startYear, endYear);
    if bull.Err? { return Err(bull.error); }
    if endYear < startYear {
      return Err(NoYears);
    }
    var years := endYear - startYear + 1;
    LastRow(a, BEAR, startYear, bear.value);
    LastRow(a, BASE, startYear, base.value);
    LastRow(a, BULL, startYear, bull.value);
    if !HasGrowth(a.price, bear.value[years - 1].price, years)
       || !HasGrowth(a.price, base.value[years - 1].price, years)
       || !HasGrowth(a.price, bull.value[years - 1].price, years) {
      return Err(NoRealGrowth);
    }
    if a.shares > 0.0 {
      PathsOrdered(a, startYear, bear.value, base.value, bull.value);
    }
    r := Ok(Available(bear.value, base.value, bull.value));
  }

  lemma LastRow(a: Inputs, s: Scenario, startYear: int, rows: seq<Row>)
    requires a.shares != 0.0 && IsPath(a, s, startYear, rows) && rows != []
    ensures a.price != 0.0 && rows[|rows| - 1].price == Price(a, s, |rows|)
  {
    assert IsRow(a, s, startYear, |rows|, rows[|rows| - 1]);
  }

  // ----- when projections are reported

  lemma RatioSign(x: real, y: real)
    requires y != 0.0
    ensures x / y >= 0.0 <==> x == 0.0 || (x > 0.0 <==> y > 0.0)
  {
    var q := x / y;
    assert q * y == x;
    if q >= 0.0 && y > 0.0 {
      MulMono(0.0, q, y);
    } else if q >= 0.0 {
      MulMono(0.0, q, -y);
    } else if y > 0.0 {
      MulStrict(q, 0.0, y);
    } else {
      MulStrict(q, 0.0, -y);
    }
  }

  /** Positive shares, or no earnings, give all prices the sign of the share count, the bull price being the furthest
      from zero. */
  lemma PriceSigns(a: Inputs, step: nat)
    requires a.Valid() && step >= 1 && (a.shares > 0.0 || !a.HasEarnings())
    ensures a.shares > 0.0 ==> 0.0 < Price(a, BEAR, step) < Price(a, BASE, step) < Price(a, BULL, step)
    ensures a.shares < 0.0 ==> Price(a, BULL, step) < Price(a, BASE, step) < Price(a, BEAR, step) < 0.0
  {
    if a.shares > 0.0 {
      PriceOrder(a, BEAR, BASE, step);
      PriceOrder(a, BASE, BULL, step);
    } else {
      PriceOrderReversed(a, BEAR, BASE, step);
      PriceOrderReversed(a, BASE, BULL, step);
    }
  }

  lemma GrowthExactly(current: real, last: real, years: int)
    requires current != 0.0 && last != 0.0
    ensures HasGrowth(current, last, years) <==>
            years == 1 || (current > 0.0 <==> last > 0.0) || -0.005 <= last <= 0.005
  {
    Round2Sign(last);
    RatioSign(Round2(last), current);
  }

  /** With a positive market capitalisation, or without earnings, projections are reported exactly for a single year,
      for a current price and a market capitalisation of one sign, or if the last bull price rounds to zero. So at a
      positive price a negative capitalisation without earnings fails for every longer range, unless all its last prices
      round to zero. */
  lemma ReportedExactly(a: Inputs, years: nat)
    requires a.Valid() && years >= 1 && (a.shares > 0.0 || !a.HasEarnings())
    ensures AllReported(a, years) <==>
            a.price != 0.0
            && (years == 1 || (a.price > 0.0 <==> a.shares > 0.0) || Round2(Price(a, BULL, years)) == 0.0)
  {
    forall step: nat | step >= 1
      ensures Price(a, BEAR, step) != 0.0 && Price(a, BASE, step) != 0.0 && Price(a, BULL, step) != 0.0
    {
      PriceSigns(a, step);
    }
    if a.price != 0.0 {
      PriceSigns(a, years);
      Round2Sign(Price(a, BULL, years));
      GrowthExactly(a.price, Price(a, BEAR, years), years);
      GrowthExactly(a.price, Price(a, BASE, years), years);
      GrowthExactly(a.price, Price(a, BULL, years), years);
    }
  }

  // ----- what the rows of a path say about each other

  /** `after` is `before` grown by `pct` percent. */
  ghost predicate GrowsBy(before: real, after: real, pct: real) { after == before * (1.0 + pct / 100.0) }

  /** The distance to the anchor shrinks by a fixed rate. */
  ghost predicate FadesTo(anchor: real, rate: real, before: real, after: real) {
    after - anchor == rate * (before - anchor)
  }

  lemma PowNext(base: real, n: nat, anchor: real, gap: real)
    ensures FadesTo(anchor, base, Fade(anchor, gap, Pow(base, n)), Fade(anchor, gap, Pow(base, n + 1)))
    ensures Fade(anchor, gap, Pow(base, 0)) == anchor + gap
  {
    var w := Pow(base, n);
    assert gap * (base * w) == base * (gap * w);
    assert Pow(base, 0) == 1.0;
  }

  ghost function RevenueBefore(a: Inputs, rows: seq<Row>, i: nat): real
    requires i < |rows|
  {
    if i == 0 then a.revenue else rows[i - 1].revenue
  }

  /** The growth that two successive revenues imply. */
  ghost function Implied(before: real, after: real): real
    requires before != 0.0
  {
    (after / before - 1.0) * 100.0
  }

  lemma ImpliedIsGrowth(x: real, pct: real)
    requires x != 0.0
    ensures Implied(x, Grow(x, pct)) == pct
  {
    Unscaled(1.0 + pct / 100.0, x);
  }

  lemma Unscaled(x: real, y: real)
    requires y != 0.0
    ensures x * y / y == x && y * x / y == x
  {
  }

  lemma GrowthStart(a: Inputs, s: Scenario)
    ensures FadedGrowth(a, s, 1) == a.growth + s.growthDelta
  {
    assert Pow(0.78, 0) == 1.0;
  }

  lemma GrowthFades(a: Inputs, s: Scenario, step: nat)
    requires step >= 1
    ensures FadesTo(6.0, 0.78, FadedGrowth(a, s, step), FadedGrowth(a, s, step + 1))
  {
    PowNext(0.78, step - 1, 6.0, a.growth + s.growthDelta - 6.0);
  }

  lemma {:induction false} RevenuePositive(a: Inputs, s: Scenario, step: nat)
    requires a.Valid() && s.growthDelta >= -7.0
    ensures Revenue(a, s, step) > 0.0
    ensures step >= 1 ==> FadedGrowth(a, s, step) >= -1.0
  {
    if step >= 1 {
      RevenuePositive(a, s, step - 1);
      PowFraction(0.78, step - 1);
      FadeBetween(6.0, a.growth + s.growthDelta - 6.0, Pow(0.78, step - 1), -1.0);
      var g := FadedGrowth(a, s, step);
      GrowOrder(Revenue(a, s, step - 1), Revenue(a, s, step - 1), g, g);
    }
  }

  lemma RowGrowth(a: Inputs, s: Scenario, startYear: int, rows: seq<Row>, i: nat)
    requires a.Valid() && a.shares != 0.0 && s.growthDelta >= -7.0 && IsPath(a, s, startYear, rows) && i < |rows|
    ensures RevenueBefore(a, rows, i) > 0.0
    ensures Implied(RevenueBefore(a, rows, i), rows[i].revenue) == FadedGrowth(a, s, i + 1)
  {
    assert IsRow(a, s, startYear, i + 1, rows[i]);
    assert i > 0 ==> IsRow(a, s, startYear, i, rows[i - 1]);
    RevenuePositive(a, s, i);
    ImpliedIsGrowth(Revenue(a, s, i), FadedGrowth(a, s, i + 1));
  }

  /** Revenue grows by the starting growth and the scenario's share of it in the first year, and the distance of its
      growth to 6% shrinks to 78% every year after. */
  lemma RowsGrow(a: Inputs, s: Scenario, startYear: int, rows: seq<Row>, i: nat)
    requires a.Valid() && a.shares != 0.0 && s.growthDelta >= -7.0 && IsPath(a, s, startYear, rows) && i < |rows|
    ensures RevenueBefore(a, rows, i) > 0.0 && (i > 0 ==> RevenueBefore(a, rows, i - 1) > 0.0)
    ensures i == 0 ==> Implied(a.revenue, rows[0].revenue) == a.growth + s.growthDelta
    ensures i > 0 ==>
              FadesTo(6.0, 0.78, Implied(RevenueBefore(a, rows, i - 1), rows[i - 1].revenue),
                      Implied(rows[i - 1].revenue, rows[i].revenue))
  {
    RowGrowth(a, s, startYear, rows, i);
    GrowthStart(a, s);
    if i > 0 {
      RowGrowth(a, s, startYear, rows, i - 1);
      GrowthFades(a, s, i);
    }
  }

  /** The margin moves to the scenario's margin in four yearly quarters, stays there in the fifth year and then loses
      0.15 points a year, but never falls below one percent. */
  lemma RowsMargins(a: Inputs, s: Scenario, startYear: int, rows: seq<Row>, i: nat)
    requires a.shares != 0.0 && IsPath(a, s, startYear, rows) && i < |rows|
    ensures i < 4 ==> rows[i].marginPct == Max(1.0, a.margin + s.marginDelta * ((i + 1) as real / 4.0))
    ensures i >= 4 ==> rows[i].marginPct == Max(1.0, a.margin + s.marginDelta - 0.15 * (i - 4) as real)
  {
    assert IsRow(a, s, startYear, i + 1, rows[i]);
    if i >= 4 {
      assert Phase(i + 1) == 1.0;
    }
  }

  /** The three multiples of a year before the scenario's factor: each one's distance to its anchor shrinks to 82% every
      year, the first included. */
  lemma MultiplesFade(a: Inputs, step: nat)
    ensures EvMultiple(a, 0) == a.evEbitda && FadesTo(10.0, 0.82, EvMultiple(a, step), EvMultiple(a, step + 1))
    ensures PsMultiple(a, 0) == a.priceSales && FadesTo(1.5, 0.82, PsMultiple(a, step), PsMultiple(a, step + 1))
    ensures PeMultiple(a, 0) == a.pe && FadesTo(16.0, 0.82, PeMultiple(a, step), PeMultiple(a, step + 1))
  {
    PowNext(0.82, step, 10.0, a.evEbitda - 10.0);
    PowNext(0.82, step, 1.5, a.priceSales - 1.5);
    PowNext(0.82, step, 16.0, a.pe - 16.0);
  }

  /** The reported multiple is the scenario's factor times a multiple that fades from the starting one to 10. */
  lemma RowsMultiples(a: Inputs, s: Scenario, startYear: int, rows: seq<Row>, i: nat)
    requires a.shares != 0.0 && s.multiple > 0.0 && IsPath(a, s, startYear, rows) && i < |rows|
    ensures FadesTo(10.0, 0.82, if i == 0 then a.evEbitda else rows[i - 1].multiple / s.multiple,
                    rows[i].multiple / s.multiple)
  {
    MultiplesFade(a, i);
    UnscaledRow(a, s, startYear, rows, i);
    if i > 0 {
      UnscaledRow(a, s, startYear, rows, i - 1);
    }
  }

  lemma UnscaledRow(a: Inputs, s: Scenario, startYear: int, rows: seq<Row>, i: nat)
    requires a.shares != 0.0 && s.multiple > 0.0 && IsPath(a, s, startYear, rows) && i < |rows|
    ensures rows[i].multiple / s.multiple == EvMultiple(a, i + 1)
  {
    assert IsRow(a, s, startYear, i + 1, rows[i]);
    Unscaled(EvMultiple(a, i + 1), s.multiple);
  }

  lemma EpsGrows(a: Inputs, s: Scenario, step: nat)
    requires step >= 1 && a.HasEarnings()
    ensures Eps(a, s, step - 1).Some?
    ensures Eps(a, s, step) == Some(Grow(Eps(a, s, step - 1).value, EpsGrowth(a, s, step)))
  {
    EpsIsFactor(a, s, step - 1);
  }

  lemma GrowGrows(x: real, pct: real)
    ensures GrowsBy(x, Grow(x, pct), pct)
  {
  }

  /** Earnings that start positive grow by the revenue growth of the year and 0.8 of the margin gained, and by 4% at
      least. */
  lemma RowsEarnings(a: Inputs, s: Scenario, startYear: int, rows: seq<Row>, i: nat)
    requires a.Valid() && a.shares != 0.0 && s.growthDelta >= -7.0 && IsPath(a, s, startYear, rows) && i < |rows|
    requires a.eps.Some? && a.eps.value > 0.0
    ensures RevenueBefore(a, rows, i) > 0.0
    ensures var before := if i == 0 then a.eps else rows[i - 1].eps;
            var growth := Implied(RevenueBefore(a, rows, i), rows[i].revenue);
            before.Some? && rows[i].eps.Some?
            && GrowsBy(before.value, rows[i].eps.value, Max(4.0, growth + (rows[i].marginPct - a.margin) * 0.8))
  {
    assert IsRow(a, s, startYear, i + 1, rows[i]);
    assert i > 0 ==> IsRow(a, s, startYear, i, rows[i - 1]);
    RowGrowth(a, s, startYear, rows, i);
    EpsGrows(a, s, i + 1);
    GrowGrows(Eps(a, s, i).value, EpsGrowth(a, s, i + 1));
  }

  /** Missing earnings and earnings that are not positive stay what they are. */
  lemma RowsWithoutEarnings(a: Inputs, s: Scenario, startYear: int, rows: seq<Row>, i: nat)
    requires a.shares != 0.0 && IsPath(a, s, startYear, rows) && i < |rows|
    requires a.eps.None? || a.eps.value <= 0.0
    ensures rows[i].eps == a.eps
  {
    assert IsRow(a, s, startYear, i + 1, rows[i]);
    NoEarningsStay(a, s, i + 1);
  }

  lemma {:induction false} NoEarningsStay(a: Inputs, s: Scenario, step: nat)
    requires !a.HasEarnings()
    ensures Eps(a, s, step) == a.eps
  {
    if step >= 1 {
      NoEarningsStay(a, s, step - 1);
    }
  }

  /** The mean of what the valuations give per share, cleared of its denominators. */
  ghost predicate IsMeanPrice(price: real, shares: real, evEquity: real, psEquity: real, peValue: Option<real>) {
    if peValue.None? then 2.0 * (price * shares) == evEquity + psEquity
    else 3.0 * (price * shares) == evEquity + psEquity + peValue.value * shares
  }

  lemma AverageIsMean(evEquity: real, psEquity: real, peValue: Option<real>, shares: real)
    requires shares != 0.0
    ensures IsMeanPrice(Average(evEquity / shares, psEquity / shares, peValue), shares, evEquity, psEquity, peValue)
  {
    var x, y := evEquity / shares, psEquity / shares;
    assert x * shares == evEquity && y * shares == psEquity;
    assert (x + y) * shares == evEquity + psEquity;
    if peValue.Some? {
      assert (x + y + peValue.value) * shares == evEquity + psEquity + peValue.value * shares;
    }
  }

  /** What the enterprise leaves to the shareholders at a multiple of its EBITDA. */
  ghost predicate IsEnterpriseEquity(equity: real, revenue: real, marginPct: real, multiple: real, netDebt: real) {
    equity == Max(0.0, revenue * marginPct / 100.0 * multiple - netDebt)
  }

  lemma EnterpriseEquity(revenue: real, margin: real, multiple: real, factor: real, netDebt: real)
    ensures IsEnterpriseEquity(Max(0.0, Product(Ebitda(revenue, margin), multiple, factor) - netDebt), revenue, margin,
                               multiple * factor, netDebt)
  {
    var e := Ebitda(revenue, margin);
    assert e * multiple * factor == e * (multiple * factor);
  }

  /** A figure of the year times a multiple and the scenario's factor. */
  ghost predicate IsValuation(value: real, figure: real, multiple: real, factor: real) {
    value == figure * multiple * factor
  }

  /** A year's price is the mean of the values per share at the EV/EBITDA multiple of its row, at the year's price/sales
      multiple and, with positive starting earnings, at its price/earnings multiple. */
  lemma RowsPrices(a: Inputs, s: Scenario, startYear: int, rows: seq<Row>, i: nat)
    returns (evEquity: real, psEquity: real, peValue: Option<real>)
    requires a.shares != 0.0 && IsPath(a, s, startYear, rows) && i < |rows|
    ensures IsMeanPrice(rows[i].price, a.shares, evEquity, psEquity, peValue)
    ensures IsEnterpriseEquity(evEquity, rows[i].revenue, rows[i].marginPct, rows[i].multiple, a.netDebt)
    ensures IsValuation(psEquity, rows[i].revenue, PsMultiple(a, i + 1), s.multiple)
    ensures peValue.Some? <==> a.eps.Some? && a.eps.value > 0.0
    ensures peValue.Some? ==>
              rows[i].eps.Some? && IsValuation(peValue.value, rows[i].eps.value, PeMultiple(a, i + 1), s.multiple)
  {
    var step: nat := i + 1;
    assert IsRow(a, s, startYear, step, rows[i]);
    evEquity, psEquity, peValue := EvEquity(a, s, step), PsEquity(a, s, step), PeValue(a, s, step);
    EnterpriseEquity(Revenue(a, s, step), Margin(a, s, step), EvMultiple(a, step), s.multiple, a.netDebt);
    AverageIsMean(evEquity, psEquity, peValue, a.shares);
    EpsPresent(a, s, step);
  }

  lemma EpsPresent(a: Inputs, s: Scenario, step: nat)
    ensures PeValue(a, s, step).Some? <==> a.HasEarnings()
    ensures a.HasEarnings() ==>
              IsValuation(PeValue(a, s, step).value, Eps(a, s, step).value, PeMultiple(a, step), s.multiple)
  {
  }

  /** The years follow each other, and the two growth figures of a row are those of its price over the one before and
      over the current one. */
  lemma RowsChanges(a: Inputs, s: Scenario, startYear: int, rows: seq<Row>, i: nat)
    requires a.shares != 0.0 && IsPath(a, s, startYear, rows) && i < |rows|
    ensures rows[i].year == startYear + i
    ensures GrowsBy(if i == 0 then a.price else rows[i - 1].price, rows[i].price, rows[i].yearGrowthPct)
    ensures GrowsBy(a.price, rows[i].price, rows[i].cumulativeGrowthPct)
  {
    assert IsRow(a, s, startYear, i + 1, rows[i]);
    assert i > 0 ==> IsRow(a, s, startYear, i, rows[i - 1]);
    ChangeGrows(rows[i].price, PriceBefore(a, s, i + 1));
    ChangeGrows(rows[i].price, a.price);
  }

  lemma ChangeGrows(now: real, before: real)
    requires before != 0.0
    ensures GrowsBy(before, now, Change(now, before))
  {
    assert before * (now / before) == now;
  }

  /** The three scenarios in their first year: growth 7 points below, at and above the starting one, a quarter of a
      margin change of -2, 1 and 3 points, and multiples of 0.78, 1 and 1.22 times the faded one. */
  lemma FirstRows(a: Inputs, startYear: int, bear: seq<Row>, base: seq<Row>, bull: seq<Row>)
    requires a.Valid() && bear != [] && base != [] && bull != []
    requires IsPath(a, BEAR, startYear, bear) && IsPath(a, BASE, startYear, base) && IsPath(a, BULL, startYear, bull)
    ensures Implied(a.revenue, bear[0].revenue) == a.growth - 7.0
    ensures Implied(a.revenue, base[0].revenue) == a.growth && Implied(a.revenue, bull[0].revenue) == a.growth + 7.0
    ensures bear[0].marginPct == Max(1.0, a.margin - 0.5) && base[0].marginPct == a.margin + 0.25
    ensures bull[0].marginPct == a.margin + 0.75
    ensures FadesTo(10.0, 0.82, a.evEbitda, base[0].multiple)
    ensures bear[0].multiple == 0.78 * base[0].multiple && bull[0].multiple == 1.22 * base[0].multiple
  {
    RowsGrow(a, BEAR, startYear, bear, 0);
    RowsGrow(a, BASE, startYear, base, 0);
    RowsGrow(a, BULL, startYear, bull, 0);
    RowsMargins(a, BEAR, startYear, bear, 0);
    RowsMargins(a, BASE, startYear, base, 0);
    RowsMargins(a, BULL, startYear, bull, 0);
    RowsMultiples(a, BASE, startYear, base, 0);
    assert IsRow(a, BEAR, startYear, 1, bear[0]) && IsRow(a, BASE, startYear, 1, base[0])
           && IsRow(a, BULL, startYear, 1, bull[0]);
  }

  // ----- what a path starts from

  /** The point of an interval that is closest to `x`. */
  ghost predicate IsClosest(y: real, x: real, low: real, high: real) {
    && low <= y <= high && (x < low ==> y == low) && (x > high ==> y == high) && (low <= x <= high ==> y == x)
  }

  lemma ClampIsClosest(x: real, low: real, high: real)
    requires low <= high
    ensures IsClosest(Clamp(x, low, high), x, low, high)
  {
  }

  /** A figure that is not reported, or reported as zero, is replaced by a default. */
  ghost predicate IsOr(y: real, x: Option<real>, default: real) {
    y == if x.None? || x.value == 0.0 then default else x.value
  }

  /** What the reported figures turn into: shares at the current price, no debt where none is reported, a margin of one
      percent at least. */
  lemma InputsExactly(price: real, f: Features)
    requires Covered(f)
    ensures var a := InputsOf(price, f);
            && a.price == price && a.revenue == f.revenue.value && a.eps == f.eps
            && a.margin == Max(1.0, f.marginPct.value)
            && a.netDebt == (if f.netDebt.Some? then f.netDebt.value else 0.0)
            && a.shares * Max(price, 0.000000001) == f.marketCap.value
  {
    var floor := Max(price, 0.000000001);
    assert f.marketCap.value / floor * floor == f.marketCap.value;
  }

  /** Growth lies within 6 and 30 percent and is the yearly one if reported, or else the trailing
      one, by default ten. */
  lemma GrowthInput(price: real, f: Features) returns (growth: real)
    requires Covered(f)
    ensures if f.growthYoyPct.Some? then growth == f.growthYoyPct.value else IsOr(growth, f.growthTtmPct, 10.0)
    ensures IsClosest(InputsOf(price, f).growth, growth, 6.0, 30.0)
  {
    growth := if f.growthYoyPct.Some? then f.growthYoyPct.value else Or(f.growthTtmPct, 10.0);
    ClampIsClosest(growth, 6.0, 30.0);
  }

  /** The multiples lie within their ranges and are by default 18, 12 and the current price/sales. */
  lemma MultipleInputs(price: real, f: Features) returns (pe: real, evEbitda: real, priceSales: real)
    requires Covered(f)
    ensures IsOr(pe, f.pe, 18.0) && IsClosest(InputsOf(price, f).pe, pe, 5.0, 45.0)
    ensures IsOr(evEbitda, f.evEbitda, 12.0) && IsClosest(InputsOf(price, f).evEbitda, evEbitda, 4.0, 30.0)
    ensures IsOr(priceSales, f.priceSales, f.marketCap.value / f.revenue.value)
            && IsClosest(InputsOf(price, f).priceSales, priceSales, 0.3, 8.0)
  {
    pe, evEbitda := Or(f.pe, 18.0), Or(f.evEbitda, 12.0);
    priceSales := Or(f.priceSales, f.marketCap.value / f.revenue.value);
    ClampIsClosest(pe, 5.0, 45.0);
    ClampIsClosest(evEbitda, 4.0, 30.0);
    ClampIsClosest(priceSales, 0.3, 8.0);
  }
}
