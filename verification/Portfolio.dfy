/** nse_dashboard/trading/portfolio.py and nse_dashboard/services/paper_portfolio.py: the portfolio as a function
    of its state. */
module Portfolio {
  import opened Values
  import opened Numbers
  import opened Position

  /** The positions stand in the order they were opened, as in the Python dictionary; the key of each one is its
      symbol. */
  datatype Book = Book(startingEquity: real, cash: real, highWaterMark: real, realizedPnl: real, paused: bool,
                       positions: seq<PositionData>)

  // ----- `summary`

  function PriceOf(p: PositionData, prices: map<string, real>): real {
    if p.symbol in prices then prices[p.symbol] else p.entryPrice
  }

  function MarketValue(positions: seq<PositionData>, prices: map<string, real>): real {
    if positions == [] then 0.0
    else
      var last := positions[|positions| - 1];
      MarketValue(positions[..|positions| - 1], prices) + Units(last.remainingQuantity, PriceOf(last, prices))
  }

  function AtCost(positions: seq<PositionData>): real { MarketValue(positions, map[]) }

  function Equity(b: Book, prices: map<string, real>): real { b.cash + MarketValue(b.positions, prices) }

  function DrawdownPct(mark: real, equity: real): (d: real)
    ensures d >= 0.0
    ensures equity >= mark ==> d == 0.0
  {
    Below(mark, equity);
    Max(0.0, (mark - equity) / Max(mark, 1.0) * 100.0)
  }

  lemma Below(mark: real, equity: real)
    ensures equity >= mark ==> (mark - equity) / Max(mark, 1.0) * 100.0 <= 0.0
  {
    var k := Max(mark, 1.0);
    if equity >= mark {
      DivMono(mark - equity, 0.0, k);
    }
  }

  /** The state after `summary`: a new high water mark, and a pause at a drawdown of 10%. */
  function Marked(b: Book, prices: map<string, real>): Book {
    var mark := Max(b.highWaterMark, Equity(b, prices));
    b.(highWaterMark := mark, paused := b.paused || DrawdownPct(mark, Equity(b, prices)) >= 10.0)
  }

  /** The drawdown of the holdings at cost. */
  function Drawdown(b: Book): real { DrawdownPct(b.highWaterMark, Equity(b, map[])) }

  datatype Summary = Summary(
    equity: real, cash: real, marketValue: real, highWaterMark: real, drawdownPct: real, openPositions: nat,
    riskMultiplier: real, newEntriesAllowed: bool, liquidate: bool, positions: seq<PositionData>)

  function SummaryFrom(equity: real, cash: real, marketValue: real, mark: real, drawdown: real, paused: bool,
                       positions: seq<PositionData>): Summary {
    Summary(Round2(equity), Round2(cash), Round2(marketValue), Round2(mark), Round2(drawdown), |positions|,
            if drawdown >= 6.0 then 0.5 else 1.0, drawdown < 8.0 && !paused, drawdown >= 10.0, positions)
  }

  function SummaryOf(b: Book, prices: map<string, real>): Summary {
    var m := Marked(b, prices);
    var equity := Equity(b, prices);
    SummaryFrom(equity, b.cash, MarketValue(b.positions, prices), m.highWaterMark,
                DrawdownPct(m.highWaterMark, equity), m.paused, b.positions)
  }

  // ----- the operations

  datatype Order = Order(symbol: string, sector: string, entryDate: int, entry: real, stop: real, riskPct: real,
                         costBps: real, quantity: Option<int>, maximumExposurePct: real)

  datatype Refusal =
    | AlreadyHeld | CircuitBreaker | TooManyPositions | BadSize(error: SizeError) | NotAffordable
    | ExposureExceeded | SectorExceeded | UnknownPosition | BadExitQuantity

  function Find(positions: seq<PositionData>, symbol: string): (r: Option<nat>)
    ensures r.Some? ==> r.value < |positions| && positions[r.value].symbol == symbol
    ensures r.None? ==> forall i :: 0 <= i < |positions| ==> positions[i].symbol != symbol
  {
    if positions == [] then None
    else if positions[|positions| - 1].symbol == symbol then Some(|positions| - 1)
    else Find(positions[..|positions| - 1], symbol)
  }

  function SectorCost(positions: seq<PositionData>, sector: string): real {
    if positions == [] then 0.0
    else
      var last := positions[|positions| - 1];
      SectorCost(positions[..|positions| - 1], sector)
      + if last.sector == sector then Units(last.remainingQuantity, last.entryPrice) else 0.0
  }

  function Exposure(o: Order): real { Min(80.0, o.maximumExposurePct) }

  function RiskTaken(o: Order, multiplier: real): real { o.riskPct * multiplier }

  /** An order that leaves its quantity open; a quantity of zero counts as none. */
  predicate Unsized(o: Order) { o.quantity.None? || o.quantity.value == 0 }

  /** The quantity asked for, or the computed size. */
  function Wanted(o: Order, size: Size): int {
    if Unsized(o) then size.quantity else o.quantity.value
  }

  function NewPosition(o: Order, quantity: int): PositionData {
    PositionData(o.symbol, o.sector, o.entryDate, o.entry, quantity, o.stop, o.stop, o.entry, quantity, false, 0.0, 0,
                 OPEN)
  }

  /** The quantity an order may open, given the summary, or why not. */
  function Admit(b: Book, s: Summary, o: Order): Result<int, Refusal> {
    if !s.newEntriesAllowed then Err(CircuitBreaker)
    else if |b.positions| >= 10 then Err(TooManyPositions)
    else
      var sizing := SizePosition(s.equity, o.entry, o.stop, RiskTaken(o, s.riskMultiplier), o.costBps, 10.0);
      if sizing.Err? then Err(BadSize(sizing.error))
      else
        var quantity := Wanted(o, sizing.value);
        var cost := Units(quantity, o.entry);
        if quantity <= 0 || cost > b.cash then Err(NotAffordable)
        else if s.marketValue + cost > Percent(s.equity, Exposure(o)) then Err(ExposureExceeded)
        else if SectorCost(b.positions, o.sector) + cost > s.equity * 0.20 then Err(SectorExceeded)
        else Ok(quantity)
  }

  function Bought(b: Book, o: Order, quantity: int): Book {
    b.(cash := b.cash - Units(quantity, o.entry), positions := b.positions + [NewPosition(o, quantity)])
  }

  /** `open_position`. A refusal after the first check still leaves the summary's mark and pause behind. */
  function Open(b: Book, o: Order): (Book, Option<Refusal>) {
    if Find(b.positions, o.symbol).Some? then (b, Some(AlreadyHeld))
    else
      var m := Marked(b, map[]);
      var admitted := Admit(m, SummaryOf(b, map[]), o);
      if admitted.Err? then (m, Some(admitted.error)) else (Marked(Bought(m, o, admitted.value), map[]), None)
  }

  function SoldOut(positions: seq<PositionData>, i: nat, quantity: int, price: real): seq<PositionData>
    requires i < |positions|
  {
    if quantity == positions[i].remainingQuantity then positions[..i] + positions[i + 1..]
    else positions[i := Sold(positions[i], quantity, price)]
  }

  /** `apply_exit`; without a quantity everything is sold. */
  function ApplyExit(b: Book, symbol: string, price: real, quantity: Option<int>): (Book, Option<Refusal>) {
    var found := Find(b.positions, symbol);
    if found.None? then (b, Some(UnknownPosition))
    else
      var p := b.positions[found.value];
      var units := quantity.GetOr(p.remainingQuantity);
      if units <= 0 || units > p.remainingQuantity then (b, Some(BadExitQuantity))
      else (Marked(SoldBook(b, found.value, units, price), map[]), None)
  }

  function SoldBook(b: Book, i: nat, units: int, price: real): Book
    requires i < |b.positions|
  {
    b.(cash := b.cash + Units(units, price),
       realizedPnl := b.realizedPnl + Units(units, price - b.positions[i].entryPrice),
       positions := SoldOut(b.positions, i, units, price))
  }

  /** `evaluate_position`. */
  function EvaluateOne(b: Book, symbol: string, s: Session): (Book, Option<Refusal>) {
    var found := Find(b.positions, symbol);
    if found.None? then (b, Some(UnknownPosition))
    else (Marked(b.(positions := b.positions[found.value := Evaluated(b.positions[found.value], s)]), map[]), None)
  }

  /** `resume_at_month_review`. */
  function Resume(b: Book): Book { Marked(b.(paused := false), map[]) }

  /** `get`: a snapshot, then a second summary at market prices if there are any. */
  function Get(b: Book, prices: map<string, real>): Book {
    if prices == map[] then Marked(b, map[]) else Marked(Marked(b, map[]), prices)
  }

  datatype Command =
    | OpenPosition(order: Order)
    | Exit(symbol: string, price: real, quantity: Option<int>)
    | Evaluate(symbol: string, session: Session)
    | MonthReview
    | Report(prices: map<string, real>)

  function Perform(b: Book, c: Command): Book {
    match c
    case OpenPosition(o) => Open(b, o).0
    case Exit(symbol, price, quantity) => ApplyExit(b, symbol, price, quantity).0
    case Evaluate(symbol, s) => EvaluateOne(b, symbol, s).0
    case MonthReview => Resume(b)
    case Report(prices) => Get(b, prices)
  }

  function Fresh(startingEquity: real): Book { Book(startingEquity, startingEquity, startingEquity, 0.0, false, []) }

  function After(b: Book, commands: seq<Command>): Book {
    if commands == [] then b else Perform(After(b, commands[..|commands| - 1]), commands[|commands| - 1])
  }

  // ----- the invariant of every run

  ghost predicate UniqueSymbols(positions: seq<PositionData>) {
    forall i, j :: 0 <= i < j < |positions| ==> positions[i].symbol != positions[j].symbol
  }

  ghost predicate SoundPosition(p: PositionData) {
    1 <= p.remainingQuantity <= p.quantity && p.entryPrice > 0.0 && p.currentStop >= p.initialStop
  }

  ghost predicate SoundPositions(positions: seq<PositionData>) {
    |positions| <= 10 && UniqueSymbols(positions) && forall i :: 0 <= i < |positions| ==> SoundPosition(positions[i])
  }

  /** Money is conserved: cash and the cost of what is held are the starting equity and the realized gains. */
  ghost predicate Conserved(b: Book) {
    b.cash + AtCost(b.positions) == b.startingEquity + b.realizedPnl
  }

  /** The mark covers the equity at cost. */
  ghost predicate MarkCovers(b: Book) { b.highWaterMark >= Equity(b, map[]) }

  ghost predicate Sound(b: Book) {
    SoundPositions(b.positions) && Conserved(b) && MarkCovers(b)
  }

  /** The circuit breaker: a drawdown of 10% at cost means a pause. */
  ghost predicate Latched(b: Book) { Drawdown(b) >= 10.0 ==> b.paused }

  /** Cash is not negative and holdings at cost stay within four times the cash, up to the rounding of the summary
      that the opening check reads. */
  ghost predicate Solvent(b: Book) {
    b.cash >= 0.0 && 0.0 <= AtCost(b.positions) <= 4.0 * b.cash + 0.045
  }

  // ----- sums over positions

  lemma UnitsFacts(n: int, m: int, x: real, y: real)
    ensures Units(n + m, x) == Units(n, x) + Units(m, x)
    ensures Units(n, x) - Units(n, y) == Units(n, x - y)
    ensures n >= 0 && x >= 0.0 ==> Units(n, x) >= 0.0
  {
    assert (n + m) as real == n as real + m as real;
  }

  lemma AtCostAppend(positions: seq<PositionData>, p: PositionData)
    ensures AtCost(positions + [p]) == AtCost(positions) + Units(p.remainingQuantity, p.entryPrice)
    ensures AtCost([]) == 0.0
  {
    assert (positions + [p])[..|positions|] == positions;
  }

  lemma {:induction false} AtCostReplace(positions: seq<PositionData>, i: nat, p: PositionData)
    requires i < |positions|
    ensures AtCost(positions[i := p]) ==
              AtCost(positions) - Units(positions[i].remainingQuantity, positions[i].entryPrice)
                                         + Units(p.remainingQuantity, p.entryPrice)
  {
    var n := |positions| - 1;
    if i < n {
      AtCostReplace(positions[..n], i, p);
      assert positions[i := p][..n] == positions[..n][i := p];
    } else {
      assert positions[i := p][..n] == positions[..n];
    }
  }

  lemma AtCostNext(positions: seq<PositionData>, n: nat)
    requires n + 1 == |positions|
    ensures AtCost(positions) == AtCost(positions[..n]) + Units(positions[n].remainingQuantity, positions[n].entryPrice)
  {
  }

  lemma {:induction false} AtCostRemove(positions: seq<PositionData>, i: nat)
    requires i < |positions|
    ensures AtCost(positions[..i] + positions[i + 1..]) ==
            AtCost(positions) - Units(positions[i].remainingQuantity, positions[i].entryPrice)
  {
    var n := |positions| - 1;
    var front, rest := positions[..n], positions[..i] + positions[i + 1..];
    AtCostNext(positions, n);
    if i < n {
      AtCostRemove(front, i);
      assert rest[..n - 1] == front[..i] + front[i + 1..];
      assert rest[n - 1] == positions[n];
      AtCostNext(rest, n - 1);
    } else {
      assert rest == front;
    }
  }

  lemma {:induction false} AtCostNonnegative(positions: seq<PositionData>)
    requires forall i :: 0 <= i < |positions| ==> SoundPosition(positions[i])
    ensures AtCost(positions) >= 0.0
  {
    if positions != [] {
      var n := |positions| - 1;
      AtCostNonnegative(positions[..n]);
      UnitsFacts(positions[n].remainingQuantity, 0, positions[n].entryPrice, 0.0);
    }
  }

  // ----- each step keeps the invariant

  lemma MarkKeeps(b: Book, prices: map<string, real>)
    ensures Marked(b, prices).highWaterMark >= b.highWaterMark
    ensures b.paused ==> Marked(b, prices).paused
    ensures SoundPositions(b.positions) && Conserved(b) ==> Sound(Marked(b, map[])) && Latched(Marked(b, map[]))
    ensures Sound(b) ==> Sound(Marked(b, prices))
  {
  }

  lemma BoughtKeeps(b: Book, o: Order, quantity: int)
    requires SoundPositions(b.positions) && Conserved(b) && |b.positions| < 10
    requires quantity >= 1 && o.entry > 0.0 && Find(b.positions, o.symbol).None?
    ensures SoundPositions(Bought(b, o, quantity).positions) && Conserved(Bought(b, o, quantity))
    ensures Equity(Bought(b, o, quantity), map[]) == Equity(b, map[])
  {
    AtCostAppend(b.positions, NewPosition(o, quantity));
  }

  /** What the checks of `open_position` let through. */
  lemma AdmitFacts(b: Book, s: Summary, o: Order)
    requires Admit(b, s, o).Ok?
    ensures var quantity := Admit(b, s, o).value;
            var cost := Units(quantity, o.entry);
            && s.newEntriesAllowed && |b.positions| < 10 && quantity >= 1 && s.equity > 0.0 && 0.0 < o.stop < o.entry
            && cost <= b.cash
            && s.marketValue + cost <= Percent(s.equity, 80.0)
            && SectorCost(b.positions, o.sector) + cost <= s.equity * 0.20
  {
    PercentMono(s.equity, Exposure(o), 80.0);
  }

  lemma PercentMono(x: real, a: real, b: real)
    requires x >= 0.0 && a <= b
    ensures Percent(x, a) <= Percent(x, b)
  {
    MulMono(a, b, x);
  }

  /** Whether the order opens a position. */
  predicate Opens(b: Book, o: Order) { Open(b, o).1.None? }

  /** A position opens only when the account is not paused and below a drawdown of 8%, in an unheld symbol, for
      cash that is there, within 80% of the equity and 20% per sector, both as rounded in the summary. Opening
      changes neither the equity nor the drawdown at cost, nor the mark, nor the pause. */
  lemma OpenIsGuarded(b: Book, o: Order)
    requires SoundPositions(b.positions) && Conserved(b)
    ensures Opens(b, o) ==>
              var m, next := Marked(b, map[]), Open(b, o).0;
              && Find(b.positions, o.symbol).None? && !m.paused && Drawdown(m) < 8.0
              && |next.positions| == |b.positions| + 1 <= 10 && next.positions[..|b.positions|] == b.positions
              && next.cash == b.cash - Units(next.positions[|b.positions|].quantity, o.entry) >= 0.0
              && Equity(next, map[]) == Equity(b, map[]) && Drawdown(next) == Drawdown(m)
              && next.highWaterMark == m.highWaterMark && next.paused == m.paused
              && SectorCost(next.positions, o.sector) <= Round2(Equity(b, map[])) * 0.20
  {
    if Opens(b, o) {
      var m := Marked(b, map[]);
      var s := SummaryOf(b, map[]);
      AdmitFacts(m, s, o);
      var quantity := Admit(m, s, o).value;
      BoughtKeeps(m, o, quantity);
      var next := Bought(m, o, quantity);
      assert next.positions[..|b.positions|] == b.positions;
      assert Marked(next, map[]).highWaterMark == m.highWaterMark;
    }
  }

  // ----- the figures in full

  /** Holdings are worth their shares at the given prices, or at cost where none is given. */
  lemma ValueExactly(positions: seq<PositionData>, p: PositionData, prices: map<string, real>, sector: string)
    ensures MarketValue([], prices) == 0.0 && SectorCost([], sector) == 0.0
    ensures MarketValue(positions + [p], prices) ==
            MarketValue(positions, prices)
            + p.remainingQuantity as real * (if p.symbol in prices then prices[p.symbol] else p.entryPrice)
    ensures SectorCost(positions + [p], sector) ==
            SectorCost(positions, sector)
            + if p.sector == sector then p.remainingQuantity as real * p.entryPrice else 0.0
  {
    assert (positions + [p])[..|positions|] == positions;
  }

  /** A drawdown of at least `pct` percent, cleared of its denominator. */
  ghost predicate FallsBy(mark: real, equity: real, pct: real) { (mark - equity) * 100.0 >= pct * Max(mark, 1.0) }

  lemma DrawdownExactly(mark: real, equity: real, pct: real)
    requires pct > 0.0
    ensures DrawdownPct(mark, equity) >= pct <==> FallsBy(mark, equity, pct)
  {
    var k := Max(mark, 1.0);
    var q := (mark - equity) / k;
    assert q * k == mark - equity;
    if q * 100.0 >= pct {
      MulMono(pct, q * 100.0, k);
    } else {
      MulStrict(q * 100.0, pct, k);
    }
  }

  /** A summary raises the mark to the equity and pauses the account at 10% below it. */
  lemma MarkedExactly(b: Book, prices: map<string, real>)
    ensures var m, equity := Marked(b, prices), b.cash + MarketValue(b.positions, prices);
            && m.highWaterMark == Max(b.highWaterMark, equity)
            && (m.paused <==> b.paused || FallsBy(m.highWaterMark, equity, 10.0))
            && m == b.(highWaterMark := m.highWaterMark, paused := m.paused)
  {
    DrawdownExactly(Max(b.highWaterMark, Equity(b, prices)), Equity(b, prices), 10.0);
  }

  /** What a summary reports: money in whole cents, half the risk from 6% on, no entries from 8% on or while paused, and
      liquidation from 10% on. */
  lemma SummaryExactly(b: Book, prices: map<string, real>)
    ensures var s, m, value := SummaryOf(b, prices), Marked(b, prices), MarketValue(b.positions, prices);
            var equity := b.cash + value;
            && s.equity == Round2(equity) && s.cash == Round2(b.cash) && s.marketValue == Round2(value)
            && s.highWaterMark == Round2(m.highWaterMark) && s.openPositions == |b.positions|
            && s.positions == b.positions
            && s.riskMultiplier == (if FallsBy(m.highWaterMark, equity, 6.0) then 0.5 else 1.0)
            && (s.newEntriesAllowed <==> !FallsBy(m.highWaterMark, equity, 8.0) && !m.paused)
            && (s.liquidate <==> FallsBy(m.highWaterMark, equity, 10.0))
  {
    var mark, equity := Max(b.highWaterMark, Equity(b, prices)), Equity(b, prices);
    DrawdownExactly(mark, equity, 6.0);
    DrawdownExactly(mark, equity, 8.0);
    DrawdownExactly(mark, equity, 10.0);
  }

  /** Whether a purchase fits the cash, the exposure limit and a fifth of the equity in its sector; equity and holdings
      count as the summary rounds them. */
  ghost predicate Fits(b: Book, o: Order, quantity: int) {
    var cost, equity := Units(quantity, o.entry), Round2(b.cash + AtCost(b.positions));
    && quantity >= 1 && cost <= b.cash
    && Round2(AtCost(b.positions)) + cost <= Percent(equity, Min(80.0, o.maximumExposurePct))
    && SectorCost(b.positions, o.sector) + cost <= equity * 0.20
  }

  lemma AdmitExactly(b: Book, s: Summary, o: Order)
    requires s.equity == Round2(b.cash + AtCost(b.positions)) && s.marketValue == Round2(AtCost(b.positions))
    ensures var sizing := SizePosition(s.equity, o.entry, o.stop, RiskTaken(o, s.riskMultiplier), o.costBps, 10.0);
            Admit(b, s, o).Ok? <==>
            s.newEntriesAllowed && |b.positions| < 10 && sizing.Ok? && Fits(b, o, Wanted(o, sizing.value))
  {
  }

  lemma RiskExactly(o: Order)
    ensures RiskTaken(o, 0.5) == o.riskPct / 2.0 && RiskTaken(o, 1.0) == o.riskPct
  {
  }

  /** The size an order is given: for the rounded equity, a cap of a tenth of it, and half the risk from 6% down on. */
  ghost function SizeFor(b: Book, o: Order): Result<Size, SizeError> {
    var equity := b.cash + AtCost(b.positions);
    var risk := if FallsBy(Max(b.highWaterMark, equity), equity, 6.0) then o.riskPct / 2.0 else o.riskPct;
    SizePosition(Round2(equity), o.entry, o.stop, risk, o.costBps, 10.0)
  }

  lemma SizeForExactly(b: Book, o: Order)
    ensures var s := SummaryOf(b, map[]);
            SizePosition(s.equity, o.entry, o.stop, RiskTaken(o, s.riskMultiplier), o.costBps, 10.0) == SizeFor(b, o)
  {
    SummaryExactly(b, map[]);
    RiskExactly(o);
  }

  /** Whether the account takes new positions: not paused, less than 8% down, and fewer than ten open. */
  ghost predicate TakesEntries(b: Book) {
    var mark, equity := Max(b.highWaterMark, b.cash + AtCost(b.positions)), b.cash + AtCost(b.positions);
    !b.paused && !FallsBy(mark, equity, 8.0) && |b.positions| < 10
  }

  lemma EntriesExactly(b: Book)
    ensures SummaryOf(b, map[]).newEntriesAllowed && |b.positions| < 10 <==> TakesEntries(b)
    ensures SummaryOf(b, map[]).equity == Round2(b.cash + AtCost(b.positions))
            && SummaryOf(b, map[]).marketValue == Round2(AtCost(b.positions))
  {
    var equity := b.cash + AtCost(b.positions);
    SummaryExactly(b, map[]);
    MarkedExactly(b, map[]);
    FallsMore(Max(b.highWaterMark, equity), equity);
  }

  lemma FallsMore(mark: real, equity: real)
    ensures FallsBy(mark, equity, 10.0) ==> FallsBy(mark, equity, 8.0)
  {
  }

  /** An order opens a position if and only if its symbol is not held, the account takes new positions, the size can be
      computed, and the quantity asked for, or else the computed one, fits. Nothing else keeps it from opening. */
  lemma OpensExactly(b: Book, o: Order)
    ensures Opens(b, o) <==>
            && (forall i :: 0 <= i < |b.positions| ==> b.positions[i].symbol != o.symbol)
            && TakesEntries(b) && SizeFor(b, o).Ok?
            && Fits(b, o, if o.quantity.None? || o.quantity.value == 0 then SizeFor(b, o).value.quantity
                          else o.quantity.value)
  {
    EntriesExactly(b);
    SizeForExactly(b, o);
    AdmitExactly(Marked(b, map[]), SummaryOf(b, map[]), o);
  }

  /** What an opened order leaves behind: its position as bought, with the stop and the highest close at their starting
      points, less cash, and the mark and pause of the summary. */
  lemma PurchaseExactly(b: Book, o: Order)
    ensures Opens(b, o) ==>
              var next, n := Open(b, o).0, |b.positions|;
              && |next.positions| == n + 1 && next.positions[..n] == b.positions
              && var p := next.positions[n];
                 && p.symbol == o.symbol && p.sector == o.sector && p.entryDate == o.entryDate
                 && p.entryPrice == o.entry
                 && p.initialStop == p.currentStop == o.stop && p.highestClose == o.entry && p.quantity >= 1
                 && p.remainingQuantity == p.quantity && !p.partialExitDone && p.realizedPnl == 0.0
                 && p.sessionsHeld == 0 && p.state == OPEN
                 && (o.quantity.Some? && o.quantity.value != 0 ==> p.quantity == o.quantity.value)
                 && next.cash == b.cash - Units(p.quantity, o.entry) && next.realizedPnl == b.realizedPnl
                 && next.startingEquity == b.startingEquity
  {
    if Opens(b, o) {
      AdmitFacts(Marked(b, map[]), SummaryOf(b, map[]), o);
    }
  }

  /** The first two refusals come before anything else is looked at. */
  lemma FirstRefusals(b: Book, o: Order)
    ensures var m, refusal := Marked(b, map[]), Open(b, o).1;
            var held := exists i :: 0 <= i < |b.positions| && b.positions[i].symbol == o.symbol;
            && (refusal == Some(AlreadyHeld) <==> held)
            && (refusal == Some(CircuitBreaker) <==>
                !held && (m.paused || FallsBy(m.highWaterMark, b.cash + AtCost(b.positions), 8.0)))
            && (held ==> Open(b, o).0 == b) && (!held && refusal.Some? ==> Open(b, o).0 == m)
  {
    SummaryExactly(b, map[]);
  }

  /** An exit sells from a held position, at most what is left of it, and leaves the rest of the account as it was. */
  lemma ExitExactly(b: Book, symbol: string, price: real, quantity: Option<int>, i: nat)
    requires UniqueSymbols(b.positions) && i < |b.positions| && b.positions[i].symbol == symbol
    ensures var p := b.positions[i];
            var units := if quantity.None? then p.remainingQuantity else quantity.value;
            var (next, refusal) := ApplyExit(b, symbol, price, quantity);
            && (refusal == if 1 <= units <= p.remainingQuantity then None else Some(BadExitQuantity))
            && (refusal.Some? ==> next == b)
            && (refusal.None? ==>
                 && next.cash == b.cash + Units(units, price) && next.startingEquity == b.startingEquity
                 && next.realizedPnl == b.realizedPnl + Units(units, price - p.entryPrice)
                 && next.positions ==
                    if units == p.remainingQuantity then b.positions[..i] + b.positions[i + 1..]
                    else b.positions[i := p.(remainingQuantity := p.remainingQuantity - units,
                                             realizedPnl := p.realizedPnl + Units(units, price - p.entryPrice),
                                             partialExitDone := true, state := PARTIAL_EXIT)])
  {
    assert Find(b.positions, symbol) == Some(i);
  }

  /** A report marks the account at cost and, with prices, at market, and changes nothing else. */
  lemma GetExactly(b: Book, prices: map<string, real>)
    ensures var r, cost := Get(b, prices), b.cash + AtCost(b.positions);
            var market := b.cash + MarketValue(b.positions, prices);
            var mark := Max(b.highWaterMark, cost);
            && r.highWaterMark == (if prices == map[] then mark else Max(mark, market))
            && (r.paused <==> b.paused || FallsBy(mark, cost, 10.0)
                              || (prices != map[] && FallsBy(Max(mark, market), market, 10.0)))
            && r == b.(highWaterMark := r.highWaterMark, paused := r.paused)
  {
    MarkedExactly(b, map[]);
    MarkedExactly(Marked(b, map[]), prices);
  }

  /** An evaluation updates the position of its symbol alone, and the summary after it the mark and the pause. */
  lemma EvaluateExactly(b: Book, symbol: string, s: Session, i: nat)
    requires UniqueSymbols(b.positions) && i < |b.positions| && b.positions[i].symbol == symbol
    ensures var (next, refusal) := EvaluateOne(b, symbol, s);
            && refusal.None? && next.positions == b.positions[i := Evaluated(b.positions[i], s)]
            && next == b.(positions := next.positions, highWaterMark := next.highWaterMark, paused := next.paused)
  {
    assert Find(b.positions, symbol) == Some(i);
  }

  ghost predicate LargestWithin(quantity: int, each: real, risk: real, entry: real, value: real) {
    WithinCaps(quantity, each, risk, entry, value) && !WithinCaps(quantity + 1, each, risk, entry, value)
  }

  lemma AdmitIsSized(b: Book, s: Summary, o: Order)
    requires Unsized(o) && CostPerShare(o.entry, o.stop, o.costBps) > 0.0
    ensures Admit(b, s, o).Ok? ==>
              LargestWithin(Admit(b, s, o).value, CostPerShare(o.entry, o.stop, o.costBps),
                            Percent(s.equity, RiskTaken(o, s.riskMultiplier)), o.entry, Percent(s.equity, 10.0))
  {
    if Admit(b, s, o).Ok? {
      var quantity := Admit(b, s, o).value;
      SizeIsLargest(s.equity, o.entry, o.stop, RiskTaken(o, s.riskMultiplier), o.costBps, 10.0, quantity);
      SizeIsLargest(s.equity, o.entry, o.stop, RiskTaken(o, s.riskMultiplier), o.costBps, 10.0, quantity + 1);
    }
  }

  /** An order without a quantity of its own opens the largest position that risks its share of the equity, halved from
      a drawdown of 6% on, and is worth at most a tenth of the equity. */
  lemma OpenIsSized(b: Book, o: Order)
    requires Unsized(o) && CostPerShare(o.entry, o.stop, o.costBps) > 0.0
    ensures Opens(b, o) ==>
              var m, next, equity := Marked(b, map[]), Open(b, o).0, Round2(Equity(b, map[]));
              && |next.positions| == |b.positions| + 1
              && LargestWithin(next.positions[|b.positions|].quantity, CostPerShare(o.entry, o.stop, o.costBps),
                               Percent(equity, RiskTaken(o, if Drawdown(m) >= 6.0 then 0.5 else 1.0)), o.entry,
                               Percent(equity, 10.0))
  {
    AdmitIsSized(Marked(b, map[]), SummaryOf(b, map[]), o);
  }

  /** The exposure check on rounded figures bounds the exact ones. */
  lemma OpenKeepsSolvent(b: Book, o: Order)
    requires SoundPositions(b.positions) && Conserved(b)
    ensures Opens(b, o) ==> Solvent(Open(b, o).0)
  {
    if Opens(b, o) {
      var m := Marked(b, map[]);
      var s := SummaryOf(b, map[]);
      AdmitFacts(m, s, o);
      var quantity := Admit(m, s, o).value;
      BoughtKeeps(m, o, quantity);
      var next := Bought(m, o, quantity);
      AtCostAppend(b.positions, NewPosition(o, quantity));
      AtCostNonnegative(next.positions);
      var value, equity := AtCost(b.positions), Equity(b, map[]);
      assert s.marketValue >= value - 0.005 && s.equity <= equity + 0.005;
      assert Percent(s.equity, 80.0) == 0.8 * s.equity;
    }
  }

  lemma OpenKeeps(b: Book, o: Order)
    requires Sound(b)
    ensures Sound(Open(b, o).0)
    ensures Latched(b) ==> Latched(Open(b, o).0)
    ensures Solvent(b) ==> Solvent(Open(b, o).0)
    ensures Open(b, o).0.highWaterMark >= b.highWaterMark && (b.paused ==> Open(b, o).0.paused)
  {
    MarkKeeps(b, map[]);
    if Opens(b, o) {
      var m := Marked(b, map[]);
      AdmitFacts(m, SummaryOf(b, map[]), o);
      BoughtKeeps(m, o, Admit(m, SummaryOf(b, map[]), o).value);
      MarkKeeps(Bought(m, o, Admit(m, SummaryOf(b, map[]), o).value), map[]);
      OpenKeepsSolvent(b, o);
    }
  }

  lemma SoldPositionsSound(positions: seq<PositionData>, i: nat, units: int, price: real)
    requires SoundPositions(positions) && i < |positions| && 1 <= units <= positions[i].remainingQuantity
    ensures SoundPositions(SoldOut(positions, i, units, price))
  {
  }

  lemma SoldPositionsCost(positions: seq<PositionData>, i: nat, units: int, price: real)
    requires i < |positions|
    ensures AtCost(SoldOut(positions, i, units, price)) == AtCost(positions) - Units(units, positions[i].entryPrice)
  {
    var p := positions[i];
    if units == p.remainingQuantity {
      AtCostRemove(positions, i);
    } else {
      AtCostReplace(positions, i, Sold(p, units, price));
      UnitsFacts(p.remainingQuantity - units, units, p.entryPrice, 0.0);
    }
  }

  lemma SoldBookKeeps(b: Book, i: nat, units: int, price: real)
    requires SoundPositions(b.positions) && Conserved(b) && i < |b.positions|
             && 1 <= units <= b.positions[i].remainingQuantity
    ensures SoundPositions(SoldBook(b, i, units, price).positions) && Conserved(SoldBook(b, i, units, price))
    ensures Solvent(b) && price >= 0.0 ==> Solvent(SoldBook(b, i, units, price))
  {
    var entry := b.positions[i].entryPrice;
    SoldPositionsSound(b.positions, i, units, price);
    SoldPositionsCost(b.positions, i, units, price);
    UnitsFacts(units, 0, price, entry);
    UnitsFacts(units, 0, entry, 0.0);
    AtCostNonnegative(SoldOut(b.positions, i, units, price));
  }

  lemma ExitKeeps(b: Book, symbol: string, price: real, quantity: Option<int>)
    requires Sound(b)
    ensures Sound(ApplyExit(b, symbol, price, quantity).0)
    ensures Latched(b) ==> Latched(ApplyExit(b, symbol, price, quantity).0)
    ensures Solvent(b) && price >= 0.0 ==> Solvent(ApplyExit(b, symbol, price, quantity).0)
    ensures ApplyExit(b, symbol, price, quantity).0.highWaterMark >= b.highWaterMark
    ensures b.paused ==> ApplyExit(b, symbol, price, quantity).0.paused
  {
    var found := Find(b.positions, symbol);
    if ApplyExit(b, symbol, price, quantity).1.None? {
      var units := quantity.GetOr(b.positions[found.value].remainingQuantity);
      SoldBookKeeps(b, found.value, units, price);
      MarkKeeps(SoldBook(b, found.value, units, price), map[]);
    }
  }

  lemma EvaluateKeeps(b: Book, symbol: string, s: Session)
    requires Sound(b)
    ensures Sound(EvaluateOne(b, symbol, s).0)
    ensures Latched(b) ==> Latched(EvaluateOne(b, symbol, s).0)
    ensures Solvent(b) ==> Solvent(EvaluateOne(b, symbol, s).0)
    ensures EvaluateOne(b, symbol, s).0.highWaterMark >= b.highWaterMark
    ensures b.paused ==> EvaluateOne(b, symbol, s).0.paused
  {
    var found := Find(b.positions, symbol);
    if found.Some? {
      var p := b.positions[found.value];
      AtCostReplace(b.positions, found.value, Evaluated(p, s));
      MarkKeeps(b.(positions := b.positions[found.value := Evaluated(p, s)]), map[]);
    }
  }

  lemma ReviewKeeps(b: Book)
    requires Sound(b)
    ensures Sound(Resume(b)) && Latched(Resume(b)) && (Solvent(b) ==> Solvent(Resume(b)))
    ensures Resume(b).highWaterMark == b.highWaterMark
    ensures Resume(b).paused <==> Drawdown(b) >= 10.0
  {
    MarkKeeps(b.(paused := false), map[]);
  }

  /** A report at market prices can lift the mark so far above the holdings at cost that the breaker should have
      tripped, and does not: the drawdown it checks is the one at market prices. The latch survives exactly
      when the account is paused after the report's first summary, or its market equity sets no new mark, or lies
      less than 10% above the equity at cost. */
  lemma ReportKeeps(b: Book, prices: map<string, real>)
    requires Sound(b)
    ensures Sound(Get(b, prices)) && (Solvent(b) ==> Solvent(Get(b, prices)))
    ensures Get(b, prices).highWaterMark >= b.highWaterMark && (b.paused ==> Get(b, prices).paused)
    ensures prices == map[] ==> Latched(Get(b, prices))
    ensures prices != map[] ==>
              var m := Marked(b, map[]);
              var market := Equity(b, prices);
              Latched(Get(b, prices)) <==>
              m.paused || market <= m.highWaterMark || DrawdownPct(market, Equity(b, map[])) < 10.0
  {
    MarkKeeps(b, map[]);
    MarkKeeps(Marked(b, map[]), prices);
  }

  lemma StepKeeps(b: Book, c: Command)
    requires Sound(b)
    ensures Sound(Perform(b, c))
    ensures Perform(b, c).highWaterMark >= b.highWaterMark
    ensures b.paused && !c.MonthReview? ==> Perform(b, c).paused
    ensures Latched(b) && (c.Report? ==> c.prices == map[]) ==> Latched(Perform(b, c))
    ensures Solvent(b) && (c.Exit? ==> c.price >= 0.0) ==> Solvent(Perform(b, c))
  {
    match c
    case OpenPosition(o) => OpenKeeps(b, o);
    case Exit(symbol, price, quantity) => ExitKeeps(b, symbol, price, quantity);
    case Evaluate(symbol, s) => EvaluateKeeps(b, symbol, s);
    case MonthReview => ReviewKeeps(b);
    case Report(prices) => ReportKeeps(b, prices);
  }

  // ----- every run

  ghost predicate NonnegativeExits(commands: seq<Command>) {
    forall i :: 0 <= i < |commands| && commands[i].Exit? ==> commands[i].price >= 0.0
  }

  ghost predicate ReportsAtCost(commands: seq<Command>) {
    forall i :: 0 <= i < |commands| && commands[i].Report? ==> commands[i].prices == map[]
  }

  /** From a fresh account, every run of commands conserves money, holds at most ten distinct symbols and keeps
      the mark at or above the equity at cost. With exit prices that are not negative the account also stays
      solvent, and without reports at market prices the circuit breaker is latched after every command. */
  lemma {:induction false} RunsAreSound(startingEquity: real, commands: seq<Command>)
    ensures Sound(After(Fresh(startingEquity), commands))
    ensures startingEquity >= 0.0 && NonnegativeExits(commands) ==> Solvent(After(Fresh(startingEquity), commands))
    ensures ReportsAtCost(commands) ==> Latched(After(Fresh(startingEquity), commands))
  {
    if commands == [] {
      assert AtCost([]) == 0.0;
    } else {
      RunsAreSound(startingEquity, commands[..|commands| - 1]);
      StepKeeps(After(Fresh(startingEquity), commands[..|commands| - 1]), commands[|commands| - 1]);
    }
  }

  /** Over any run the mark never falls, and a pause is only ever lifted by a month review. */
  lemma {:induction false} MarkAndPauseLatch(startingEquity: real, commands: seq<Command>, i: nat)
    requires i <= |commands|
    ensures After(Fresh(startingEquity), commands[..i]).highWaterMark <=
              After(Fresh(startingEquity), commands).highWaterMark
    ensures After(Fresh(startingEquity), commands[..i]).paused
            && (forall k :: i <= k < |commands| ==> !commands[k].MonthReview?) ==>
              After(Fresh(startingEquity), commands).paused
  {
    if i == |commands| {
      assert commands[..i] == commands;
    } else {
      var front := commands[..|commands| - 1];
      assert front[..i] == commands[..i];
      MarkAndPauseLatch(startingEquity, front, i);
      RunsAreSound(startingEquity, front);
      StepKeeps(After(Fresh(startingEquity), front), commands[|commands| - 1]);
    }
  }

  /** Whether a report's second summary lifts the mark beyond the holdings at cost without a pause. */
  predicate Unlatches(b: Book, prices: map<string, real>) {
    var m, market := Marked(b, map[]), Equity(b, prices);
    prices != map[] && !m.paused && market > m.highWaterMark && DrawdownPct(market, Equity(b, map[])) >= 10.0
  }

  /** Whether a command gets as far as a summary. */
  predicate Summarizes(b: Book, c: Command) {
    match c
    case OpenPosition(o) => Find(b.positions, o.symbol).None?
    case Exit(symbol, price, quantity) => ApplyExit(b, symbol, price, quantity).1.None?
    case Evaluate(symbol, s) => EvaluateOne(b, symbol, s).1.None?
    case MonthReview => true
    case Report(_) => true
  }

  /** Whether the last command of a run that made a summary is a report that unlatched the breaker. */
  ghost predicate LeftUnlatched(b: Book, commands: seq<Command>) {
    commands != [] &&
    var before, c := After(b, commands[..|commands| - 1]), commands[|commands| - 1];
    if Summarizes(before, c) then c.Report? && Unlatches(before, c.prices)
    else LeftUnlatched(b, commands[..|commands| - 1])
  }

  lemma SummaryLatches(b: Book, c: Command)
    requires Sound(b)
    ensures Summarizes(b, c) ==> (Latched(Perform(b, c)) <==> !(c.Report? && Unlatches(b, c.prices)))
    ensures !Summarizes(b, c) ==> Perform(b, c) == b
  {
    match c
    case OpenPosition(o) => OpenLatches(b, o);
    case Exit(symbol, price, quantity) => ExitLatches(b, symbol, price, quantity);
    case Evaluate(symbol, s) =>
    case MonthReview =>
    case Report(prices) => ReportKeeps(b, prices);
  }

  lemma MarkLatches(b: Book)
    ensures Latched(Marked(b, map[]))
  {
  }

  lemma OpenLatches(b: Book, o: Order)
    ensures Find(b.positions, o.symbol).None? ==> Latched(Open(b, o).0)
  {
    var m := Marked(b, map[]);
    MarkLatches(b);
    if Opens(b, o) {
      MarkLatches(Bought(m, o, Admit(m, SummaryOf(b, map[]), o).value));
    }
  }

  lemma ExitLatches(b: Book, symbol: string, price: real, quantity: Option<int>)
    ensures ApplyExit(b, symbol, price, quantity).1.None? ==> Latched(ApplyExit(b, symbol, price, quantity).0)
  {
    var found := Find(b.positions, symbol);
    if ApplyExit(b, symbol, price, quantity).1.None? {
      MarkLatches(SoldBook(b, found.value, quantity.GetOr(b.positions[found.value].remainingQuantity), price));
    }
  }

  /** Over every run, reports at market prices included, a drawdown of 10% at cost comes with a pause unless the last
      summary was that of a report which lifted the mark. */
  lemma {:induction false} LatchedExactly(startingEquity: real, commands: seq<Command>)
    ensures Latched(After(Fresh(startingEquity), commands)) <==> !LeftUnlatched(Fresh(startingEquity), commands)
  {
    if commands == [] {
      assert AtCost([]) == 0.0;
    } else {
      var front := commands[..|commands| - 1];
      LatchedExactly(startingEquity, front);
      RunsAreSound(startingEquity, front);
      SummaryLatches(After(Fresh(startingEquity), front), commands[|commands| - 1]);
    }
  }

  // ----- save and restore

  datatype Snapshot = Snapshot(startingEquity: real, cash: real, highWaterMark: real, realizedPnl: real, paused: bool,
                               positions: seq<PositionData>)

  /** The fields that are saved. */
  function Capture(b: Book): Snapshot {
    Snapshot(b.startingEquity, b.cash, b.highWaterMark, b.realizedPnl, b.paused, b.positions)
  }

  /** `_snapshot`: what is saved, after the summary has marked the account. */
  function SnapshotOf(b: Book): Snapshot { Capture(Marked(b, map[])) }

  /** `positions[position.symbol] = position`: replaces in place or appends. */
  function Put(positions: seq<PositionData>, p: PositionData): seq<PositionData> {
    var found := Find(positions, p.symbol);
    if found.Some? then positions[found.value := p] else positions + [p]
  }

  function PutAll(raw: seq<PositionData>): seq<PositionData> {
    if raw == [] then [] else Put(PutAll(raw[..|raw| - 1]), raw[|raw| - 1])
  }

  /** `_restore`. */
  function Restore(s: Snapshot): Book {
    Book(s.startingEquity, s.cash, s.highWaterMark, s.realizedPnl, s.paused, PutAll(s.positions))
  }

  lemma {:induction false} PutAllUnique(raw: seq<PositionData>)
    requires UniqueSymbols(raw)
    ensures PutAll(raw) == raw
  {
    if raw != [] {
      PutAllUnique(raw[..|raw| - 1]);
    }
  }

  /** A restored snapshot is the account that was saved, as its summary marked it; an account whose mark covers its
      equity comes back exactly if and only if it is latched. */
  lemma RestoreRebuilds(b: Book)
    requires UniqueSymbols(b.positions)
    ensures Restore(SnapshotOf(b)) == Marked(b, map[])
    ensures MarkCovers(b) ==> (Restore(SnapshotOf(b)) == b <==> Latched(b))
  {
    PutAllUnique(b.positions);
  }

  // ----- what callers see

  /** What a command returns: a refusal, or the saved snapshot with a summary and, for an evaluation, the decision. */
  datatype Reply = Refused(refusal: Refusal) | Reported(saved: Snapshot, summary: Summary, decision: Option<Decision>)

  function Answered(next: Book, refusal: Option<Refusal>, decision: Option<Decision>): Reply {
    if refusal.Some? then Refused(refusal.value) else Reported(Capture(next), SummaryOf(next, map[]), decision)
  }

  function DecisionOn(b: Book, symbol: string, s: Session): Option<Decision> {
    var found := Find(b.positions, symbol);
    if found.None? then None else Some(Decided(b.positions[found.value], s))
  }

  function ReplyTo(b: Book, c: Command): Reply {
    match c
    case OpenPosition(o) => Answered(Open(b, o).0, Open(b, o).1, None)
    case Exit(symbol, price, quantity) =>
      var (next, refusal) := ApplyExit(b, symbol, price, quantity);
      Answered(next, refusal, None)
    case Evaluate(symbol, s) =>
      var (next, refusal) := EvaluateOne(b, symbol, s);
      Answered(next, refusal, DecisionOn(b, symbol, s))
    case MonthReview => Answered(Resume(b), None, None)
    case Report(prices) =>
      Reported(SnapshotOf(b), if prices == map[] then SummaryOf(b, map[]) else SummaryOf(Marked(b, map[]), prices),
               None)
  }

  /** The summary of an account that a summary has just marked is that summary. */
  lemma SummaryStays(b: Book)
    ensures SummaryOf(Marked(b, map[]), map[]) == SummaryOf(b, map[])
  {
  }

  function Replies(b: Book, commands: seq<Command>): seq<Reply> {
    if commands == [] then []
    else
      var front := commands[..|commands| - 1];
      Replies(b, front) + [ReplyTo(After(b, front), commands[|commands| - 1])]
  }

  /** No caller can tell the two accounts apart. */
  ghost predicate SameAnswers(a: Book, b: Book) {
    forall later: seq<Command> :: Replies(a, later) == Replies(b, later)
  }

  lemma FirstReply(b: Book, c: Command)
    ensures Replies(b, [c]) == [ReplyTo(b, c)]
  {
    assert [c][..0] == [];
  }

  lemma SaleMovesEquity(b: Book, i: nat, price: real)
    requires i < |b.positions|
    ensures Equity(SoldBook(b, i, 1, price), map[]) == Equity(b, map[]) + price - b.positions[i].entryPrice
  {
    SoldPositionsCost(b.positions, i, 1, price);
    assert Units(1, price) == price && Units(1, b.positions[i].entryPrice) == b.positions[i].entryPrice;
  }

  /** Selling one share at a price that brings the equity at cost back to the mark leaves the unlatched account unpaused
      and the restored one paused. */
  lemma ExitTellsApart(b: Book) returns (c: Command)
    requires Sound(b) && !Latched(b) && b.positions != []
    ensures var replied, restored := ReplyTo(b, c), ReplyTo(Restore(SnapshotOf(b)), c);
            replied.Reported? && restored.Reported? && !replied.saved.paused && restored.saved.paused
  {
    var p, r := b.positions[0], Marked(b, map[]);
    var price := p.entryPrice + b.highWaterMark - Equity(b, map[]);
    c := Exit(p.symbol, price, Some(1));
    RestoreRebuilds(b);
    assert Find(b.positions, p.symbol) == Some(0);
    SaleMovesEquity(b, 0, price);
    assert ApplyExit(b, p.symbol, price, Some(1)) == (Marked(SoldBook(b, 0, 1, price), map[]), None);
    assert ApplyExit(r, p.symbol, price, Some(1)) == (Marked(SoldBook(r, 0, 1, price), map[]), None);
  }

  lemma UnlatchesHolding(b: Book, prices: map<string, real>)
    ensures Unlatches(b, prices) ==> b.positions != []
  {
    if b.positions == [] {
      assert MarketValue(b.positions, prices) == 0.0 && AtCost(b.positions) == 0.0;
    }
  }

  /** Only an account with holdings is ever left unlatched. */
  lemma {:induction false} UnlatchedHolds(startingEquity: real, commands: seq<Command>)
    ensures !Latched(After(Fresh(startingEquity), commands)) ==> After(Fresh(startingEquity), commands).positions != []
  {
    if commands == [] {
      assert AtCost([]) == 0.0;
    } else {
      var front, c := commands[..|commands| - 1], commands[|commands| - 1];
      var b := After(Fresh(startingEquity), front);
      UnlatchedHolds(startingEquity, front);
      RunsAreSound(startingEquity, front);
      SummaryLatches(b, c);
      if c.Report? {
        UnlatchesHolding(b, c.prices);
      }
    }
  }

  /** Saving and restoring at some moment of a run changes no later answer, whatever commands follow, if and only if the
      account is latched at that moment. */
  lemma RestoreIsInvisible(startingEquity: real, before: seq<Command>)
    ensures var b := After(Fresh(startingEquity), before);
            SameAnswers(Restore(SnapshotOf(b)), b) <==> Latched(b)
  {
    var b := After(Fresh(startingEquity), before);
    RunsAreSound(startingEquity, before);
    UnlatchedHolds(startingEquity, before);
    RestoreRebuilds(b);
    if !Latched(b) {
      var c := ExitTellsApart(b);
      FirstReply(b, c);
      FirstReply(Restore(SnapshotOf(b)), c);
      assert Replies(b, [c])[0] != Replies(Restore(SnapshotOf(b)), [c])[0];
    }
  }

  // ----- restarting from the last save

  /** What a command saves. Refusals save nothing, and a report saves before it looks at market prices. */
  function Saved(b: Book, c: Command): Option<Snapshot> {
    match c
    case OpenPosition(o) =>
      var (next, refusal) := Open(b, o);
      if refusal.None? then Some(Capture(next)) else None
    case Exit(symbol, price, quantity) =>
      var (next, refusal) := ApplyExit(b, symbol, price, quantity);
      if refusal.None? then Some(Capture(next)) else None
    case Evaluate(symbol, s) =>
      var (next, refusal) := EvaluateOne(b, symbol, s);
      if refusal.None? then Some(Capture(next)) else None
    case MonthReview => Some(Capture(Resume(b)))
    case Report(_) => Some(SnapshotOf(b))
  }

  /** The account of a running service and the snapshot in its repository. */
  datatype Account = Account(live: Book, stored: Option<Snapshot>)

  function Serve(a: Account, c: Command): Account {
    var saved := Saved(a.live, c);
    Account(Perform(a.live, c), if saved.Some? then saved else a.stored)
  }

  /** What a service starts with. */
  function Started(stored: Option<Snapshot>, startingEquity: real): Account {
    Account(if stored.Some? then Restore(stored.value) else Fresh(startingEquity), stored)
  }

  function Served(startingEquity: real, commands: seq<Command>): Account {
    if commands == [] then Started(None, startingEquity)
    else Serve(Served(startingEquity, commands[..|commands| - 1]), commands[|commands| - 1])
  }

  lemma {:induction false} ServedLive(startingEquity: real, commands: seq<Command>)
    ensures Served(startingEquity, commands).live == After(Fresh(startingEquity), commands)
  {
    if commands != [] {
      ServedLive(startingEquity, commands[..|commands| - 1]);
    }
  }

  /** Whether a report's second summary, which is not saved, raises the mark or pauses the account. */
  predicate Moves(b: Book, prices: map<string, real>) {
    var m, market := Marked(b, map[]), Equity(b, prices);
    prices != map[] && (market > m.highWaterMark || (!m.paused && DrawdownPct(m.highWaterMark, market) >= 10.0))
  }

  /** Whether the last command of a run that saved is a report that moved the account afterwards. */
  ghost predicate Stale(startingEquity: real, commands: seq<Command>) {
    commands != [] &&
    var before, c := Served(startingEquity, commands[..|commands| - 1]).live, commands[|commands| - 1];
    if Saved(before, c).Some? then c.Report? && Moves(before, c.prices)
    else Stale(startingEquity, commands[..|commands| - 1])
  }

  /** All that a restart can lose: part of the mark, or a pause. */
  ghost predicate LosesAtMostMark(live: Book, restarted: Book) {
    && restarted == live.(highWaterMark := restarted.highWaterMark, paused := restarted.paused)
    && restarted.highWaterMark <= live.highWaterMark && (restarted.paused ==> live.paused)
  }

  lemma RestoreCapture(b: Book)
    requires Sound(b)
    ensures Restore(Capture(b)) == b
  {
    PutAllUnique(b.positions);
  }

  /** A command that saves leaves the repository with the account as it was before any market prices. */
  lemma SaveIsLive(b: Book, c: Command)
    requires Sound(b)
    ensures var saved := Saved(b, c);
            saved.Some? ==>
              && Sound(Restore(saved.value)) && Latched(Restore(saved.value))
              && LosesAtMostMark(Perform(b, c), Restore(saved.value))
              && (Restore(saved.value) == Perform(b, c) <==> !(c.Report? && Moves(b, c.prices)))
  {
    StepKeeps(b, c);
    SummaryLatches(b, c);
    match c
    case OpenPosition(o) => RestoreCapture(Perform(b, c));
    case Exit(symbol, price, quantity) => RestoreCapture(Perform(b, c));
    case Evaluate(symbol, s) => RestoreCapture(Perform(b, c));
    case MonthReview => RestoreCapture(Perform(b, c));
    case Report(prices) =>
      MarkKeeps(b, map[]);
      RestoreCapture(Marked(b, map[]));
  }

  /** Without a save only a refused opening changes anything, and only an account that is not latched. */
  lemma RefusalKeeps(b: Book, c: Command)
    requires Sound(b)
    ensures Saved(b, c).None? ==> Perform(b, c) == b || Perform(b, c) == b.(paused := true)
    ensures Saved(b, c).None? && Latched(b) ==> Perform(b, c) == b
  {
  }

  /** After every run, a service that restarts from its repository has the positions, the cash and the realized gains of
      the running one, and at most a lower mark or a missing pause. It has the same account, and goes on the same way,
      if and only if the last save was not that of a report whose market prices moved the mark or the pause. */
  lemma {:induction false} RestartsExactly(startingEquity: real, commands: seq<Command>)
    ensures var a := Served(startingEquity, commands);
            var restarted := Started(a.stored, startingEquity);
            && LosesAtMostMark(a.live, restarted.live) && Sound(restarted.live) && Latched(restarted.live)
            && (restarted == a <==> !Stale(startingEquity, commands))
  {
    if commands == [] {
      assert AtCost([]) == 0.0;
    } else {
      var front, c := commands[..|commands| - 1], commands[|commands| - 1];
      RestartsExactly(startingEquity, front);
      ServedLive(startingEquity, front);
      RunsAreSound(startingEquity, front);
      SaveIsLive(Served(startingEquity, front).live, c);
      RefusalKeeps(Served(startingEquity, front).live, c);
    }
  }

  /** The order of the example below. */
  ghost predicate FourAtHundred(o: Order) {
    && o.entry == 100.0 && o.stop == 90.0 && o.quantity == Some(4)
    && o.maximumExposurePct == 80.0 && o.costBps >= 0.0
  }

  lemma WholeAmounts()
    ensures Round2(2000.0) == 2000.0 && Round2(0.0) == 0.0
  {
    assert IsCents(2000.0, 200000) && IsCents(0.0, 0);
    Round2OfCents(2000.0);
    Round2OfCents(0.0);
  }

  lemma FirstSummary()
    ensures var b := Fresh(2000.0);
            && Marked(b, map[]) == b
            && SummaryOf(b, map[]).(cash := 0.0) == Summary(2000.0, 0.0, 0.0, 2000.0, 0.0, 0, 1.0, true, false, [])
  {
    WholeAmounts();
    assert AtCost([]) == 0.0;
  }

  lemma FirstAdmission(b: Book, s: Summary, o: Order)
    requires FourAtHundred(o) && b == Fresh(2000.0)
    requires s.newEntriesAllowed && s.equity == 2000.0 && s.marketValue == 0.0
    ensures Admit(b, s, o) == Ok(4)
  {
    assert CostPerShare(100.0, 90.0, o.costBps) > 0.0;
    assert Units(4, 100.0) == 400.0 && Percent(2000.0, 80.0) == 1600.0;
    assert SectorCost([], o.sector) == 0.0;
  }

  lemma FirstPurchase(o: Order)
    requires FourAtHundred(o)
    ensures var next := Book(2000.0, 1600.0, 2000.0, 0.0, false, [NewPosition(o, 4)]);
            Bought(Fresh(2000.0), o, 4) == next && Marked(next, map[]) == next
  {
    var p := NewPosition(o, 4);
    AtCostAppend([], p);
    assert [] + [p] == [p];
    assert Units(4, 100.0) == 400.0;
  }

  lemma OpensAsBought(b: Book, o: Order, quantity: int)
    requires Find(b.positions, o.symbol).None? && Marked(b, map[]) == b
             && Admit(b, SummaryOf(b, map[]), o) == Ok(quantity)
    ensures Perform(b, OpenPosition(o)) == Marked(Bought(b, o, quantity), map[])
  {
  }

  lemma FirstOpening(o: Order)
    requires FourAtHundred(o)
    ensures Perform(Fresh(2000.0), OpenPosition(o)) == Book(2000.0, 1600.0, 2000.0, 0.0, false, [NewPosition(o, 4)])
  {
    var b := Fresh(2000.0);
    FirstSummary();
    var s := SummaryOf(b, map[]);
    assert s.newEntriesAllowed && s.equity == 2000.0 && s.marketValue == 0.0;
    FirstAdmission(b, s, o);
    OpensAsBought(b, o, 4);
    FirstPurchase(o);
  }

  lemma DoubledPrice(p: PositionData, b: Book, prices: map<string, real>)
    requires p.entryPrice == 100.0 && p.remainingQuantity == 4 && b == Book(2000.0, 1600.0, 2000.0, 0.0, false, [p])
    requires prices == map[p.symbol := 200.0]
    ensures Unlatches(b, prices) && Moves(b, prices) && Get(b, prices).highWaterMark == 2400.0
    ensures Restore(SnapshotOf(b)).highWaterMark == 2000.0
  {
    assert [p][..0] == [];
    assert MarketValue([p], map[]) == 400.0 && MarketValue([p], prices) == 800.0;
    assert prices != map[] && p.symbol in prices;
    assert Equity(b, map[]) == 2000.0 && Equity(b, prices) == 2400.0 && Marked(b, map[]) == b;
  }

  /** A run that ends with a report at market prices. */
  lemma ReportLast(startingEquity: real, front: seq<Command>, run: seq<Command>, prices: map<string, real>)
    requires run == front + [Report(prices)]
    ensures var b := After(Fresh(startingEquity), front);
            && After(Fresh(startingEquity), run) == Get(b, prices)
            && Served(startingEquity, run).stored == Some(SnapshotOf(b))
            && (LeftUnlatched(Fresh(startingEquity), run) <==> Unlatches(b, prices))
            && (Stale(startingEquity, run) <==> Moves(b, prices))
  {
    assert run[..|run| - 1] == front && run[|run| - 1] == Report(prices);
    ServedLive(startingEquity, front);
  }

  lemma OneCommand(b: Book, c: Command)
    ensures After(b, [c]) == Perform(b, c)
  {
    assert [c][..0] == [];
  }

  /** Four shares opened at 100 with a fifth of a fresh account of 2000, then a report at 200: the mark is 2400, the
      drawdown at cost is beyond 10% without a pause, and a restart falls back to the saved mark of 2000. */
  lemma ReportCanUnlatch(o: Order)
    requires FourAtHundred(o)
    ensures var run := [OpenPosition(o)] + [Report(map[o.symbol := 200.0])];
            && !Latched(After(Fresh(2000.0), run)) && Stale(2000.0, run)
            && After(Fresh(2000.0), run).highWaterMark == 2400.0
            && Started(Served(2000.0, run).stored, 2000.0).live.highWaterMark == 2000.0
  {
    var prices := map[o.symbol := 200.0];
    var front := [OpenPosition(o)];
    FirstOpening(o);
    OneCommand(Fresh(2000.0), OpenPosition(o));
    DoubledPrice(NewPosition(o, 4), After(Fresh(2000.0), front), prices);
    ReportLast(2000.0, front, front + [Report(prices)], prices);
    LatchedExactly(2000.0, front + [Report(prices)]);
  }
}
