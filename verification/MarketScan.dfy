/** nse_dashboard/services/signals.py, the buy and sell lists of `compute_market_scan`. */
module MarketScan {
  datatype Signal = BUY | SELL | HOLD

  datatype Item = Item(symbol: string, sector: string, signal: Signal, score: int)

  datatype Sector = Sector(name: string, buys: seq<Item>, sells: seq<Item>)

  datatype Scan = Scan(generatedAt: int, sectors: seq<Sector>)

  /** The items of one sector and signal, in the order they were scored. */
  function Select(items: seq<Item>, sector: string, signal: Signal): (r: seq<Item>)
    ensures forall x :: x in r <==> x in items && x.sector == sector && x.signal == signal
  {
    if items == [] then []
    else
      var last := items[|items| - 1];
      var front := Select(items[..|items| - 1], sector, signal);
      assert forall x :: x in items <==> x in items[..|items| - 1] || x == last;
      if last.sector == sector && last.signal == signal then front + [last] else front
  }

  /** Whether `a` is listed before `b`: by score, the highest first when `descending`. */
  predicate Leads(a: Item, b: Item, descending: bool) {
    if descending then a.score >= b.score else a.score <= b.score
  }

  ghost predicate Ranked(items: seq<Item>, descending: bool) {
    forall i, j :: 0 <= i < j < |items| ==> Leads(items[i], items[j], descending)
  }

  ghost predicate DistinctSymbols(items: seq<Item>) {
    forall i, j :: 0 <= i < j < |items| ==> items[i].symbol != items[j].symbol
  }

  /** Stable insertion: `x` goes behind every item that leads it. */
  function Insert(items: seq<Item>, x: Item, descending: bool): (r: seq<Item>)
    requires Ranked(items, descending)
    ensures Ranked(r, descending)
    ensures forall y :: y in r <==> y in items || y == x
  {
    if items == [] then [x]
    else
      var last := items[|items| - 1];
      var front := items[..|items| - 1];
      assert forall y :: y in items <==> y in front || y == last;
      if Leads(last, x, descending) then items + [x]
      else
        var r := Insert(front, x, descending);
        assert forall i :: 0 <= i < |r| ==> r[i] in r;
        r + [last]
  }

  /** `sorted(items, key=score, reverse=descending)`. */
  function Rank(items: seq<Item>, descending: bool): (r: seq<Item>)
    ensures Ranked(r, descending)
    ensures forall y :: y in r <==> y in items
  {
    if items == [] then []
    else
      var front := items[..|items| - 1];
      var last := items[|items| - 1];
      assert forall y :: y in items <==> y in front || y == last;
      Insert(Rank(front, descending), last, descending)
  }

  lemma {:induction false} InsertDistinct(items: seq<Item>, x: Item, descending: bool)
    requires Ranked(items, descending) && DistinctSymbols(items)
    requires forall i :: 0 <= i < |items| ==> items[i].symbol != x.symbol
    ensures DistinctSymbols(Insert(items, x, descending))
  {
    if items != [] && !Leads(items[|items| - 1], x, descending) {
      var front, last := items[..|items| - 1], items[|items| - 1];
      InsertDistinct(front, x, descending);
      var r := Insert(front, x, descending);
      forall i | 0 <= i < |r| ensures r[i].symbol != last.symbol {
        assert r[i] in r;
      }
    }
  }

  lemma {:induction false} RankDistinct(items: seq<Item>, descending: bool)
    requires DistinctSymbols(items)
    ensures DistinctSymbols(Rank(items, descending))
  {
    if items != [] {
      var front, last := items[..|items| - 1], items[|items| - 1];
      var ranked := Rank(front, descending);
      RankDistinct(front, descending);
      forall i | 0 <= i < |ranked| ensures ranked[i].symbol != last.symbol {
        assert ranked[i] in ranked;
      }
      InsertDistinct(ranked, last, descending);
    }
  }

  function TopFive(items: seq<Item>): seq<Item> {
    if |items| <= 5 then items else items[..5]
  }

  function Buys(items: seq<Item>, sector: string): seq<Item> {
    TopFive(Rank(Select(items, sector, BUY), true))
  }

  function Sells(items: seq<Item>, sector: string): seq<Item> {
    TopFive(Rank(Select(items, sector, SELL), false))
  }

  function SectorsOf(items: seq<Item>, names: seq<string>): (r: seq<Sector>)
    ensures |r| == |names|
  {
    seq(|names|, i requires 0 <= i < |names| => Sector(names[i], Buys(items, names[i]), Sells(items, names[i])))
  }

  // ----- what the lists contain

  lemma {:induction false} SelectDistinct(items: seq<Item>, sector: string, signal: Signal)
    requires DistinctSymbols(items)
    ensures DistinctSymbols(Select(items, sector, signal))
  {
    if items != [] {
      var front := items[..|items| - 1];
      SelectDistinct(front, sector, signal);
      forall x | x in Select(front, sector, signal) ensures x.symbol != items[|items| - 1].symbol {
        var i :| 0 <= i < |front| && front[i] == x;
      }
    }
  }

  /** Somewhere in the list `x` comes before `y`. */
  ghost predicate Precedes(items: seq<Item>, x: Item, y: Item) {
    exists p, q :: 0 <= p < q < |items| && items[p] == x && items[q] == y
  }

  /** Items of equal score keep the order they have in `items`. */
  ghost predicate StableIn(listed: seq<Item>, items: seq<Item>) {
    forall i, j :: 0 <= i < j < |listed| && listed[i].score == listed[j].score ==> Precedes(items, listed[i], listed[j])
  }

  lemma PrecedesGrows(items: seq<Item>, x: Item, y: Item, last: Item)
    ensures Precedes(items, x, y) ==> Precedes(items + [last], x, y)
    ensures x in items ==> Precedes(items + [last], x, last)
  {
    var all := items + [last];
    if Precedes(items, x, y) {
      var p, q :| 0 <= p < q < |items| && items[p] == x && items[q] == y;
      assert all[p] == x && all[q] == y;
    }
    if x in items {
      var p :| 0 <= p < |items| && items[p] == x;
      assert all[p] == x && all[|items|] == last;
    }
  }

  /** The inserted item comes after every item of its score, and the others keep their order. */
  lemma {:induction false} InsertStable(ranked: seq<Item>, x: Item, descending: bool, items: seq<Item>)
    requires Ranked(ranked, descending) && StableIn(ranked, items) && forall y :: y in ranked ==> y in items
    ensures StableIn(Insert(ranked, x, descending), items + [x])
  {
    var r := Insert(ranked, x, descending);
    if ranked == [] || Leads(ranked[|ranked| - 1], x, descending) {
      forall i, j | 0 <= i < j < |r| && r[i].score == r[j].score ensures Precedes(items + [x], r[i], r[j]) {
        assert r[i] == ranked[i] && ranked[i] in ranked;
        PrecedesGrows(items, r[i], r[j], x);
      }
    } else {
      var front, last := ranked[..|ranked| - 1], ranked[|ranked| - 1];
      InsertStable(front, x, descending, items);
      var inner := Insert(front, x, descending);
      forall i, j | 0 <= i < j < |r| && r[i].score == r[j].score ensures Precedes(items + [x], r[i], r[j]) {
        if j == |r| - 1 {
          InsertedBefore(ranked, x, descending, inner, i);
          PrecedesGrows(items, r[i], last, x);
        } else {
          assert r[i] == inner[i] && r[j] == inner[j];
        }
      }
    }
  }

  lemma InsertedBefore(ranked: seq<Item>, x: Item, descending: bool, inner: seq<Item>, i: nat)
    requires Ranked(ranked, descending) && ranked != [] && !Leads(ranked[|ranked| - 1], x, descending)
    requires inner == Insert(ranked[..|ranked| - 1], x, descending) && i < |inner|
    requires inner[i].score == ranked[|ranked| - 1].score
    ensures exists k :: 0 <= k < |ranked| - 1 && ranked[k] == inner[i]
  {
    assert inner[i] in inner;
    assert inner[i] != x;
  }

  lemma {:induction false} RankStable(items: seq<Item>, descending: bool)
    ensures StableIn(Rank(items, descending), items)
  {
    if items != [] {
      var front, last := items[..|items| - 1], items[|items| - 1];
      RankStable(front, descending);
      InsertStable(Rank(front, descending), last, descending, front);
      assert front + [last] == items;
    }
  }

  lemma {:induction false} SelectKeepsOrder(items: seq<Item>, sector: string, signal: Signal, x: Item, y: Item)
    requires Precedes(Select(items, sector, signal), x, y)
    ensures Precedes(items, x, y)
  {
    var selected := Select(items, sector, signal);
    if items != [] {
      var front, last := items[..|items| - 1], items[|items| - 1];
      var inner := Select(front, sector, signal);
      assert front + [last] == items;
      PrecedesGrows(front, x, y, last);
      var p, q :| 0 <= p < q < |selected| && selected[p] == x && selected[q] == y;
      if q < |inner| {
        assert inner[p] == x && inner[q] == y;
        SelectKeepsOrder(front, sector, signal, x, y);
      } else {
        assert inner[p] == x && x in inner && y == last;
      }
    }
  }

  lemma ListIsStable(items: seq<Item>, sector: string, signal: Signal, descending: bool)
    ensures StableIn(TopFive(Rank(Select(items, sector, signal), descending)), items)
  {
    var selected := Select(items, sector, signal);
    var ranked := Rank(selected, descending);
    RankStable(selected, descending);
    forall i, j | 0 <= i < j < |TopFive(ranked)| && ranked[i].score == ranked[j].score
      ensures Precedes(items, ranked[i], ranked[j])
    {
      SelectKeepsOrder(items, sector, signal, ranked[i], ranked[j]);
    }
  }

  /** Whatever a ranked list leaves out of its first five comes after all of them. */
  lemma LeftOutTrails(ranked: seq<Item>, descending: bool, x: Item, y: Item)
    requires Ranked(ranked, descending) && x in ranked && x !in TopFive(ranked) && y in TopFive(ranked)
    ensures |TopFive(ranked)| == 5 && Leads(y, x, descending)
  {
    var listed := TopFive(ranked);
    var i :| 0 <= i < |ranked| && ranked[i] == x;
    var j :| 0 <= j < |listed| && listed[j] == y;
    assert listed == ranked || i >= 5;
  }

  /** A sector lists at most five signals of a kind, each of its own sector and kind, best first, and an item of
      that sector and kind that is left out does not beat any listed one. */
  lemma ListsAreBest(items: seq<Item>, sector: string, signal: Signal, descending: bool)
    ensures var listed := TopFive(Rank(Select(items, sector, signal), descending));
            && |listed| <= 5 && Ranked(listed, descending)
            && (forall x :: x in listed ==> x in items && x.sector == sector && x.signal == signal)
            && (forall x, y :: x in items && x.sector == sector && x.signal == signal && x !in listed && y in listed ==>
                  |listed| == 5 && Leads(y, x, descending))
  {
    var ranked := Rank(Select(items, sector, signal), descending);
    forall x | x in TopFive(ranked) ensures x in ranked {}
    forall x, y | x in ranked && x !in TopFive(ranked) && y in TopFive(ranked)
      ensures |TopFive(ranked)| == 5 && Leads(y, x, descending)
    {
      LeftOutTrails(ranked, descending, x, y);
    }
  }

  /** A list of a sector holds at most five of its items with the signal, each at most as good as the one before; an
      item that is missing means that there are five, none of which it beats; and items of equal score stand in the
      order in which they were scored. */
  ghost predicate IsBestList(listed: seq<Item>, items: seq<Item>, sector: string, signal: Signal) {
    && |listed| <= 5 && StableIn(listed, items)
    && (forall x :: x in listed ==> x in items && x.sector == sector && x.signal == signal)
    && (forall x, y :: x in items && x.sector == sector && x.signal == signal && x !in listed && y in listed ==>
          |listed| == 5 && if signal == SELL then y.score <= x.score else y.score >= x.score)
    && (listed == [] ==> forall x :: x in items && x.sector == sector ==> x.signal != signal)
    && (forall i, j :: 0 <= i < j < |listed| ==>
          if signal == SELL then listed[i].score <= listed[j].score else listed[i].score >= listed[j].score)
  }

  /** The buys of every sector have its highest scores, the sells its lowest. */
  lemma SectorLists(items: seq<Item>, names: seq<string>, k: nat)
    requires k < |names|
    ensures var s := SectorsOf(items, names)[k];
            s.name == names[k] && IsBestList(s.buys, items, names[k], BUY) && IsBestList(s.sells, items, names[k], SELL)
  {
    BestList(items, names[k], BUY, true);
    BestList(items, names[k], SELL, false);
  }

  lemma BestList(items: seq<Item>, sector: string, signal: Signal, descending: bool)
    requires descending <==> signal != SELL
    ensures IsBestList(TopFive(Rank(Select(items, sector, signal), descending)), items, sector, signal)
  {
    var selected := Select(items, sector, signal);
    var listed := TopFive(Rank(selected, descending));
    ListsAreBest(items, sector, signal, descending);
    ListIsStable(items, sector, signal, descending);
    forall i, j | 0 <= i < j < |listed| ensures Leads(listed[i], listed[j], descending) {}
    forall x | x in items && x.sector == sector && x.signal == signal ensures listed != [] {
      assert x in selected && x in Rank(selected, descending);
    }
  }

  /** The candidate list of `save_alerts`: every sector's buys, then its sells. */
  function Candidates(sectors: seq<Sector>): seq<Item> {
    if sectors == [] then []
    else Candidates(sectors[..|sectors| - 1]) + sectors[|sectors| - 1].buys + sectors[|sectors| - 1].sells
  }

  /** Candidates stand in the order of the sectors, and within a sector the buys come before the sells. */
  lemma {:induction false} CandidatesInOrder(front: seq<Sector>, s: Sector, back: seq<Sector>)
    ensures Candidates(front + [s] + back) == Candidates(front) + s.buys + s.sells + Candidates(back)
  {
    if back == [] {
      assert front + [s] + back == front + [s] && (front + [s])[..|front|] == front;
    } else {
      var n := |back| - 1;
      assert (front + [s] + back)[..|front| + 1 + n] == front + [s] + back[..n];
      CandidatesInOrder(front, s, back[..n]);
    }
  }

  ghost predicate DistinctNames(names: seq<string>) {
    forall i, j :: 0 <= i < j < |names| ==> names[i] != names[j]
  }

  lemma TopFiveDistinct(items: seq<Item>, sector: string, signal: Signal, descending: bool)
    requires DistinctSymbols(items)
    ensures DistinctSymbols(TopFive(Rank(Select(items, sector, signal), descending)))
    ensures forall x :: x in TopFive(Rank(Select(items, sector, signal), descending)) ==>
              x in items && x.sector == sector && x.signal == signal
  {
    SelectDistinct(items, sector, signal);
    RankDistinct(Select(items, sector, signal), descending);
    var ranked := Rank(Select(items, sector, signal), descending);
    forall x | x in TopFive(ranked) ensures x in ranked {}
  }

  /** When every symbol was scored once, a scan lists each symbol at most once: in one sector, on one side. */
  lemma {:induction false} EachSymbolOnce(items: seq<Item>, names: seq<string>)
    requires DistinctSymbols(items) && DistinctNames(names)
    ensures DistinctSymbols(Candidates(SectorsOf(items, names)))
    ensures forall x :: x in Candidates(SectorsOf(items, names)) ==> x in items && x.sector in names && x.signal != HOLD
  {
    if names != [] {
      var n := |names| - 1;
      var front := Candidates(SectorsOf(items, names[..n]));
      EachSymbolOnce(items, names[..n]);
      assert SectorsOf(items, names)[..n] == SectorsOf(items, names[..n]);
      var buys, sells := Buys(items, names[n]), Sells(items, names[n]);
      TopFiveDistinct(items, names[n], BUY, true);
      TopFiveDistinct(items, names[n], SELL, false);
      forall x | x in front ensures x.sector != names[n] {}
      JoinDistinct(items, front, buys);
      JoinDistinct(items, front + buys, sells);
      assert Candidates(SectorsOf(items, names)) == front + buys + sells;
    }
  }

  lemma JoinDistinct(items: seq<Item>, xs: seq<Item>, ys: seq<Item>)
    requires DistinctSymbols(items) && DistinctSymbols(xs) && DistinctSymbols(ys)
    requires forall x :: x in xs ==> x in items
    requires forall y :: y in ys ==> y in items && y !in xs
    ensures DistinctSymbols(xs + ys)
  {
    forall i, j | 0 <= i < |xs| && 0 <= j < |ys| ensures xs[i].symbol != ys[j].symbol {
      assert xs[i] in xs && ys[j] in ys;
      var p :| 0 <= p < |items| && items[p] == xs[i];
      var q :| 0 <= q < |items| && items[q] == ys[j];
      assert p != q;
    }
  }

  lemma {:induction false} CandidatesContain(sectors: seq<Sector>, k: nat)
    requires k < |sectors|
    ensures forall x :: x in sectors[k].buys || x in sectors[k].sells ==> x in Candidates(sectors)
  {
    if k < |sectors| - 1 {
      CandidatesContain(sectors[..|sectors| - 1], k);
    }
  }

  /** The list of a sector that an item with a signal competes for. */
  function SideOf(s: Sector, signal: Signal): seq<Item> { if signal == BUY then s.buys else s.sells }

  /** A scan leaves a signal out only if its sector lists five others of the kind, none of which it beats. */
  ghost predicate Outranked(sectors: seq<Sector>, x: Item) {
    exists k :: 0 <= k < |sectors| && sectors[k].name == x.sector && |SideOf(sectors[k], x.signal)| == 5
                && forall y :: y in SideOf(sectors[k], x.signal) ==> Leads(y, x, x.signal == BUY)
  }

  lemma ListedOrOutranked(items: seq<Item>, names: seq<string>, x: Item)
    requires x in items && x.sector in names && x.signal != HOLD
    ensures x in Candidates(SectorsOf(items, names)) || Outranked(SectorsOf(items, names), x)
  {
    var sectors := SectorsOf(items, names);
    var k :| 0 <= k < |names| && names[k] == x.sector;
    CandidatesContain(sectors, k);
    ListsAreBest(items, x.sector, x.signal, x.signal == BUY);
    var listed := SideOf(sectors[k], x.signal);
    assert listed == TopFive(Rank(Select(items, x.sector, x.signal), x.signal == BUY));
    if x !in listed {
      assert listed != [] by {
        assert x in Rank(Select(items, x.sector, x.signal), x.signal == BUY);
      }
      assert listed[0] in listed;
    }
  }

  // ----- the sectors in order

  /** Python's order of strings. */
  predicate Before(a: string, b: string) {
    b != [] && (a == [] || a[0] < b[0] || (a[0] == b[0] && Before(a[1..], b[1..])))
  }

  lemma {:induction false} Trichotomy(a: string, b: string)
    ensures Before(a, b) || a == b || Before(b, a)
    ensures !Before(a, a)
  {
    if a != [] {
      Trichotomy(a[1..], if b == [] then [] else b[1..]);
      assert b != [] && a[0] == b[0] && a[1..] == b[1..] ==> a == [a[0]] + a[1..] && b == [b[0]] + b[1..];
    }
  }

  lemma {:induction false} BeforeTransitive(a: string, b: string, c: string)
    requires Before(a, b) && Before(b, c)
    ensures Before(a, c)
  {
    if a != [] && a[0] == b[0] == c[0] {
      BeforeTransitive(a[1..], b[1..], c[1..]);
    }
  }

  ghost predicate Alphabetical(names: seq<string>) {
    forall i, j :: 0 <= i < j < |names| ==> Before(names[i], names[j])
  }

  function InsertName(names: seq<string>, name: string): seq<string> {
    if names == [] then [name]
    else
      var last := names[|names| - 1];
      if Before(last, name) then names + [name]
      else if last == name then names
      else InsertName(names[..|names| - 1], name) + [last]
  }

  lemma {:induction false} InsertNameFacts(names: seq<string>, name: string)
    requires Alphabetical(names)
    ensures Alphabetical(InsertName(names, name))
    ensures forall y :: y in InsertName(names, name) <==> y in names || y == name
  {
    if names != [] {
      var front, last := names[..|names| - 1], names[|names| - 1];
      assert forall y :: y in names <==> y in front || y == last;
      Trichotomy(last, name);
      if Before(last, name) {
        forall i | 0 <= i < |names| ensures Before(names[i], name) {
          if i < |names| - 1 {
            BeforeTransitive(names[i], last, name);
          }
        }
      } else if last != name {
        InsertNameFacts(front, name);
        var r := InsertName(front, name);
        forall i | 0 <= i < |r| ensures Before(r[i], last) {
          assert r[i] in r;
        }
      }
    }
  }

  datatype Listing = Listing(symbol: string, sector: string)

  /** `sorted(set(SECTOR_MAP.values()))`. */
  function SectorNames(universe: seq<Listing>): seq<string> {
    if universe == [] then [] else InsertName(SectorNames(universe[..|universe| - 1]), universe[|universe| - 1].sector)
  }

  lemma {:induction false} SectorNamesFacts(universe: seq<Listing>)
    ensures Alphabetical(SectorNames(universe))
    ensures forall y :: y in SectorNames(universe) <==> exists l :: l in universe && l.sector == y
  {
    if universe != [] {
      var front, last := universe[..|universe| - 1], universe[|universe| - 1];
      SectorNamesFacts(front);
      InsertNameFacts(SectorNames(front), last.sector);
      assert forall l :: l in universe <==> l in front || l == last;
    }
  }

  lemma AlphabeticalDistinct(names: seq<string>)
    requires Alphabetical(names)
    ensures DistinctNames(names)
  {
    forall i, j | 0 <= i < j < |names| ensures names[i] != names[j] {
      Trichotomy(names[i], names[i]);
    }
  }

  // ----- the scoring loop

  datatype Score = Score(signal: Signal, score: int)

  ghost predicate DistinctListings(universe: seq<Listing>) {
    forall i, j :: 0 <= i < j < |universe| ==> universe[i].symbol != universe[j].symbol
  }

  /** What the loop has scored so far. */
  ghost predicate ScoredFrom(scored: seq<Item>, universe: seq<Listing>, evaluations: map<string, Score>) {
    forall x :: x in scored <==> x.symbol in evaluations && Listing(x.symbol, x.sector) in universe
                                 && Score(x.signal, x.score) == evaluations[x.symbol]
  }

  /** A scan that ranks items scored once each over the sectors of a universe. */
  ghost predicate ComputedFrom(scan: Scan, universe: seq<Listing>, scored: seq<Item>) {
    DistinctSymbols(scored) && scan.sectors == SectorsOf(scored, SectorNames(universe))
  }

  ghost predicate IsComputed(scan: Scan) {
    exists universe, scored :: ComputedFrom(scan, universe, scored)
  }

  /** Such a scan lists each symbol at most once, and none that is on hold. */
  lemma ComputedDistinct(scan: Scan)
    requires IsComputed(scan)
    ensures DistinctSymbols(Candidates(scan.sectors))
    ensures forall x :: x in Candidates(scan.sectors) ==> x.signal != HOLD
  {
    var universe, scored :| ComputedFrom(scan, universe, scored);
    SectorNamesFacts(universe);
    AlphabeticalDistinct(SectorNames(universe));
    EachSymbolOnce(scored, SectorNames(universe));
  }

  lemma ScanFacts(universe: seq<Listing>, scored: seq<Item>, evaluations: map<string, Score>)
    requires ScoredFrom(scored, universe, evaluations) && DistinctSymbols(scored)
    ensures var sectors := SectorsOf(scored, SectorNames(universe));
            && DistinctSymbols(Candidates(sectors))
            && (forall x :: x in Candidates(sectors) ==> x in scored && x.signal != HOLD)
            && (forall x :: x in scored && x.signal != HOLD ==> x in Candidates(sectors) || Outranked(sectors, x))
  {
    var names := SectorNames(universe);
    SectorNamesFacts(universe);
    AlphabeticalDistinct(names);
    EachSymbolOnce(scored, names);
    forall x | x in scored && x.signal != HOLD
      ensures x in Candidates(SectorsOf(scored, names)) || Outranked(SectorsOf(scored, names), x)
    {
      assert Listing(x.symbol, x.sector) in universe;
      ListedOrOutranked(scored, names, x);
    }
  }

  /** `compute_market_scan`: scores the universe symbol by symbol, a symbol without a score fails, and ranks what was
      scored sector by sector. `evaluations` holds the strategy's outcome where it does not raise. Every scored signal
      is listed or outranked by five others. */
  method ComputeMarketScan(universe: seq<Listing>, evaluations: map<string, Score>, now: int)
    returns (scan: Scan, scored: seq<Item>, failures: seq<string>)
    requires DistinctListings(universe)
    ensures forall s :: s in failures <==> s !in evaluations && exists l :: l in universe && l.symbol == s
    ensures ScoredFrom(scored, universe, evaluations)
    ensures |scored| + |failures| == |universe|
    ensures scan == Scan(now, SectorsOf(scored, SectorNames(universe)))
    ensures ComputedFrom(scan, universe, scored)
    ensures DistinctSymbols(Candidates(scan.sectors))
    ensures forall x :: x in Candidates(scan.sectors) ==> x in scored && x.signal != HOLD
    ensures forall x :: x in scored && x.signal != HOLD ==> x in Candidates(scan.sectors) || Outranked(scan.sectors, x)
  {
    scored, failures := [], [];
    for i := 0 to |universe|
      invariant forall s :: s in failures <==> s !in evaluations && exists l :: l in universe[..i] && l.symbol == s
      invariant ScoredFrom(scored, universe[..i], evaluations)
      invariant |scored| + |failures| == i
      invariant DistinctSymbols(scored)
    {
      var listing := universe[i];
      assert universe[..i + 1] == universe[..i] + [listing];
      if listing.symbol in evaluations {
        var score := evaluations[listing.symbol];
        forall j | 0 <= j < |scored| ensures scored[j].symbol != listing.symbol {
          assert scored[j] in scored;
          assert Listing(scored[j].symbol, scored[j].sector) in universe[..i];
        }
        scored := scored + [Item(listing.symbol, listing.sector, score.signal, score.score)];
      } else {
        failures := failures + [listing.symbol];
      }
    }
    assert universe[..|universe|] == universe;
    scan := Scan(now, SectorsOf(scored, SectorNames(universe)));
    ScanFacts(universe, scored, evaluations);
  }
}
