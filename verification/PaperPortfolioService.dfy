/** The mutable portfolio and the service around it, proved against module Portfolio. */
module PaperPortfolioService {
  import opened Values
  import opened Numbers
  import opened Position
  import opened Portfolio

  ghost function Datas(positions: seq<PaperPosition>): (r: seq<PositionData>)
    reads positions
    ensures |r| == |positions| && forall i :: 0 <= i < |positions| ==> r[i] == positions[i].Data()
  {
    seq(|positions|, i requires 0 <= i < |positions| reads positions => positions[i].Data())
  }

  ghost predicate DistinctObjects(positions: seq<PaperPosition>) {
    forall i, j :: 0 <= i < j < |positions| ==> positions[i] != positions[j]
  }

  class PaperPortfolio {
    const startingEquity: real
    var cash: real
    var highWaterMark: real
    var realizedPnl: real
    var positions: seq<PaperPosition>
    var paused: bool

    ghost predicate Valid()
      reads this
    {
      DistinctObjects(positions)
    }

    ghost function State(): Book
      reads this, positions
    {
      Book(startingEquity, cash, highWaterMark, realizedPnl, paused, Datas(positions))
    }

    constructor (b: Book)
      requires b.positions == []
      ensures State() == b && Valid()
      ensures positions == []
    {
      startingEquity, cash, highWaterMark := b.startingEquity, b.cash, b.highWaterMark;
      realizedPnl, paused, positions := b.realizedPnl, b.paused, [];
    }

    method Value(prices: map<string, real>) returns (value: real)
      ensures value == MarketValue(State().positions, prices)
    {
      value := 0.0;
      for i := 0 to |positions|
        invariant value == MarketValue(Datas(positions)[..i], prices)
      {
        var p := positions[i];
        var price := if p.symbol in prices then prices[p.symbol] else p.entryPrice;
        assert Datas(positions)[..i + 1][..i] == Datas(positions)[..i];
        value := value + Units(p.remainingQuantity, price);
      }
      assert Datas(positions)[..|positions|] == Datas(positions);
    }

    method PositionDicts() returns (r: seq<PositionData>)
      ensures r == State().positions
    {
      r := [];
      for i := 0 to |positions|
        invariant r == Datas(positions)[..i]
      {
        var p := positions[i].AsDict();
        r := r + [p];
      }
    }

    method Summarize(prices: map<string, real>) returns (s: Summary)
      modifies this`highWaterMark, this`paused
      ensures State() == Marked(old(State()), prices) && s == SummaryOf(old(State()), prices)
    {
      ghost var before := State();
      var marketValue := Value(prices);
      var equity := cash + marketValue;
      highWaterMark := Max(highWaterMark, equity);
      var drawdown := DrawdownPct(highWaterMark, equity);
      if drawdown >= 10.0 {
        paused := true;
      }
      var held := PositionDicts();
      s := SummaryFrom(equity, cash, marketValue, highWaterMark, drawdown, paused, held);
    }

    method Lookup(symbol: string) returns (found: Option<nat>)
      ensures found == Find(State().positions, symbol)
    {
      var i := |positions|;
      assert Datas(positions)[..i] == Datas(positions);
      while i > 0
        invariant 0 <= i <= |positions|
        invariant Find(Datas(positions), symbol) == Find(Datas(positions)[..i], symbol)
      {
        assert Datas(positions)[..i][..i - 1] == Datas(positions)[..i - 1];
        if positions[i - 1].symbol == symbol {
          return Some(i - 1);
        }
        i := i - 1;
      }
      found := None;
    }

    /** `positions[position.symbol] = position`. */
    method PutPosition(p: PositionData)
      requires Valid()
      modifies this`positions
      ensures Valid() && State() == old(State()).(positions := Put(old(State()).positions, p))
    {
      ghost var before := Datas(positions);
      var found := Lookup(p.symbol);
      var position := new PaperPosition(p);
      if found.Some? {
        positions := positions[found.value := position];
        assert Datas(positions) == before[found.value := p];
      } else {
        positions := positions + [position];
        assert Datas(positions) == before + [p];
      }
    }

    /** The restoring loop. */
    method PutPositions(raw: seq<PositionData>)
      requires Valid() && positions == []
      modifies this`positions
      ensures Valid() && State() == old(State()).(positions := PutAll(raw))
    {
      for i := 0 to |raw|
        invariant Valid() && State() == old(State()).(positions := PutAll(raw[..i]))
      {
        assert raw[..i + 1][..i] == raw[..i];
        PutPosition(raw[i]);
      }
      assert raw[..|raw|] == raw;
    }

    method Buy(o: Order, quantity: int)
      requires Valid()
      modifies this`cash, this`positions
      ensures Valid() && State() == Bought(old(State()), o, quantity)
    {
      ghost var before := Datas(positions);
      var position := new PaperPosition(NewPosition(o, quantity));
      cash := cash - Units(quantity, o.entry);
      positions := positions + [position];
      assert Datas(positions) == before + [NewPosition(o, quantity)];
    }

    method Reduce(i: nat, units: int, price: real)
      requires Valid() && i < |positions|
      modifies positions[i]
      ensures units == old(positions[i].remainingQuantity) ==>
                Datas(positions) == old(Datas(positions))[i := positions[i].Data()]
      ensures units != old(positions[i].remainingQuantity) ==>
                Datas(positions) == old(Datas(positions))[i := Sold(old(positions[i].Data()), units, price)]
    {
      positions[i].Reduce(units, price);
      assert Datas(positions) == old(Datas(positions))[i := positions[i].Data()];
    }

    method Remove(i: nat)
      requires Valid() && i < |positions|
      modifies this`positions
      ensures Valid() && Datas(positions) == old(Datas(positions))[..i] + old(Datas(positions))[i + 1..]
    {
      positions := positions[..i] + positions[i + 1..];
    }

    /** Sells part of a position, or all of it, in which case the position leaves the dictionary. */
    method Sell(i: nat, units: int, price: real)
      requires Valid() && i < |positions|
      modifies this`cash, this`realizedPnl, this`positions, positions[i]
      ensures Valid() && State() == SoldBook(old(State()), i, units, price)
    {
      var position := positions[i];
      var soldOut := units == position.remainingQuantity;
      cash := cash + Units(units, price);
      realizedPnl := realizedPnl + Units(units, price - position.entryPrice);
      Reduce(i, units, price);
      if soldOut {
        Remove(i);
      }
    }
  }

  /** The service and the latest snapshot in its repository. */
  class Service {
    const portfolio: PaperPortfolio
    var stored: Option<Snapshot>

    ghost predicate Valid()
      reads this, portfolio
    {
      portfolio.Valid()
    }

    ghost function State(): Book
      reads this, portfolio, portfolio.positions
    {
      portfolio.State()
    }

    ghost function Now(): Account
      reads this, portfolio, portfolio.positions
    {
      Account(State(), stored)
    }

    /** A new account, or the one rebuilt from the stored snapshot. */
    constructor (latest: Option<Snapshot>, startingEquity: real)
      ensures Valid() && fresh(portfolio)
      ensures Now() == Started(latest, startingEquity)
    {
      var b := if latest.Some?
               then Book(latest.value.startingEquity, latest.value.cash, latest.value.highWaterMark,
                         latest.value.realizedPnl, latest.value.paused, [])
               else Fresh(startingEquity);
      portfolio := new PaperPortfolio(b);
      stored := latest;
      new;
      if latest.Some? {
        portfolio.PutPositions(latest.value.positions);
      }
    }

    /** `_snapshot`. */
    method TakeSnapshot() returns (r: Snapshot, s: Summary)
      requires Valid()
      modifies this`stored, portfolio`highWaterMark, portfolio`paused
      ensures Valid() && r == SnapshotOf(old(State())) && s == SummaryOf(old(State()), map[])
      ensures Now() == Account(Marked(old(State()), map[]), Some(r))
    {
      s := portfolio.Summarize(map[]);
      r := Snapshot(portfolio.startingEquity, portfolio.cash, portfolio.highWaterMark, portfolio.realizedPnl,
                    portfolio.paused, s.positions);
      stored := Some(r);
    }

    /** `_snapshot` at the end of a command. */
    method Finish(decision: Option<Decision>) returns (reply: Portfolio.Reply)
      requires Valid()
      modifies this`stored, portfolio`highWaterMark, portfolio`paused
      ensures Valid() && reply == Answered(Marked(old(State()), map[]), None, decision)
      ensures Now() == Account(Marked(old(State()), map[]), Some(Capture(Marked(old(State()), map[]))))
    {
      SummaryStays(State());
      var r, s := TakeSnapshot();
      reply := Reported(r, s, decision);
    }

    method GetReport(prices: map<string, real>) returns (reply: Portfolio.Reply)
      requires Valid()
      modifies this`stored, portfolio`highWaterMark, portfolio`paused
      ensures Valid() && Now() == Serve(old(Now()), Report(prices)) && reply == ReplyTo(old(State()), Report(prices))
    {
      var r, s := TakeSnapshot();
      if prices != map[] {
        s := portfolio.Summarize(prices);
      }
      reply := Reported(r, s, None);
    }

    method OpenPosition(o: Order) returns (reply: Portfolio.Reply)
      requires Valid()
      modifies this`stored, portfolio
      ensures Valid() && Now() == Serve(old(Now()), Command.OpenPosition(o))
      ensures reply == ReplyTo(old(State()), Command.OpenPosition(o))
    {
      var found := portfolio.Lookup(o.symbol);
      if found.Some? {
        return Refused(AlreadyHeld);
      }
      var s := portfolio.Summarize(map[]);
      var held := portfolio.PositionDicts();
      var book := Book(portfolio.startingEquity, portfolio.cash, portfolio.highWaterMark, portfolio.realizedPnl,
                       portfolio.paused, held);
      var admitted := Admit(book, s, o);
      if admitted.Err? {
        return Refused(admitted.error);
      }
      portfolio.Buy(o, admitted.value);
      reply := Finish(None);
    }

    method Exit(symbol: string, price: real, quantity: Option<int>) returns (reply: Portfolio.Reply)
      requires Valid()
      modifies this`stored, portfolio, portfolio.positions
      ensures Valid() && Now() == Serve(old(Now()), Command.Exit(symbol, price, quantity))
      ensures reply == ReplyTo(old(State()), Command.Exit(symbol, price, quantity))
    {
      var found := portfolio.Lookup(symbol);
      if found.None? {
        return Refused(UnknownPosition);
      }
      var available := portfolio.positions[found.value].remainingQuantity;
      var units := if quantity.None? then available else quantity.value;
      if units <= 0 || units > available {
        return Refused(BadExitQuantity);
      }
      portfolio.Sell(found.value, units, price);
      reply := Finish(None);
    }

    method EvaluatePosition(symbol: string, s: Session) returns (reply: Portfolio.Reply)
      requires Valid()
      modifies this`stored, portfolio, portfolio.positions
      ensures Valid() && Now() == Serve(old(Now()), Command.Evaluate(symbol, s))
      ensures reply == ReplyTo(old(State()), Command.Evaluate(symbol, s))
    {
      ghost var before := State();
      var found := portfolio.Lookup(symbol);
      if found.None? {
        return Refused(UnknownPosition);
      }
      var decision := portfolio.positions[found.value].EvaluateClose(s);
      assert Datas(portfolio.positions) == before.positions[found.value := Evaluated(before.positions[found.value], s)];
      reply := Finish(Some(decision));
    }

    method ResumeAtMonthReview() returns (reply: Portfolio.Reply)
      requires Valid()
      modifies this`stored, portfolio`highWaterMark, portfolio`paused
      ensures Valid() && Now() == Serve(old(Now()), MonthReview) && reply == ReplyTo(old(State()), MonthReview)
    {
      portfolio.paused := false;
      reply := Finish(None);
    }
  }
}
