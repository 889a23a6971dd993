/** The order book of one symbol (internal/limitbook/orderbook.go): two sides, matching, spread. */
module OrderBooks {
  import opened Types
  import opened Greedy
  import opened PriceHeaps
  import opened BookView
  import opened BookSides

  /** What matching needs to know of the incoming order. A price binds limit orders only. */
  function TakerOf(symbol: Symbol, o: Order): Taker {
    Taker(o.user, symbol, o.side, if o.typ.Limit? then o.price else None)
  }

  /** The incoming order after a walk that left `left` of it, with the status MatchOrder gives it. */
  function Matched(o: Order, left: int): Order {
    var f := o.qty - left;
    o.(filled := f, status := if f == o.qty then Filled else if f > 0 then PartiallyFilled else o.status)
  }

  /** A whole book as two lists, best price first, then arrival. */
  datatype Book = Book(bids: seq<Resting>, asks: seq<Resting>)
  {
    function On(side: Side): seq<Resting> { if side.Buy? then bids else asks }
    function With(side: Side, s: seq<Resting>): Book {
      if side.Buy? then Book(s, asks) else Book(bids, s)
    }
  }

  /** No bid reaches an ask. */
  ghost predicate Uncrossed(bids: seq<Resting>, asks: seq<Resting>) {
    bids == [] || asks == [] || bids[0].price < asks[0].price
  }

  function WalkOf(symbol: Symbol, b: Book, o: Order): Outcome {
    Walk(TakerOf(symbol, o), o.Remaining(), b.On(Opposite(o.side)))
  }

  /** A market order takes all it wants or all there is on the other side, whatever the prices, and even if it
      names one. */
  lemma MarketOrderTakesAll(symbol: Symbol, b: Book, o: Order)
    requires o.typ.Market? && o.Remaining() >= 0 && Live(b.bids) && Live(b.asks)
    ensures Traded(WalkOf(symbol, b, o).trades) == Min(o.Remaining(), OpenQty(if o.side.Buy? then b.asks else b.bids))
  {
    NoLimitTakesAll(TakerOf(symbol, o), o.Remaining(), b.On(Opposite(o.side)));
  }

  /** A limit order trades at its price or better, and while it wants more it leaves nothing there to trade with. */
  lemma LimitOrderStops(symbol: Symbol, b: Book, o: Order)
    requires o.typ.Limit? && o.price.Some? && o.Remaining() >= 0
    requires Live(b.bids) && Live(b.asks) && PriceSorted(Buy, b.bids) && PriceSorted(Sell, b.asks)
    ensures var walk, limit := WalkOf(symbol, b, o), o.price.value;
      && (o.side.Buy? ==>
          && (forall i :: 0 <= i < |walk.trades| ==> walk.trades[i].price <= limit)
          && (walk.left > 0 ==> forall i :: 0 <= i < |walk.book| ==> walk.book[i].price > limit))
      && (o.side.Sell? ==>
          && (forall i :: 0 <= i < |walk.trades| ==> walk.trades[i].price >= limit)
          && (walk.left > 0 ==> forall i :: 0 <= i < |walk.book| ==> walk.book[i].price < limit))
  {
    LimitStops(TakerOf(symbol, o), o.Remaining(), b.On(Opposite(o.side)));
  }

  /** The book without order `id`; bids are searched first. */
  function Removed(b: Book, id: Id): Book {
    if Lists(b.bids, id) then b.(bids := Without(b.bids, id)) else b.(asks := Without(b.asks, id))
  }

  /** Removing takes out every order with that id on the side where it is found, bids first, and nothing else. */
  lemma RemovedIs(b: Book, id: Id)
    ensures (exists o :: o in b.bids && o.id == id) ==>
      Removed(b, id).asks == b.asks && forall o :: o in Removed(b, id).bids <==> o in b.bids && o.id != id
    ensures (forall o :: o in b.bids ==> o.id != id) ==>
      Removed(b, id).bids == b.bids && forall o :: o in Removed(b, id).asks <==> o in b.asks && o.id != id
  {
    forall o ensures o in Without(b.bids, id) <==> o in b.bids && o.id != id { WithoutMembers(b.bids, id, o); }
    forall o ensures o in Without(b.asks, id) <==> o in b.asks && o.id != id { WithoutMembers(b.asks, id, o); }
  }

  class OrderBook {
    const symbol: Symbol
    const bids: BookSide
    const asks: BookSide

    ghost var content: Book
    ghost var Repr: set<object>

    ghost predicate Valid()
      reads this, Repr
    {
      && this in Repr && bids in Repr && asks in Repr && bids.Repr <= Repr && asks.Repr <= Repr
      && bids.side == Buy && asks.side == Sell && bids.Repr !! asks.Repr && this !in bids.Repr + asks.Repr
      && (forall s {:trigger s.Valid()} :: s in {bids, asks} ==> s.Valid() && s.View() == content.On(s.side))
    }

    constructor (symbol: Symbol)
      ensures Valid() && this.symbol == symbol && fresh(Repr)
      ensures content == Book([], [])
    {
      var b := new BookSide(Buy);
      var a := new BookSide(Sell);
      assert b.Valid() && b.View() == [] && b.Repr !! a.Repr;
      ghost var all := b.Repr + a.Repr;
      assert fresh(all);
      this.symbol, bids, asks := symbol, b, a;
      Repr := {this} + all;
      new;
      assert Sides();
      Reread();
    }

    /** Two proper sides that share nothing. */
    ghost predicate Sides()
      reads this, bids, bids.Repr, asks, asks.Repr
    {
      && bids.side == Buy && asks.side == Sell && bids.Repr !! asks.Repr && this !in bids.Repr + asks.Repr
      && bids.Valid() && asks.Valid()
    }

    /** What happens elsewhere does not matter to the book. */
    twostate lemma Undisturbed()
      requires old(Valid()) && unchanged(old(Repr))
      ensures Valid() && content == old(content) && Repr == old(Repr)
    {
    }

    /** Take note of what the sides hold. */
    ghost method Reread()
      requires Sides() && this in Repr && bids.Repr <= Repr && asks.Repr <= Repr
      modifies this`content
      ensures Valid() && content == Book(bids.View(), asks.View())
    {
      content := Book(bids.View(), asks.View());
    }

    /** The same when a side may have new levels. */
    ghost method Refresh()
      requires Sides() && this in Repr
      modifies this`Repr, this`content
      ensures Valid() && Repr == old(Repr) + bids.Repr + asks.Repr
      ensures content == Book(bids.View(), asks.View())
    {
      Repr := Repr + bids.Repr + asks.Repr;
      Reread();
    }

    method AddBid(order: Order)
      requires Valid()
      requires order.price.Some? && order.side.Buy? && Live([order.AsResting()])
      requires forall o :: o in content.bids ==> o.id != order.id
      modifies Repr
      ensures Valid() && fresh(Repr - old(Repr))
      ensures content == old(content).(bids := Insert(Buy, old(content).bids, order.AsResting()))
    {
      assert Sides();
      bids.AddOrder(order);
      assert asks.Valid() && asks.View() == content.asks;
      Refresh();
    }

    method AddAsk(order: Order)
      requires Valid()
      requires order.price.Some? && order.side.Sell? && Live([order.AsResting()])
      requires forall o :: o in content.asks ==> o.id != order.id
      modifies Repr
      ensures Valid() && fresh(Repr - old(Repr))
      ensures content == old(content).(asks := Insert(Sell, old(content).asks, order.AsResting()))
    {
      assert Sides();
      asks.AddOrder(order);
      assert bids.Valid() && bids.View() == content.bids;
      Refresh();
    }

    method AddOrder(order: Order)
      requires Valid()
      requires order.price.Some? && Live([order.AsResting()])
      requires forall o :: o in content.On(order.side) ==> o.id != order.id
      modifies Repr
      ensures Valid() && fresh(Repr - old(Repr))
      ensures content == old(content).With(order.side,
        Insert(order.side, old(content).On(order.side), order.AsResting()))
    {
      if order.side.Buy? { AddBid(order); } else { AddAsk(order); }
    }

    method RemoveBid(id: Id) returns (found: bool)
      requires Valid()
      modifies Repr
      ensures Valid() && Repr == old(Repr)
      ensures found <==> Lists(old(content).bids, id)
      ensures content == old(content).(bids := Without(old(content).bids, id)) && (found || content == old(content))
    {
      assert Sides();
      ghost var was := content;
      found := bids.RemoveOrder(id);
      assert bids.View() == Without(was.bids, id);
      assert asks.Valid() && asks.View() == content.asks;
      Reread();
    }

    method RemoveAsk(id: Id) returns (found: bool)
      requires Valid()
      modifies Repr
      ensures Valid() && Repr == old(Repr)
      ensures found <==> Lists(old(content).asks, id)
      ensures content == old(content).(asks := Without(old(content).asks, id))
    {
      assert Sides();
      ghost var was := content;
      found := asks.RemoveOrder(id);
      assert asks.View() == Without(was.asks, id);
      assert bids.Valid() && bids.View() == content.bids;
      Reread();
    }

    method RemoveOrder(id: Id) returns (found: bool)
      requires Valid()
      modifies Repr
      ensures Valid() && Repr == old(Repr)
      ensures found <==> Lists(old(content).bids, id) || Lists(old(content).asks, id)
      ensures content == Removed(old(content), id)
    {
      found := RemoveBid(id);
      if !found { found := RemoveAsk(id); }
    }

    method GetSpread() returns (spread: Option<int>)
      requires Valid()
      ensures spread.None? <==> content.bids == [] || content.asks == []
      ensures spread.Some? ==> spread.value == content.asks[0].price - content.bids[0].price
      ensures spread.Some? ==> (spread.value > 0 <==> Uncrossed(content.bids, content.asks))
    {
      assert Sides();
      var bid := bids.GetBestPrice();
      var ask := asks.GetBestPrice();
      if bid.None? || ask.None? { return None; }
      spread := Some(ask.value - bid.value);
    }

    /** Match an incoming order against the opposite side: exactly the greedy walk over its list. */
    method MatchOrder(order: Order) returns (trades: seq<Trade>, matched: Order)
      requires Valid()
      modifies Repr
      ensures Valid() && Repr == old(Repr)
      ensures var walk := WalkOf(symbol, old(content), order);
        && trades == walk.trades
        && matched == Matched(order, walk.left)
        && content == old(content).With(Opposite(order.side), walk.book)
    {
      assert Sides();
      var left;
      if order.side.Buy? {
        trades, left := MatchSide(asks, order);
        assert bids.Valid() && bids.View() == content.bids;
      } else {
        trades, left := MatchSide(bids, order);
        assert asks.Valid() && asks.View() == content.asks;
      }
      Reread();
      matched := Matched(order, left);
    }

    /** The outer loop of MatchOrder, which visits best levels. */
    method MatchSide(side: BookSide, order: Order) returns (trades: seq<Trade>, left: int)
      requires side.Valid() && side.side == Opposite(order.side)
      modifies side.Repr
      ensures side.Valid() && side.Repr == old(side.Repr)
      ensures Walk(TakerOf(symbol, order), order.Remaining(), old(side.View())) == Outcome(trades, side.View(), left)
    {
      var t := TakerOf(symbol, order);
      left := order.Remaining();
      trades := [];
      var stop := left <= 0;
      ghost var walk := Walk(t, left, side.View());
      RestStart(t, left, side.View());
      while !stop
        invariant side.Valid() && side.Repr == old(side.Repr) && side.side == Opposite(t.side)
        invariant Rest(t, left, side.View(), trades, walk)
        invariant stop ==> Ends(t, left, side.View())
        invariant left <= 0 ==> stop
        decreases if stop then 0 else 1 + |side.snap.Keys|
      {
        trades, left, stop := MatchBest(side, t, left, trades, walk);
      }
      RestDone(t, left, side.View(), trades, walk);
    }

    /** Match against the best level, if there is one at an acceptable price. */
    method MatchBest(side: BookSide, t: Taker, left0: int, trades0: seq<Trade>, ghost walk: Outcome)
      returns (trades: seq<Trade>, left: int, stop: bool)
      requires side.Valid() && side.side == Opposite(t.side) && left0 > 0
      requires Rest(t, left0, side.View(), trades0, walk)
      modifies side.Repr
      ensures side.Valid() && side.Repr == old(side.Repr)
      ensures Rest(t, left, side.View(), trades, walk)
      ensures stop ==> Ends(t, left, side.View())
      ensures left <= 0 ==> stop
      ensures !stop ==> |side.snap.Keys| < |old(side.snap.Keys)|
    {
      var level := side.GetBestLevel();
      if level == null || !Accepts(t.side, t.limit, level.price) {
        StopsHere(side, level, t, left0);
        return trades0, left0, true;
      }
      ghost var before := side.snap.Keys;
      trades, left := MatchLevel(side, level, t, left0, trades0, walk);
      if left > 0 { Fewer(side.snap.Keys, before); }
      stop := left <= 0;
    }

    /** The inner loop of MatchOrder and the removal of a level it empties. */
    method MatchLevel(side: BookSide, level: PriceLevel, t: Taker, left0: int, trades0: seq<Trade>, ghost walk: Outcome)
      returns (trades: seq<Trade>, left: int)
      requires side.Valid() && left0 > 0 && Accepts(t.side, t.limit, level.price)
      requires level.price in side.levels && side.levels[level.price] == level
      requires IsBest(side.side, side.snap.Keys, level.price)
      requires Rest(t, left0, side.View(), trades0, walk)
      modifies side.Repr
      ensures side.Valid() && side.Repr == old(side.Repr)
      ensures Rest(t, left, side.View(), trades, walk)
      ensures left > 0 ==> side.snap.Keys < old(side.snap.Keys)
    {
      ghost var before := side.snap;
      trades, left := DrainLevel(side, level, t, left0, trades0, walk);
      FullAfter(before, side.snap, level.price);
      if |level.orders| == 0 { side.DropLevel(level); }
    }

    /** The inner loop, which consumes the front of the best level's queue. (The source ranges over the
        queue while deleting from it.) */
    method DrainLevel(side: BookSide, level: PriceLevel, t: Taker, left0: int, trades0: seq<Trade>, ghost walk: Outcome)
      returns (trades: seq<Trade>, left: int)
      requires side.Core() && left0 > 0 && Accepts(t.side, t.limit, level.price)
      requires level.price in side.levels && side.levels[level.price] == level
      requires IsBest(side.side, side.snap.Keys, level.price)
      requires Rest(t, left0, side.View(), trades0, walk)
      modifies side`snap, level`orders
      ensures side.Core() && Rest(t, left, side.View(), trades, walk)
      ensures OnlyLevel(old(side.snap), side.snap, level.price)
      ensures left > 0 ==> level.orders == []
    {
      trades, left := trades0, left0;
      while left > 0 && |level.orders| > 0
        invariant side.Core() && OnlyLevel(old(side.snap), side.snap, level.price)
        invariant Rest(t, left, side.View(), trades, walk)
        decreases |level.orders|, left > 0
      {
        trades, left := MatchFront(side, level, t, left, trades, walk);
      }
    }

    method MatchFront(side: BookSide, level: PriceLevel, t: Taker, left0: int, trades0: seq<Trade>, ghost walk: Outcome)
      returns (trades: seq<Trade>, left: int)
      requires side.Core() && left0 > 0 && Accepts(t.side, t.limit, level.price)
      requires level.price in side.levels && side.levels[level.price] == level
      requires IsBest(side.side, side.snap.Keys, level.price)
      requires level.orders != []
      requires Rest(t, left0, side.View(), trades0, walk)
      modifies side`snap, level`orders
      ensures side.Core() && Rest(t, left, side.View(), trades, walk)
      ensures side.snap == old(side.snap)[level.price := level.orders]
      ensures if left == 0 then |level.orders| <= |old(level.orders)| else level.orders == old(level.orders)[1..]
    {
      var maker := level.orders[0];
      var q := Min(left0, maker.Remaining());
      FrontStep(side.side, side.snap, level.price, t, left0, trades0, walk);
      trades := trades0 + [TradeWith(t, maker, q)];
      left := left0 - q;
      side.SetQueue(level, FrontFilled(level.orders, q));
    }

    lemma StopsHere(side: BookSide, level: PriceLevel?, t: Taker, left: int)
      requires side.Valid()
      requires level == null <==> side.snap.Keys == {}
      requires level != null ==> level.price in side.levels && IsBest(side.side, side.levels.Keys, level.price)
      requires level == null || !Accepts(t.side, t.limit, level.price)
      ensures Ends(t, left, side.View())
    {
      if level != null {
        FlattenAtBest(side.side, side.snap, level.price, []);
        assert side.View()[0] == side.snap[level.price][0];
      }
    }
  }

  /** The trades so far and the walk still to go make up the whole walk. */
  ghost predicate Rest(t: Taker, left: int, book: seq<Resting>, trades: seq<Trade>, walk: Outcome) {
    && trades + Walk(t, left, book).trades == walk.trades
    && Walk(t, left, book).book == walk.book
    && Walk(t, left, book).left == walk.left
  }

  lemma Fewer(a: set<int>, b: set<int>)
    requires a < b
    ensures |a| < |b|
  {
    assert b == a + (b - a);
  }

  /** Only this level's queue differs. */
  ghost predicate OnlyLevel(m: Levels, m': Levels, p: int) {
    m'.Keys == m.Keys && forall q :: q in m && q != p ==> m'[q] == m[q]
  }

  lemma FullAfter(m: Levels, m': Levels, p: int)
    requires Full(m) && OnlyLevel(m, m', p) && p in m
    ensures Full(m' - {p}) && (m' - {p}).Keys < m.Keys
    ensures m'[p] != [] ==> Full(m')
  {
  }

  /** One fill at the front of the best level is one step of the walk. */
  lemma FrontStep(side: Side, m: Levels, p: int, t: Taker, left: int, trades: seq<Trade>, walk: Outcome)
    requires Listed(side, m) && IsBest(side, m.Keys, p) && m[p] != [] && left > 0 && Accepts(t.side, t.limit, p)
    requires Rest(t, left, Flatten(side, m), trades, walk)
    ensures 0 < m[p][0].Remaining()
    ensures var q := Min(left, m[p][0].Remaining()); var m' := m[p := FrontFilled(m[p], q)];
      && Listed(side, m') && Rest(t, left - q, Flatten(side, m'), trades + [TradeWith(t, m[p][0], q)], walk)
  {
    FlattenAtBest(side, m, p, []);
    assert Flatten(side, m)[0] == m[p][0] && m[p][0].price == p;
    FillFrontOk(side, m, p, Min(left, m[p][0].Remaining()));
    WalkOne(t, left, Flatten(side, m), trades, walk);
  }

  /** The walk is over. */
  ghost predicate Ends(t: Taker, left: int, book: seq<Resting>) { Walk(t, left, book) == Outcome([], book, left) }

  lemma RestStart(t: Taker, left: int, book: seq<Resting>)
    ensures Rest(t, left, book, [], Walk(t, left, book))
    ensures left <= 0 ==> Ends(t, left, book)
  {
  }

  lemma RestDone(t: Taker, left: int, book: seq<Resting>, trades: seq<Trade>, walk: Outcome)
    requires Rest(t, left, book, trades, walk) && Ends(t, left, book)
    ensures walk == Outcome(trades, book, left)
  {
  }

  lemma WalkOne(t: Taker, left: int, book: seq<Resting>, trades: seq<Trade>, walk: Outcome)
    requires left > 0 && book != [] && Live(book) && Accepts(t.side, t.limit, book[0].price)
    requires Rest(t, left, book, trades, walk)
    ensures var q := Min(left, book[0].Remaining());
      Rest(t, left - q, FrontFilled(book, q), trades + [TradeWith(t, book[0], q)], walk)
  {
    var q := Min(left, book[0].Remaining());
    var next := Walk(t, left - q, FrontFilled(book, q));
    assert Walk(t, left, book).trades == [TradeWith(t, book[0], q)] + next.trades;
    assert trades + [TradeWith(t, book[0], q)] + next.trades == trades + ([TradeWith(t, book[0], q)] + next.trades);
  }
}
