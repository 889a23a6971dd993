/** The reference matcher: one greedy walk over the opposite side of the book, given as a single
    list sorted by best price, then arrival. The heap, map and queues of OrderBook.dfy refine it. */
module Greedy {
  import opened Types

  /** `p` is a strictly better price than `q` on this side of the book. */
  predicate Better(side: Side, p: int, q: int) {
    if side.Buy? then p > q else p < q
  }

  /** A taker on `side` with this limit accepts price `p`; a market order accepts any. */
  predicate Accepts(side: Side, limit: Option<int>, p: int) {
    limit.None? || (if side.Buy? then p <= limit.value else p >= limit.value)
  }

  datatype Taker = Taker(user: Id, symbol: Symbol, side: Side, limit: Option<int>)
  datatype Outcome = Outcome(trades: seq<Trade>, book: seq<Resting>, left: int)

  /** Open orders: something is left of each, and the status says how much of it is gone. */
  ghost predicate Live(book: seq<Resting>) {
    forall i :: 0 <= i < |book| ==>
      0 <= book[i].filled < book[i].qty && book[i].status == StatusOf(book[i].qty, book[i].filled)
  }

  ghost predicate UniqueIds(book: seq<Resting>) {
    forall i, j :: 0 <= i < j < |book| ==> book[i].id != book[j].id
  }

  /** Sorted by price alone, best first. */
  ghost predicate PriceSorted(side: Side, book: seq<Resting>) {
    forall i, j :: 0 <= i < j < |book| ==> !Better(side, book[j].price, book[i].price)
  }

  function TradeWith(t: Taker, m: Resting, q: int): Trade {
    Trade(t.symbol, t.side, m.price, q, t.user, m.user, m.id)
  }

  function Fill(m: Resting, q: int): Resting {
    m.(filled := m.filled + q, status := if m.filled + q == m.qty then Filled else PartiallyFilled)
  }

  function Walk(t: Taker, r: int, book: seq<Resting>): Outcome
    decreases |book|
  {
    if r <= 0 || book == [] || !Accepts(t.side, t.limit, book[0].price) then Outcome([], book, r)
    else
      var m := book[0];
      var q := Min(r, m.Remaining());
      if q == m.Remaining() then
        var rest := Walk(t, r - q, book[1..]);
        Outcome([TradeWith(t, m, q)] + rest.trades, rest.book, rest.left)
      else
        Outcome([TradeWith(t, m, q)], [Fill(m, q)] + book[1..], r - q)
  }

  // ---------------------------------------------------------------- totals

  function Traded(trades: seq<Trade>): int {
    if trades == [] then 0 else trades[0].qty + Traded(trades[1..])
  }

  function OpenQty(book: seq<Resting>): int {
    if book == [] then 0 else book[0].Remaining() + OpenQty(book[1..])
  }

  /** Total open quantity at prices the taker accepts, wherever it is in the list. */
  function AcceptableQty(t: Taker, book: seq<Resting>): int {
    if book == [] then 0
    else (if Accepts(t.side, t.limit, book[0].price) then book[0].Remaining() else 0) + AcceptableQty(t, book[1..])
  }

  function Sum(s: seq<int>): int { if s == [] then 0 else s[0] + Sum(s[1..]) }

  /** Quantity the trades take from resting order `id`. */
  function FilledBy(trades: seq<Trade>, id: Id): int {
    if trades == [] then 0
    else (if trades[0].makerOrder == id then trades[0].qty else 0) + FilledBy(trades[1..], id)
  }

  lemma {:induction false} NothingAcceptable(t: Taker, book: seq<Resting>)
    requires forall i :: 0 <= i < |book| ==> !Accepts(t.side, t.limit, book[i].price)
    ensures AcceptableQty(t, book) == 0
  {
    if book != [] { NothingAcceptable(t, book[1..]); }
  }

  lemma {:induction false} AcceptableNonNegative(t: Taker, book: seq<Resting>)
    requires Live(book)
    ensures AcceptableQty(t, book) >= 0
  {
    if book != [] { AcceptableNonNegative(t, book[1..]); }
  }

  lemma HeadDecides(t: Taker, book: seq<Resting>)
    requires PriceSorted(Opposite(t.side), book) && book != []
    requires !Accepts(t.side, t.limit, book[0].price)
    ensures forall i :: 0 <= i < |book| ==> !Accepts(t.side, t.limit, book[i].price)
  {
    forall i | 0 <= i < |book| ensures !Accepts(t.side, t.limit, book[i].price) {
      if i > 0 { assert !Better(Opposite(t.side), book[i].price, book[0].price); }
    }
  }

  lemma NothingOnOffer(t: Taker, book: seq<Resting>)
    requires PriceSorted(Opposite(t.side), book) && book != []
    requires !Accepts(t.side, t.limit, book[0].price)
    ensures AcceptableQty(t, book) == 0
  {
    HeadDecides(t, book);
    NothingAcceptable(t, book);
  }

  lemma TailSorted(side: Side, book: seq<Resting>)
    requires Live(book) && PriceSorted(side, book) && book != []
    ensures Live(book[1..]) && PriceSorted(side, book[1..])
  {
  }

  lemma TailUnique(book: seq<Resting>)
    requires UniqueIds(book) && book != []
    ensures UniqueIds(book[1..])
  {
  }

  /** What the walk does after its first trade. */
  function AfterFirst(t: Taker, r: int, book: seq<Resting>): Outcome
    requires book != []
  {
    if r >= book[0].Remaining() then Walk(t, r - book[0].Remaining(), book[1..]) else Outcome([], book[1..], 0)
  }

  lemma WalkThrough(t: Taker, r: int, book: seq<Resting>)
    requires r > 0 && book != [] && Accepts(t.side, t.limit, book[0].price) && r >= book[0].Remaining()
    ensures var rest := Walk(t, r - book[0].Remaining(), book[1..]);
      Walk(t, r, book) == Outcome([TradeWith(t, book[0], book[0].Remaining())] + rest.trades, rest.book, rest.left)
  {
  }

  lemma WalkEnds(t: Taker, r: int, book: seq<Resting>)
    requires r > 0 && book != [] && Accepts(t.side, t.limit, book[0].price) && r < book[0].Remaining()
    ensures Walk(t, r, book) == Outcome([TradeWith(t, book[0], r)] + [], [Fill(book[0], r)] + book[1..], 0)
  {
    assert [TradeWith(t, book[0], r)] + [] == [TradeWith(t, book[0], r)];
  }

  /** A walk is its first trade and what follows. */
  lemma WalkFirst(t: Taker, r: int, book: seq<Resting>)
    requires r > 0 && book != [] && Accepts(t.side, t.limit, book[0].price)
    ensures var m, q, o, next := book[0], Min(r, book[0].Remaining()), Walk(t, r, book), AfterFirst(t, r, book);
      && o.trades == [TradeWith(t, m, q)] + next.trades && o.left == next.left
      && o.book == if q == m.Remaining() then next.book else [Fill(m, q)] + next.book
  {
    if r >= book[0].Remaining() { WalkThrough(t, r, book); } else { WalkEnds(t, r, book); }
  }

  lemma TotalsCons(x: Trade, trades: seq<Trade>, m: Resting, book: seq<Resting>)
    ensures Traded([x] + trades) == x.qty + Traded(trades)
    ensures OpenQty([m] + book) == m.Remaining() + OpenQty(book)
  {
    assert ([x] + trades)[1..] == trades && ([m] + book)[1..] == book;
  }

  /** What a walk's first trade adds to each total. */
  lemma WalkAdds(t: Taker, r: int, book: seq<Resting>)
    requires r > 0 && Live(book) && book != [] && Accepts(t.side, t.limit, book[0].price)
    ensures var q, o, next := Min(r, book[0].Remaining()), Walk(t, r, book), AfterFirst(t, r, book);
      && o.trades == [TradeWith(t, book[0], q)] + next.trades && o.left == next.left
      && Traded(o.trades) == q + Traded(next.trades)
      && OpenQty(o.book) == OpenQty(next.book) + (book[0].Remaining() - q)
  {
    var q, next := Min(r, book[0].Remaining()), AfterFirst(t, r, book);
    WalkFirst(t, r, book);
    TotalsCons(TradeWith(t, book[0], q), next.trades, Fill(book[0], q), next.book);
  }

  /** Quantity is conserved between taker, trades and makers. */
  lemma {:induction false} WalkConserves(t: Taker, r: int, book: seq<Resting>)
    requires r >= 0 && Live(book)
    ensures var o := Walk(t, r, book);
      && Traded(o.trades) == r - o.left == OpenQty(book) - OpenQty(o.book) && 0 <= o.left <= r
      && (forall i :: 0 <= i < |o.trades| ==> o.trades[i].qty > 0)
    decreases |book|
  {
    if r > 0 && book != [] && Accepts(t.side, t.limit, book[0].price) {
      WalkAdds(t, r, book);
      if r >= book[0].Remaining() { WalkConserves(t, r - book[0].Remaining(), book[1..]); }
    }
  }

  lemma {:induction false} WalkExhausts(t: Taker, r: int, book: seq<Resting>)
    requires r >= 0 && Live(book) && PriceSorted(Opposite(t.side), book)
    ensures Traded(Walk(t, r, book).trades) == Min(r, AcceptableQty(t, book))
    decreases |book|
  {
    AcceptableNonNegative(t, book);
    if r > 0 && book != [] {
      var tail := book[1..];
      if !Accepts(t.side, t.limit, book[0].price) {
        NothingOnOffer(t, book);
      } else {
        WalkAdds(t, r, book);
        AcceptableNonNegative(t, tail);
        if r >= book[0].Remaining() {
          TailSorted(Opposite(t.side), book);
          WalkExhausts(t, r - book[0].Remaining(), tail);
        }
      }
    }
  }

  /** Exhaustive matching: the amount filled is the lesser of what the taker wants and what is
      on offer at prices it accepts; and quantity is conserved between taker, trades and makers. */
  lemma WalkExhaustsAndConserves(t: Taker, r: int, book: seq<Resting>)
    requires r >= 0 && Live(book) && PriceSorted(Opposite(t.side), book)
    ensures var o := Walk(t, r, book);
      && Traded(o.trades) == Min(r, AcceptableQty(t, book))
      && Traded(o.trades) == r - o.left
      && Traded(o.trades) == OpenQty(book) - OpenQty(o.book)
      && 0 <= o.left <= r
      && (forall i :: 0 <= i < |o.trades| ==> o.trades[i].qty > 0)
  {
    WalkConserves(t, r, book);
    WalkExhausts(t, r, book);
  }

  /** What is left over: either the taker is done, or no resting price is acceptable any more. */
  lemma {:induction false} WalkStops(t: Taker, r: int, book: seq<Resting>)
    requires Live(book) && PriceSorted(Opposite(t.side), book)
    ensures var o := Walk(t, r, book);
      o.left > 0 ==> forall i :: 0 <= i < |o.book| ==> !Accepts(t.side, t.limit, o.book[i].price)
    decreases |book|
  {
    if r <= 0 || book == [] {
    } else if !Accepts(t.side, t.limit, book[0].price) {
      HeadDecides(t, book);
    } else if r >= book[0].Remaining() {
      WalkStops(t, r - book[0].Remaining(), book[1..]);
    }
  }

  /** The total filled, from the outside: what is on offer decides whether the taker finishes. */
  lemma WalkFinishes(t: Taker, r: int, book: seq<Resting>)
    requires r >= 0 && Live(book) && PriceSorted(Opposite(t.side), book)
    ensures Walk(t, r, book).left == 0 <==> AcceptableQty(t, book) >= r
  {
    WalkExhaustsAndConserves(t, r, book);
  }

  /** Trade by trade: the i-th trade is with the i-th order of the book, at that order's price and for
      all that was left of it unless it is the last one. */
  lemma {:induction false} WalkTradesInOrder(t: Taker, r: int, book: seq<Resting>, i: int)
    requires Live(book) && 0 <= i < |Walk(t, r, book).trades|
    ensures var trades := Walk(t, r, book).trades;
      && i < |book| && Accepts(t.side, t.limit, book[i].price)
      && trades[i].price == book[i].price && trades[i].makerOrder == book[i].id
      && trades[i].takerId == t.user && trades[i].makerId == book[i].user
      && trades[i].symbol == t.symbol && trades[i].side == t.side
      && 0 < trades[i].qty <= book[i].Remaining()
      && (i + 1 < |trades| ==> trades[i].qty == book[i].Remaining())
    decreases |book|
  {
    if i > 0 { WalkTradesInOrder(t, r - book[0].Remaining(), book[1..], i - 1); }
  }

  // ---------------------------------------------------------------- what a price stops

  lemma {:induction false} OpenQtyNonNegative(book: seq<Resting>)
    requires Live(book)
    ensures OpenQty(book) >= 0
  {
    if book != [] { OpenQtyNonNegative(book[1..]); }
  }

  lemma {:induction false} NoLimitEmpties(t: Taker, r: int, book: seq<Resting>)
    requires t.limit.None? && r >= 0 && Live(book)
    ensures Walk(t, r, book).left > 0 ==> Walk(t, r, book).book == []
    decreases |book|
  {
    if r > 0 && book != [] && r >= book[0].Remaining() { NoLimitEmpties(t, r - book[0].Remaining(), book[1..]); }
  }

  lemma {:induction false} WalkLeavesSome(t: Taker, r: int, book: seq<Resting>)
    requires Live(book)
    ensures OpenQty(Walk(t, r, book).book) >= 0
    decreases |book|
  {
    OpenQtyNonNegative(book);
    if r > 0 && book != [] && Accepts(t.side, t.limit, book[0].price) {
      WalkAdds(t, r, book);
      OpenQtyNonNegative(book[1..]);
      if r >= book[0].Remaining() { WalkLeavesSome(t, r - book[0].Remaining(), book[1..]); }
    }
  }

  /** Without a limit nothing stops the walk but an empty book: whatever the prices, the taker gets all it
      wants or all there is. */
  lemma NoLimitTakesAll(t: Taker, r: int, book: seq<Resting>)
    requires t.limit.None? && r >= 0 && Live(book)
    ensures Traded(Walk(t, r, book).trades) == Min(r, OpenQty(book))
  {
    WalkConserves(t, r, book);
    NoLimitEmpties(t, r, book);
    WalkLeavesSome(t, r, book);
  }

  /** A buying limit is never exceeded, and nothing at it or below is left to a buyer who wants more; a selling
      limit the other way round. */
  lemma LimitStops(t: Taker, r: int, book: seq<Resting>)
    requires t.limit.Some? && r >= 0 && Live(book) && PriceSorted(Opposite(t.side), book)
    ensures var o, limit := Walk(t, r, book), t.limit.value;
      && (t.side.Buy? ==>
          && (forall i :: 0 <= i < |o.trades| ==> o.trades[i].price <= limit)
          && (o.left > 0 ==> forall i :: 0 <= i < |o.book| ==> o.book[i].price > limit))
      && (t.side.Sell? ==>
          && (forall i :: 0 <= i < |o.trades| ==> o.trades[i].price >= limit)
          && (o.left > 0 ==> forall i :: 0 <= i < |o.book| ==> o.book[i].price < limit))
  {
    var o := Walk(t, r, book);
    WalkStops(t, r, book);
    forall i | 0 <= i < |o.trades| ensures Accepts(t.side, t.limit, o.trades[i].price) {
      WalkTradesInOrder(t, r, book, i);
    }
  }

  // ---------------------------------------------------------------- price-time priority

  /** An order is touched only when everyone ahead of it is exhausted. */
  ghost predicate InTurn(book: seq<Resting>, fills: seq<int>)
    requires |fills| == |book|
  {
    forall i, j :: 0 <= i < j < |book| ==> fills[j] > 0 ==> fills[i] == book[i].Remaining()
  }

  /** Independent statement of price-time priority: `fills[i]` is what order `i` of the sorted book
      gets. Nobody is over-filled or filled at an unacceptable price, an order is touched only when
      everyone ahead of it is exhausted, and nothing acceptable is left on the table. */
  ghost predicate PriceTimeFill(t: Taker, r: int, book: seq<Resting>, fills: seq<int>) {
    && |fills| == |book|
    && (forall i :: 0 <= i < |book| ==> 0 <= fills[i] <= book[i].Remaining())
    && (forall i :: 0 <= i < |book| ==> fills[i] > 0 ==> Accepts(t.side, t.limit, book[i].price))
    && InTurn(book, fills)
    && Sum(fills) == Min(r, AcceptableQty(t, book))
  }

  ghost function FillsOf(trades: seq<Trade>, book: seq<Resting>): seq<int> {
    seq(|book|, i requires 0 <= i < |book| => FilledBy(trades, book[i].id))
  }

  /** The list once each order has received its trades: exhausted orders leave, others keep their place. */
  function AfterTrades(s: seq<Resting>, trades: seq<Trade>): seq<Resting> {
    if s == [] then []
    else
      var q := FilledBy(trades, s[0].id);
      (if q == s[0].Remaining() then [] else if q == 0 then [s[0]] else [Fill(s[0], q)]) + AfterTrades(s[1..], trades)
  }

  lemma {:induction false} NoTradeNoFill(trades: seq<Trade>, id: Id)
    requires forall i :: 0 <= i < |trades| ==> trades[i].makerOrder != id
    ensures FilledBy(trades, id) == 0
  {
    if trades != [] { NoTradeNoFill(trades[1..], id); }
  }

  lemma {:induction false} WalkTradesWithBook(t: Taker, r: int, book: seq<Resting>, id: Id)
    requires forall i :: 0 <= i < |book| ==> book[i].id != id
    ensures forall i :: 0 <= i < |Walk(t, r, book).trades| ==> Walk(t, r, book).trades[i].makerOrder != id
    decreases |book|
  {
    if r > 0 && book != [] && Accepts(t.side, t.limit, book[0].price) && r >= book[0].Remaining() {
      WalkTradesWithBook(t, r - book[0].Remaining(), book[1..], id);
    }
  }

  lemma FillsOfNone(book: seq<Resting>)
    ensures Sum(FillsOf([], book)) == 0
    ensures forall i :: 0 <= i < |book| ==> FillsOf([], book)[i] == 0
  {
    ZeroSum(FillsOf([], book));
  }

  /** Others' trades leave a list alone. */
  lemma {:induction false} AfterOthersTrades(s: seq<Resting>, trades: seq<Trade>)
    requires Live(s) && forall i :: 0 <= i < |s| ==> FilledBy(trades, s[i].id) == 0
    ensures AfterTrades(s, trades) == s
  {
    if s != [] { AfterOthersTrades(s[1..], trades); }
  }

  lemma {:induction false} AfterAnother(s: seq<Resting>, x: Trade, rest: seq<Trade>)
    requires forall i :: 0 <= i < |s| ==> s[i].id != x.makerOrder
    ensures AfterTrades(s, [x] + rest) == AfterTrades(s, rest)
  {
    if s != [] {
      FilledByCons(x, rest, s[0].id);
      AfterAnother(s[1..], x, rest);
    }
  }

  lemma FilledByCons(x: Trade, rest: seq<Trade>, id: Id)
    ensures FilledBy([x] + rest, id) == (if x.makerOrder == id then x.qty else 0) + FilledBy(rest, id)
  {
    assert ([x] + rest)[1..] == rest;
  }

  /** A trade with the first order, and trades with others. */
  lemma FillsSplit(x: Trade, rest: seq<Trade>, book: seq<Resting>)
    requires book != [] && x.makerOrder == book[0].id && FilledBy(rest, book[0].id) == 0
    requires forall i :: 0 < i < |book| ==> book[i].id != book[0].id
    ensures FillsOf([x] + rest, book) == [x.qty] + FillsOf(rest, book[1..])
  {
    var all, fills := FillsOf([x] + rest, book), [x.qty] + FillsOf(rest, book[1..]);
    forall i | 0 <= i < |book| ensures all[i] == fills[i] {
      FilledByCons(x, rest, book[i].id);
      if i > 0 { assert book[1..][i - 1] == book[i]; }
    }
  }

  lemma FillsCons(t: Taker, r: int, book: seq<Resting>)
    requires r > 0 && Live(book) && UniqueIds(book) && book != [] && Accepts(t.side, t.limit, book[0].price)
    ensures FillsOf(Walk(t, r, book).trades, book) ==
            [Min(r, book[0].Remaining())] + FillsOf(AfterFirst(t, r, book).trades, book[1..])
  {
    var m, tail := book[0], book[1..];
    var rest := AfterFirst(t, r, book).trades;
    forall i | 0 <= i < |tail| ensures tail[i].id != m.id { assert tail[i] == book[i + 1]; }
    if r >= m.Remaining() { WalkTradesWithBook(t, r - m.Remaining(), tail, m.id); }
    NoTradeNoFill(rest, m.id);
    WalkAdds(t, r, book);
    FillsSplit(TradeWith(t, m, Min(r, m.Remaining())), rest, book);
  }

  lemma InTurnCons(book: seq<Resting>, q: int, fills: seq<int>)
    requires book != [] && |fills| == |book| - 1 && InTurn(book[1..], fills)
    requires q == book[0].Remaining() || forall i :: 0 <= i < |fills| ==> fills[i] <= 0
    ensures InTurn(book, [q] + fills)
  {
    var all := [q] + fills;
    forall i, j | 0 <= i < j < |book| && all[j] > 0 ensures all[i] == book[i].Remaining() {
      assert all[j] == fills[j - 1];
      if i > 0 { assert all[i] == fills[i - 1] && book[1..][i - 1] == book[i]; }
    }
  }

  lemma PriceTimeCons(t: Taker, r: int, book: seq<Resting>, fills: seq<int>)
    requires r > 0 && Live(book) && book != [] && Accepts(t.side, t.limit, book[0].price)
    requires PriceTimeFill(t, r - Min(r, book[0].Remaining()), book[1..], fills)
    ensures PriceTimeFill(t, r, book, [Min(r, book[0].Remaining())] + fills)
  {
    var q := Min(r, book[0].Remaining());
    assert ([q] + fills)[1..] == fills;
    AcceptableNonNegative(t, book[1..]);
    if q < book[0].Remaining() {
      SumNonNegative(fills);
    }
    InTurnCons(book, q, fills);
  }

  lemma PriceTimeNone(t: Taker, r: int, book: seq<Resting>)
    requires r >= 0 && Live(book)
    requires r == 0 || AcceptableQty(t, book) == 0
    ensures PriceTimeFill(t, r, book, FillsOf([], book))
  {
    AcceptableNonNegative(t, book);
    FillsOfNone(book);
  }

  lemma PriceTimeStep(t: Taker, r: int, book: seq<Resting>)
    requires r > 0 && Live(book) && UniqueIds(book) && book != [] && Accepts(t.side, t.limit, book[0].price)
    requires PriceTimeFill(t, r - Min(r, book[0].Remaining()), book[1..],
      FillsOf(AfterFirst(t, r, book).trades, book[1..]))
    ensures PriceTimeFill(t, r, book, FillsOf(Walk(t, r, book).trades, book))
  {
    FillsCons(t, r, book);
    PriceTimeCons(t, r, book, FillsOf(AfterFirst(t, r, book).trades, book[1..]));
  }

  /** The walk meets the independent statement. */
  lemma {:induction false} WalkIsPriceTime(t: Taker, r: int, book: seq<Resting>)
    requires r >= 0 && Live(book) && UniqueIds(book) && PriceSorted(Opposite(t.side), book)
    ensures PriceTimeFill(t, r, book, FillsOf(Walk(t, r, book).trades, book))
    decreases |book|
  {
    if r <= 0 || book == [] {
      PriceTimeNone(t, r, book);
    } else if !Accepts(t.side, t.limit, book[0].price) {
      NothingOnOffer(t, book);
      PriceTimeNone(t, r, book);
    } else {
      var tail, q := book[1..], Min(r, book[0].Remaining());
      TailSorted(Opposite(t.side), book);
      TailUnique(book);
      if r >= book[0].Remaining() {
        WalkIsPriceTime(t, r - q, tail);
      } else {
        PriceTimeNone(t, r - q, tail);
      }
      assert PriceTimeFill(t, r - q, tail, FillsOf(AfterFirst(t, r, book).trades, tail));
      PriceTimeStep(t, r, book);
    }
  }

  lemma AfterTradesCons(m: Resting, tail: seq<Resting>, x: Trade, rest: seq<Trade>)
    requires x.makerOrder == m.id && x.qty != 0 && FilledBy(rest, m.id) == 0
    requires forall i :: 0 <= i < |tail| ==> tail[i].id != m.id
    ensures AfterTrades([m] + tail, [x] + rest) ==
            if x.qty == m.Remaining() then AfterTrades(tail, rest) else [Fill(m, x.qty)] + AfterTrades(tail, rest)
  {
    assert [] + AfterTrades(tail, rest) == AfterTrades(tail, rest);
    assert ([m] + tail)[1..] == tail;
    FilledByCons(x, rest, m.id);
    AfterAnother(tail, x, rest);
  }

  /** The walk leaves exactly the book that its trades describe. */
  lemma {:induction false} WalkLeavesUnfilled(t: Taker, r: int, book: seq<Resting>)
    requires Live(book) && UniqueIds(book)
    ensures Walk(t, r, book).book == AfterTrades(book, Walk(t, r, book).trades)
    decreases |book|
  {
    if r <= 0 || book == [] || !Accepts(t.side, t.limit, book[0].price) {
      AfterOthersTrades(book, []);
    } else {
      var m, tail, next := book[0], book[1..], AfterFirst(t, r, book);
      assert book == [m] + tail;
      forall i | 0 <= i < |tail| ensures tail[i].id != m.id { assert tail[i] == book[i + 1]; }
      if r >= m.Remaining() {
        WalkLeavesUnfilled(t, r - m.Remaining(), tail);
        WalkTradesWithBook(t, r - m.Remaining(), tail, m.id);
      } else {
        AfterOthersTrades(tail, []);
      }
      NoTradeNoFill(next.trades, m.id);
      WalkFirst(t, r, book);
      AfterTradesCons(m, tail, TradeWith(t, m, Min(r, m.Remaining())), next.trades);
    }
  }

  lemma {:induction false} SumNonNegative(s: seq<int>)
    requires forall i :: 0 <= i < |s| ==> s[i] >= 0
    ensures Sum(s) >= 0
    ensures Sum(s) == 0 ==> forall i :: 0 <= i < |s| ==> s[i] == 0
  {
    if s != [] {
      SumNonNegative(s[1..]);
      forall i | 0 <= i < |s| && Sum(s) == 0 ensures s[i] == 0 {
        if i > 0 { assert s[i] == s[1..][i - 1]; }
      }
    }
  }

  /** Priority determines the fills: two fill vectors with the same total are equal. */
  lemma {:induction false} PriorityDeterminesFills(book: seq<Resting>, f: seq<int>, g: seq<int>)
    requires |f| == |g| == |book|
    requires forall i :: 0 <= i < |book| ==> 0 <= f[i] <= book[i].Remaining() && 0 <= g[i] <= book[i].Remaining()
    requires InTurn(book, f) && InTurn(book, g)
    requires Sum(f) == Sum(g)
    ensures f == g
  {
    if book != [] {
      SumNonNegative(f[1..]);
      SumNonNegative(g[1..]);
      if f[0] != g[0] {
        var lo, hi := if f[0] < g[0] then f else g, if f[0] < g[0] then g else f;
        forall i | 0 <= i < |lo[1..]| ensures lo[1..][i] == 0 {
          assert lo[i + 1] >= 0;
        }
        assert lo[1..] == seq(|lo| - 1, i => 0);
        ZeroSum(lo[1..]);
      }
      PriorityDeterminesFills(book[1..], f[1..], g[1..]);
      assert f == [f[0]] + f[1..] && g == [g[0]] + g[1..];
    }
  }

  lemma {:induction false} ZeroSum(s: seq<int>)
    requires forall i :: 0 <= i < |s| ==> s[i] == 0
    ensures Sum(s) == 0
  {
    if s != [] { ZeroSum(s[1..]); }
  }

  /** Price-time priority has one solution, and the walk finds it. */
  lemma WalkIsTheOnlyPriceTimeFill(t: Taker, r: int, book: seq<Resting>, fills: seq<int>)
    requires r >= 0 && Live(book) && UniqueIds(book) && PriceSorted(Opposite(t.side), book)
    ensures PriceTimeFill(t, r, book, fills) <==> fills == FillsOf(Walk(t, r, book).trades, book)
  {
    WalkIsPriceTime(t, r, book);
    if PriceTimeFill(t, r, book, fills) {
      PriorityDeterminesFills(book, fills, FillsOf(Walk(t, r, book).trades, book));
    }
  }
}
