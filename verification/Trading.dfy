/** The life of orders over accounts, journals, order rows and books (internal/orders/service.go):
    hold, save, match, settle, update rows, rest.

    Repairs, each documented against the code in AsWritten.dfy and README.md: settlement consumes the
    holds, maker rows are updated, a limit order rests by what the book left of it, and what the book
    left of a market order is dropped and its hold released. */
module Trading {
  import opened Types
  import opened Greedy
  import opened BookView
  import opened OrderBooks
  import opened Books
  import opened Ledger
  import opened Settlement
  import opened Recovery

  /** An order request; nothing in it has been validated. `quote` is the price the quotes service gives
      for a market order on this side, if it has one. */
  datatype Request = Request(user: Id, symbol: Symbol, side: Side, typ: OrderType, price: Option<int>, qty: int,
                             quote: Option<int>)

  /** One trade, with the order that took it and whether it settled. */
  datatype Exec = Exec(taker: Id, trade: Trade, settled: bool)

  /** `clock` numbers orders: ids are fresh and creation times distinct. `log` is history. */
  datatype World = World(ledger: State, rows: seq<Order>, books: map<Symbol, Book>, log: seq<Exec>, clock: nat)

  /** validateOrderRequest, and the quote that a market order needs. */
  predicate Acceptable(req: Request) {
    && req.qty > 0 && !req.symbol.Unlisted?
    && (if req.typ.Limit? then req.price.Some? && req.price.value > 0 else req.quote.Some?)
  }

  /** The price a hold is computed at: the limit, or the quote of a market order. */
  function HoldPrice(req: Request): int {
    var price := if req.typ.Limit? then req.price else req.quote;
    if price.Some? then price.value else 0
  }

  /** What `qty` of an order at `price` needs on hold. */
  function Cost(side: Side, price: int, qty: int): int { if side.Buy? then price * qty else qty }

  /** calculateRequiredAmount. */
  function Required(req: Request): int {
    Cost(req.side, HoldPrice(req), req.qty)
  }

  function OrderFor(w: World, req: Request): Order {
    Order(w.clock, req.user, req.symbol, req.side, req.typ, req.price, req.qty, 0, New, w.clock)
  }

  /** The trades of one order, settled one after another. */
  function Execs(s: State, taker: Id, trades: seq<Trade>, limit: int): (es: seq<Exec>)
    ensures |es| == |trades| && forall i :: 0 <= i < |es| ==> es[i].taker == taker && es[i].trade == trades[i]
    decreases |trades|
  {
    if trades == [] then []
    else [Exec(taker, trades[0], AllSucceed(s, SettleOps(trades[0], limit)))]
         + Execs(Settle(s, trades[0], limit), taker, trades[1..], limit)
  }

  /** Quantity of the trades that settled. */
  function SettledQty(es: seq<Exec>): int {
    if es == [] then 0 else (if es[0].settled then es[0].trade.qty else 0) + SettledQty(es[1..])
  }

  /** The hold that an order places. */
  function HoldFor(req: Request): Op { HoldOp(req.user, PayCurrency(req.symbol, req.side), Required(req)) }

  /** What a market order leaves unfilled is dropped: its hold goes back. */
  function DropLeft(s: State, o: Order, price: int, left: int): State {
    if o.typ.Market? && left > 0
    then Apply(s, 1, ReleaseOp(o.user, PayCurrency(o.symbol, o.side), Cost(o.side, price, left)))
    else s
  }

  /** The request is valid and its hold can be placed, so it gets as far as the book. */
  predicate Enters(w: World, req: Request) {
    Acceptable(req) && req.symbol in w.books && Try(w.ledger, 1, HoldFor(req)).Ok?
  }

  function Submit(w: World, req: Request): World {
    if !Enters(w, req) then w
    else
      var o, price, held := OrderFor(w, req), HoldPrice(req), Apply(w.ledger, 1, HoldFor(req));
      var walk := WalkOf(req.symbol, w.books[req.symbol], o);
      World(DropLeft(SettleAll(held, walk.trades, price), o, price, walk.left),
            FillRows(w.rows, walk.trades) + [Matched(o, walk.left)],
            w.books[req.symbol := Place(req.symbol, w.books[req.symbol], o)],
            w.log + Execs(held, o.id, walk.trades, price),
            w.clock + 1)
  }

  // ---------------------------------------------------------------- rows and books

  ghost predicate RowsGood(w: World) {
    && RowsOk(w.rows)
    && (forall i :: 0 <= i < |w.rows| ==> w.rows[i].id < w.clock && w.rows[i].symbol in w.books)
  }

  /** The live books are what a restart would rebuild from the rows. */
  ghost predicate Recoverable(w: World) {
    forall symbol, side :: symbol in w.books ==> w.books[symbol].On(side) == Rebuild(w.rows, symbol, side)
  }

  ghost predicate BooksOk(w: World) {
    w.books.Keys == {BTCUSD, ETHUSD} && forall symbol :: symbol in w.books ==> BookOk(w.books[symbol])
  }

  /** Trades of a walk only touch rows that rest in the list walked. */
  lemma WalkTouchesActiveRows(w: World, req: Request, i: int)
    requires RowsGood(w) && Recoverable(w) && req.symbol in w.books && 0 <= i < |w.rows|
    ensures var trades := WalkOf(req.symbol, w.books[req.symbol], OrderFor(w, req)).trades;
      FilledBy(trades, w.rows[i].id) != 0 ==> Active(w.rows[i], req.symbol, Opposite(req.side))
  {
    var o, book := OrderFor(w, req), w.books[req.symbol].On(Opposite(req.side));
    var trades := WalkOf(req.symbol, w.books[req.symbol], o).trades;
    var id := w.rows[i].id;
    if !Active(w.rows[i], req.symbol, Opposite(req.side)) {
      forall k | 0 <= k < |book| ensures book[k].id != id {
        assert book[k] in Rebuild(w.rows, req.symbol, Opposite(req.side));
        RebuildMembers(w.rows, req.symbol, Opposite(req.side), book[k]);
        var j :| RowOf(w.rows, req.symbol, Opposite(req.side), book[k], j);
        assert i != j;
      }
      WalkTradesWithBook(TakerOf(req.symbol, o), o.Remaining(), book, id);
      NoTradeNoFill(trades, id);
    }
  }

  lemma ListsOk(w: World, symbol: Symbol, side: Side)
    requires RowsGood(w) && Recoverable(w) && symbol in w.books
    ensures ListOk(side, w.books[symbol].On(side))
    ensures forall i :: 0 <= i < |w.books[symbol].On(side)| ==> w.books[symbol].On(side)[i].id < w.clock
  {
    RebuildOk(w.rows, symbol, side);
    var s := w.books[symbol].On(side);
    forall i | 0 <= i < |s| ensures s[i].id < w.clock {
      assert s[i] in Rebuild(w.rows, symbol, side);
      RebuildMembers(w.rows, symbol, side, s[i]);
    }
  }

  /** A list other than the one walked is untouched by the walk's trades. */
  lemma OtherListsUntouched(w: World, req: Request, symbol: Symbol, side: Side)
    requires RowsGood(w) && Recoverable(w) && req.symbol in w.books && symbol in w.books
    requires symbol != req.symbol || side != Opposite(req.side)
    ensures AfterTrades(w.books[symbol].On(side), WalkOf(req.symbol, w.books[req.symbol], OrderFor(w, req)).trades)
            == w.books[symbol].On(side)
  {
    var trades := WalkOf(req.symbol, w.books[req.symbol], OrderFor(w, req)).trades;
    var s := w.books[symbol].On(side);
    ListsOk(w, symbol, side);
    forall k | 0 <= k < |s| ensures FilledBy(trades, s[k].id) == 0 {
      assert s[k] in Rebuild(w.rows, symbol, side);
      RebuildMembers(w.rows, symbol, side, s[k]);
      var j :| RowOf(w.rows, symbol, side, s[k], j);
      WalkTouchesActiveRows(w, req, j);
    }
    AfterOthersTrades(s, trades);
  }

  /** What the walk of a submitted order does, in one place. */
  lemma SubmittedWalk(w: World, req: Request)
    requires RowsGood(w) && Recoverable(w) && req.symbol in w.books && Acceptable(req)
    ensures var o := OrderFor(w, req); var walk := WalkOf(req.symbol, w.books[req.symbol], o);
      && ListOk(Opposite(req.side), w.books[req.symbol].On(Opposite(req.side)))
      && Positive(walk.trades)
      && 0 <= walk.left <= req.qty && Traded(walk.trades) == req.qty - walk.left
      && walk.book == AfterTrades(w.books[req.symbol].On(Opposite(req.side)), walk.trades)
      && RowOk(Matched(o, walk.left))
  {
    var o, opp := OrderFor(w, req), Opposite(req.side);
    ListsOk(w, req.symbol, opp);
    WalkExhaustsAndConserves(TakerOf(req.symbol, o), req.qty, w.books[req.symbol].On(opp));
    WalkLeavesUnfilled(TakerOf(req.symbol, o), req.qty, w.books[req.symbol].On(opp));
  }

  /** No row is over-filled. */
  lemma FillFitsRow(w: World, req: Request, i: int)
    requires RowsGood(w) && Recoverable(w) && req.symbol in w.books && Acceptable(req) && 0 <= i < |w.rows|
    ensures var q := FilledBy(WalkOf(req.symbol, w.books[req.symbol], OrderFor(w, req)).trades, w.rows[i].id);
      0 <= q <= w.rows[i].Remaining()
  {
    var opp := Opposite(req.side);
    var book := w.books[req.symbol].On(opp);
    var t := TakerOf(req.symbol, OrderFor(w, req));
    var trades := Walk(t, req.qty, book).trades;
    SubmittedWalk(w, req);
    WalkTouchesActiveRows(w, req, i);
    FilledByNonNegative(trades, w.rows[i].id);
    if FilledBy(trades, w.rows[i].id) != 0 {
      WalkIsPriceTime(t, req.qty, book);
      RowRests(w.rows, req.symbol, opp, i);
      assert w.rows[i].AsResting() in book;
      var k :| 0 <= k < |book| && book[k] == w.rows[i].AsResting();
      assert FillsOf(trades, book)[k] <= book[k].Remaining();
    }
  }

  lemma FillRowsOk(w: World, req: Request)
    requires RowsGood(w) && Recoverable(w) && req.symbol in w.books && Acceptable(req)
    ensures var trades := WalkOf(req.symbol, w.books[req.symbol], OrderFor(w, req)).trades;
      && RowsOk(FillRows(w.rows, trades))
      && (forall i :: 0 <= i < |w.rows| && w.rows[i].status.Filled? ==> FilledBy(trades, w.rows[i].id) == 0)
  {
    forall i | 0 <= i < |w.rows|
      ensures var q := FilledBy(WalkOf(req.symbol, w.books[req.symbol], OrderFor(w, req)).trades, w.rows[i].id);
        0 <= q <= w.rows[i].Remaining()
    {
      FillFitsRow(w, req, i);
    }
  }

  /** Each list of the order's world stays what its rows rebuild. */
  lemma ListStaysRebuilt(w: World, req: Request, symbol: Symbol, side: Side)
    requires RowsGood(w) && Recoverable(w) && Enters(w, req) && symbol in w.books
    ensures Submit(w, req).books[symbol].On(side) == Rebuild(Submit(w, req).rows, symbol, side)
  {
    var w', o := Submit(w, req), OrderFor(w, req);
    var walk := WalkOf(req.symbol, w.books[req.symbol], o);
    SubmittedWalk(w, req);
    FillRowsOk(w, req);
    RebuildAfterTrades(w.rows, symbol, side, walk.trades);
    assert w'.rows[..|w.rows|] == FillRows(w.rows, walk.trades);
    if symbol != req.symbol || side != Opposite(req.side) {
      OtherListsUntouched(w, req, symbol, side);
    }
    assert Active(Matched(o, walk.left), symbol, side) <==>
           symbol == req.symbol && side == req.side && Rests(o, walk.left);
  }

  lemma SubmittedRows(w: World, req: Request)
    requires Enters(w, req)
    ensures var o, w' := OrderFor(w, req), Submit(w, req); var walk := WalkOf(req.symbol, w.books[req.symbol], o);
      && w'.rows == FillRows(w.rows, walk.trades) + [Matched(o, walk.left)]
      && w'.clock == w.clock + 1 && w'.books.Keys == w.books.Keys
  {
  }

  lemma OneMoreRow(rows: seq<Order>, row: Order)
    requires RowsOk(rows) && RowOk(row) && row.at == row.id
    requires forall i :: 0 <= i < |rows| ==> rows[i].id < row.id
    ensures RowsOk(rows + [row])
  {
  }

  lemma RowsStayGood(w: World, req: Request)
    requires RowsGood(w) && Recoverable(w) && Enters(w, req)
    ensures RowsGood(Submit(w, req))
  {
    SubmittedWalk(w, req);
    FillRowsOk(w, req);
    SubmittedRows(w, req);
    var o := OrderFor(w, req);
    var walk := WalkOf(req.symbol, w.books[req.symbol], o);
    OneMoreRow(FillRows(w.rows, walk.trades), Matched(o, walk.left));
  }

  /** Recovery: submitting an order keeps the live books equal to the rebuilt ones. */
  lemma SubmitKeepsRecovery(w: World, req: Request)
    requires RowsGood(w) && Recoverable(w)
    ensures RowsGood(Submit(w, req)) && Recoverable(Submit(w, req))
  {
    if Enters(w, req) {
      RowsStayGood(w, req);
      forall symbol, side | symbol in w.books
        ensures Submit(w, req).books[symbol].On(side) == Rebuild(Submit(w, req).rows, symbol, side)
      {
        ListStaysRebuilt(w, req, symbol, side);
      }
    }
  }

  /** No submitted order crosses a book. */
  lemma SubmitKeepsBooks(w: World, req: Request)
    requires RowsGood(w) && Recoverable(w) && BooksOk(w)
    ensures BooksOk(Submit(w, req))
  {
    if Submit(w, req) != w {
      ListsOk(w, req.symbol, Buy);
      ListsOk(w, req.symbol, Sell);
      PlaceKeepsBook(req.symbol, w.books[req.symbol], OrderFor(w, req));
    }
  }
}
