/** The order service, in place over its ledger, its order rows and its two books
    (internal/orders/service.go), against the functions of Trading.dfy. */
module OrderServices {
  import opened Types
  import opened Greedy
  import opened BookView
  import opened OrderBooks
  import opened Books
  import opened Ledger
  import opened LedgerServices
  import opened Settlement
  import opened Recovery
  import opened Trading

  datatype Response = Refused | Created(id: Id, status: Status, filledQty: int)

  /** A new order's answer: its row, and what settled of the trades logged since. */
  ghost function Answer(w: World, logged: nat): Response {
    if w.rows == [] || |w.log| < logged then Refused
    else
      var row := w.rows[|w.rows| - 1];
      Created(row.id, row.status, SettledQty(w.log[logged..]))
  }

  lemma {:induction false} SettleAllSnoc(s: State, trades: seq<Trade>, i: int, limit: int)
    requires 0 <= i < |trades|
    ensures SettleAll(s, trades[..i + 1], limit) == Settle(SettleAll(s, trades[..i], limit), trades[i], limit)
    decreases i
  {
    if i == 0 {
      assert trades[..1][1..] == [];
    } else {
      SettleAllSnoc(Settle(s, trades[0], limit), trades[1..], i - 1, limit);
      assert trades[..i + 1][1..] == trades[1..][..i] && trades[..i][1..] == trades[1..][..i - 1];
    }
  }

  lemma {:induction false} ExecsSnoc(s: State, taker: Id, trades: seq<Trade>, i: int, limit: int)
    requires 0 <= i < |trades|
    ensures Execs(s, taker, trades[..i + 1], limit) == Execs(s, taker, trades[..i], limit)
            + [Exec(taker, trades[i], AllSucceed(SettleAll(s, trades[..i], limit), SettleOps(trades[i], limit)))]
    decreases i
  {
    if i == 0 {
      assert trades[..1][1..] == [];
    } else {
      ExecsSnoc(Settle(s, trades[0], limit), taker, trades[1..], i - 1, limit);
      assert trades[..i + 1][1..] == trades[1..][..i] && trades[..i][1..] == trades[1..][..i - 1];
    }
  }

  lemma {:induction false} SettledQtySnoc(es: seq<Exec>, e: Exec)
    ensures SettledQty(es + [e]) == SettledQty(es) + if e.settled then e.trade.qty else 0
  {
    if es == [] {
      assert es + [e] == [e];
    } else {
      SettledQtySnoc(es[1..], e);
      assert (es + [e])[1..] == es[1..] + [e];
    }
  }

  function BothBooks(b: Book, e: Book): map<Symbol, Book> { map[BTCUSD := b, ETHUSD := e] }

  lemma OneBookChanges(b: Book, e: Book, x: Book)
    ensures BothBooks(b, e)[BTCUSD := x] == BothBooks(x, e) && BothBooks(b, e)[ETHUSD := x] == BothBooks(b, x)
  {
  }

  /** What one order works on: the ledger, the order rows, its symbol's book, and the history of trades. */
  datatype Desk = Desk(ledger: State, rows: seq<Order>, book: Book, log: seq<Exec>)

  /** The same after an order, its hold placed, is matched, settled, recorded and rested. */
  ghost function Worked(symbol: Symbol, d: Desk, o: Order, price: int): Desk {
    var walk := WalkOf(symbol, d.book, o);
    Desk(DropLeft(SettleAll(d.ledger, walk.trades, price), o, price, walk.left),
         FillRows(d.rows, walk.trades) + [Matched(o, walk.left)],
         Place(symbol, d.book, o),
         d.log + Execs(d.ledger, o.id, walk.trades, price))
  }

  /** The answer to that order. */
  ghost function Reply(symbol: Symbol, d: Desk, o: Order, price: int): Response {
    var walk := WalkOf(symbol, d.book, o);
    Created(o.id, Matched(o, walk.left).status, SettledQty(Execs(d.ledger, o.id, walk.trades, price)))
  }

  lemma LoadedIsRecoverable(w: World)
    requires RowsOk(w.rows) && forall i :: 0 <= i < |w.rows| ==> w.rows[i].id < w.clock && !w.rows[i].symbol.Unlisted?
    requires w.books == BothBooks(Book(Rebuild(w.rows, BTCUSD, Buy), Rebuild(w.rows, BTCUSD, Sell)),
                                  Book(Rebuild(w.rows, ETHUSD, Buy), Rebuild(w.rows, ETHUSD, Sell)))
    ensures RowsGood(w) && Recoverable(w)
  {
  }

  /** Add a symbol's active rows to its empty book, oldest first. */
  method LoadOrders(book: OrderBook, rows: seq<Order>)
    requires book.Valid() && book.content == Book([], [])
    requires RowsOk(rows)
    modifies book.Repr
    ensures book.Valid() && fresh(book.Repr - old(book.Repr))
    ensures book.content == Book(Rebuild(rows, book.symbol, Buy), Rebuild(rows, book.symbol, Sell))
  {
    for i := 0 to |rows|
      invariant book.Valid() && fresh(book.Repr - old(book.Repr))
      invariant book.content == Book(Rebuild(rows[..i], book.symbol, Buy), Rebuild(rows[..i], book.symbol, Sell))
    {
      assert rows[..i + 1][..i] == rows[..i];
      if rows[i].symbol == book.symbol && rows[i].typ.Limit? && !rows[i].status.Filled? {
        NotLoadedYet(rows, i, book.symbol, Buy);
        NotLoadedYet(rows, i, book.symbol, Sell);
        book.AddOrder(rows[i]);
      }
    }
    assert rows[..|rows|] == rows;
  }

  lemma NotLoadedYet(rows: seq<Order>, i: int, symbol: Symbol, side: Side)
    requires RowsOk(rows) && 0 <= i < |rows|
    ensures forall o :: o in Rebuild(rows[..i], symbol, side) ==> o.id != rows[i].id
  {
    forall o | o in Rebuild(rows[..i], symbol, side) ensures o.id != rows[i].id {
      RebuildMembers(rows[..i], symbol, side, o);
    }
  }

  class OrderService {
    const ledger: LedgerService
    const btc: OrderBook
    const eth: OrderBook
    var rows: seq<Order>
    var clock: nat
    ghost var log: seq<Exec>

    /** The state of the whole system as a value. */
    ghost function Now(): World
      reads this, ledger, btc, eth
    {
      World(ledger.Now(), rows, BothBooks(btc.content, eth.content), log, clock)
    }

    /** Two valid books that share nothing with each other, the ledger or the service. */
    ghost predicate Apart(a: OrderBook, b: OrderBook)
      reads a, a.Repr, b, b.Repr
    {
      && a.Valid() && b.Valid() && a.Repr !! b.Repr
      && this !in a.Repr && this !in b.Repr && ledger !in a.Repr && ledger !in b.Repr
    }

    ghost predicate Valid()
      reads this, ledger, btc, btc.Repr, eth, eth.Repr
    {
      && ledger.d == 1 && btc.symbol == BTCUSD && eth.symbol == ETHUSD
      && Apart(btc, eth)
      && RowsGood(Now()) && Recoverable(Now())
    }

    /** Starting up over existing tables: the rows, in creation order, are loaded into empty books. */
    constructor (ledger: LedgerService, rows: seq<Order>, clock: nat, ghost log: seq<Exec>)
      requires ledger.d == 1 && RowsOk(rows)
      requires forall i :: 0 <= i < |rows| ==> rows[i].id < clock && !rows[i].symbol.Unlisted?
      ensures Valid() && this.ledger == ledger && this.rows == rows && this.clock == clock && this.log == log
      ensures ledger.Now() == old(ledger.Now()) && Recoverable(Now())
    {
      this.ledger, this.rows, this.clock, this.log := ledger, rows, clock, log;
      btc := new OrderBook(BTCUSD);
      eth := new OrderBook(ETHUSD);
      new;
      LoadBoth();
      LoadedIsRecoverable(Now());
    }

    /** loadOrdersIntoBooks: each symbol's book from its own active rows. */
    method LoadBoth()
      requires Apart(btc, eth) && RowsOk(rows)
      requires btc.content == Book([], []) && eth.content == Book([], [])
      modifies btc.Repr, eth.Repr
      ensures Apart(btc, eth)
      ensures btc.content == Book(Rebuild(rows, btc.symbol, Buy), Rebuild(rows, btc.symbol, Sell))
      ensures eth.content == Book(Rebuild(rows, eth.symbol, Buy), Rebuild(rows, eth.symbol, Sell))
    {
      LoadOrders(btc, rows);
      assert eth.Valid() && eth.content == Book([], []);
      ghost var loaded := btc.content;
      LoadOrders(eth, rows);
      assert btc.Valid() && btc.content == loaded;
    }

    /** Settle one trade on the ledger; the first step that fails ends it. */
    method SettleTrade(t: Trade, limit: int) returns (ok: bool)
      requires ledger.d == 1
      modifies ledger
      ensures ledger.Now() == Settle(old(ledger.Now()), t, limit)
      ensures ok <==> AllSucceed(old(ledger.Now()), SettleOps(t, limit))
    {
      ghost var ops := SettleOps(t, limit);
      assert ops == [ops[0]] + ([ops[1]] + Legs(t));
      ChainCons(ledger.Now(), ops[0], [ops[1]] + Legs(t));
      var held := ledger.ReleaseHold(Buyer(t), USD, HeldPrice(t, limit) * t.qty);
      if held.Err? { return false; }
      ChainCons(ledger.Now(), ops[1], Legs(t));
      held := ledger.ReleaseHold(Seller(t), BaseOf(t.symbol), t.qty);
      if held.Err? { return false; }
      ok := Pay(t);
    }

    /** The transfers of processTrade. */
    method Pay(t: Trade) returns (ok: bool)
      requires ledger.d == 1
      modifies ledger
      ensures ledger.Now() == Chain(old(ledger.Now()), Legs(t))
      ensures ok <==> AllSucceed(old(ledger.Now()), Legs(t))
    {
      if t.takerId == t.makerId { return true; }
      var first, second := FirstLeg(t), SecondLeg(t);
      assert Legs(t) == [first] + ([second] + []);
      ChainCons(ledger.Now(), first, [second] + []);
      var paid := ledger.TransferFunds(first.from, first.to, first.x, first.currency);
      if paid.Err? { return false; }
      ChainCons(ledger.Now(), second, []);
      paid := ledger.TransferFunds(second.from, second.to, second.x, second.currency);
      ok := paid.Ok?;
    }

    /** The loop over the matcher's trades: one that does not settle is passed over. */
    method ProcessTrades(trades: seq<Trade>, limit: int, ghost taker: Id) returns (filledQty: int)
      requires ledger.d == 1
      modifies ledger
      ensures ledger.Now() == SettleAll(old(ledger.Now()), trades, limit)
      ensures filledQty == SettledQty(Execs(old(ledger.Now()), taker, trades, limit))
    {
      filledQty := 0;
      ghost var before := ledger.Now();
      for i := 0 to |trades|
        invariant ledger.Now() == SettleAll(before, trades[..i], limit)
        invariant filledQty == SettledQty(Execs(before, taker, trades[..i], limit))
      {
        SettleAllSnoc(before, trades, i, limit);
        ExecsSnoc(before, taker, trades, i, limit);
        ghost var settled := AllSucceed(ledger.Now(), SettleOps(trades[i], limit));
        SettledQtySnoc(Execs(before, taker, trades[..i], limit), Exec(taker, trades[i], settled));
        var ok := SettleTrade(trades[i], limit);
        if ok { filledQty := filledQty + trades[i].qty; }
      }
      assert trades[..|trades|] == trades;
    }

    /** Persist the makers' fills (a repair: the source updates only the taker's row). */
    method UpdateRows(trades: seq<Trade>)
      modifies this`rows
      ensures rows == FillRows(old(rows), trades)
    {
      ghost var before := rows;
      for i := 0 to |rows|
        invariant |rows| == |before|
        invariant forall j :: 0 <= j < i ==> rows[j] == FillRows(before, trades)[j]
        invariant forall j :: i <= j < |rows| ==> rows[j] == before[j]
      {
        rows := rows[i := FilledRow(rows[i], FilledBy(trades, rows[i].id))];
      }
    }

    /** What the book left of a market order is dropped, and its hold released. */
    method ReleaseLeft(matched: Order, price: int)
      requires ledger.d == 1
      modifies ledger
      ensures ledger.Now() == DropLeft(old(ledger.Now()), matched, price, matched.Remaining())
    {
      var left := matched.Remaining();
      if matched.typ.Market? && left > 0 {
        var _ := ledger.ReleaseHold(matched.user, PayCurrency(matched.symbol, matched.side),
          Cost(matched.side, price, left));
      }
    }

    /** Settle the trades, write the rows, the makers' and the taker's own, and drop a market remainder. */
    method Record(trades: seq<Trade>, matched: Order, price: int, ghost order: Order, ghost left: int)
      returns (filledQty: int)
      requires ledger.d == 1 && matched == Matched(order, left)
      modifies this`rows, this`log, ledger
      ensures ledger.Now() == DropLeft(SettleAll(old(ledger.Now()), trades, price), order, price, left)
      ensures rows == FillRows(old(rows), trades) + [matched]
      ensures log == old(log) + Execs(old(ledger.Now()), order.id, trades, price)
      ensures filledQty == SettledQty(Execs(old(ledger.Now()), order.id, trades, price))
    {
      log := log + Execs(ledger.Now(), matched.id, trades, price);
      filledQty := ProcessTrades(trades, price, matched.id);
      UpdateRows(trades);
      rows := rows + [matched];
      ReleaseLeft(matched, price);
    }

    /** What one order works on. */
    ghost function At(book: OrderBook): Desk
      reads this, ledger, book
    {
      Desk(ledger.Now(), rows, book.content, log)
    }

    /** Match, settle, update the rows, rest: everything CreateOrder does once the hold is placed. */
    method Execute(book: OrderBook, order: Order, price: int) returns (r: Response)
      requires ledger.d == 1 && book.Valid() && ledger !in book.Repr && this !in book.Repr
      requires NewOrder(order) && order.symbol == book.symbol && FreshId(book.content, order.id)
      modifies this`rows, this`log, ledger, book.Repr
      ensures book.Valid() && fresh(book.Repr - old(book.Repr))
      ensures At(book) == Worked(book.symbol, old(At(book)), order, price)
      ensures r == Reply(book.symbol, old(At(book)), order, price)
    {
      var matched, filledQty := Fill(book, order, price);
      ghost var filled := At(book);
      RestLeft(book, matched);
      assert At(book) == filled.(book := book.content);
      r := Created(order.id, matched.status, filledQty);
    }

    /** Match and settle, up to where what is left rests. */
    method Fill(book: OrderBook, order: Order, price: int) returns (matched: Order, filledQty: int)
      requires ledger.d == 1 && book.Valid() && ledger !in book.Repr && this !in book.Repr
      requires NewOrder(order) && FreshId(book.content, order.id)
      modifies this`rows, this`log, ledger, book.Repr
      ensures book.Valid() && book.Repr == old(book.Repr)
      ensures var was := old(At(book)); var walk := WalkOf(book.symbol, was.book, order);
        && At(book) == Worked(book.symbol, was, order, price).(book := was.book.With(Opposite(order.side), walk.book))
        && matched == Matched(order, walk.left) && (matched.filled < matched.qty <==> walk.left > 0)
        && Created(order.id, matched.status, filledQty) == Reply(book.symbol, was, order, price)
      ensures matched.filled < matched.qty ==> Live([matched.AsResting()])
      ensures forall o :: o in book.content.On(matched.side) ==> o.id != matched.id
    {
      var trades;
      trades, matched := MatchNew(book, order);
      assert ledger.Now() == old(ledger.Now());
      filledQty := Record(trades, matched, price, order, WalkOf(book.symbol, old(book.content), order).left);
      assert book.Valid();
    }

    /** Match a new order; what is left of it can rest. */
    method MatchNew(book: OrderBook, order: Order) returns (trades: seq<Trade>, matched: Order)
      requires book.Valid() && NewOrder(order) && FreshId(book.content, order.id)
      modifies book.Repr
      ensures book.Valid() && book.Repr == old(book.Repr)
      ensures var walk := WalkOf(book.symbol, old(book.content), order);
        && trades == walk.trades && matched == Matched(order, walk.left)
        && book.content == old(book.content).With(Opposite(order.side), walk.book)
        && (matched.filled < matched.qty <==> walk.left > 0)
      ensures matched.filled < matched.qty ==> Live([matched.AsResting()])
      ensures forall o :: o in book.content.On(matched.side) ==> o.id != matched.id
    {
      MatchedRests(book, order);
      trades, matched := book.MatchOrder(order);
    }

    /** Add what is left of a limit order to its own side (a repair: by what the book left, not by what settled). */
    method RestLeft(book: OrderBook, matched: Order)
      requires book.Valid() && (matched.typ.Limit? ==> matched.price.Some?)
      requires matched.filled < matched.qty ==> Live([matched.AsResting()])
      requires forall o :: o in book.content.On(matched.side) ==> o.id != matched.id
      modifies book.Repr
      ensures book.Valid() && fresh(book.Repr - old(book.Repr))
      ensures book.content ==
        if matched.typ.Limit? && matched.filled < matched.qty
        then old(book.content).With(matched.side,
          Insert(matched.side, old(book.content).On(matched.side), matched.AsResting()))
        else old(book.content)
    {
      if matched.typ.Limit? && matched.filled < matched.qty {
        book.AddOrder(matched);
      }
    }

    /** What is left after matching can rest: it is open, and its id is still not on the book. */
    lemma MatchedRests(book: OrderBook, order: Order)
      requires book.Valid()
      requires NewOrder(order) && FreshId(book.content, order.id)
      ensures var walk := WalkOf(book.symbol, book.content, order);
        && 0 <= walk.left <= order.qty
        && (walk.left > 0 ==> Live([Matched(order, walk.left).AsResting()]))
        && (forall o :: o in walk.book ==> o.id != order.id)
    {
      var t, s := TakerOf(book.symbol, order), book.content.On(Opposite(order.side));
      assert book.Sides();
      WalkExhaustsAndConserves(t, order.qty, s);
      WalkKeepsAbsent(t, order.qty, s, order.id);
    }

    function BookFor(symbol: Symbol): OrderBook { if symbol.BTCUSD? then btc else eth }

    function OtherBook(symbol: Symbol): OrderBook { if symbol.BTCUSD? then eth else btc }

    /** Execute on the book of the order's symbol; the other book is not involved. */
    method Route(order: Order, price: int) returns (r: Response)
      requires ledger.d == 1 && Apart(btc, eth) && btc.symbol == BTCUSD && eth.symbol == ETHUSD
      requires NewOrder(order) && !order.symbol.Unlisted? && FreshId(BookFor(order.symbol).content, order.id)
      modifies this`rows, this`log, ledger, BookFor(order.symbol).Repr
      ensures Apart(btc, eth) && OtherBook(order.symbol).content == old(OtherBook(order.symbol).content)
      ensures At(BookFor(order.symbol)) == Worked(order.symbol, old(At(BookFor(order.symbol))), order, price)
      ensures r == Reply(order.symbol, old(At(BookFor(order.symbol))), order, price)
    {
      var book := BookFor(order.symbol);
      ghost var other := OtherBook(order.symbol);
      r := Execute(book, order, price);
      other.Undisturbed();
    }

    /** The rest of CreateOrder once `w`'s ledger has the hold. */
    method Finish(req: Request, ghost w: World) returns (r: Response)
      requires ledger.d == 1 && Apart(btc, eth) && btc.symbol == BTCUSD && eth.symbol == ETHUSD
      requires Acceptable(req) && NewOrderOk(w, req)
      requires w == Now().(ledger := w.ledger)
      requires Try(w.ledger, 1, HoldFor(req)) == Ok(ledger.Now())
      modifies this, ledger, btc.Repr, eth.Repr
      ensures Apart(btc, eth) && Now() == Submit(w, req)
      ensures r == Answer(Now(), |w.log|)
    {
      ghost var held := ledger.Now();
      var order := Order(clock, req.user, req.symbol, req.side, req.typ, req.price, req.qty, 0, New, clock);
      clock := clock + 1;
      assert At(BookFor(req.symbol)) == Desk(held, w.rows, w.books[req.symbol], w.log);
      r := Route(order, HoldPrice(req));
      SubmitIs(w, req, held, At(BookFor(req.symbol)));
      OneBookChanges(w.books[BTCUSD], w.books[ETHUSD], BookFor(req.symbol).content);
    }

    method CreateOrder(req: Request) returns (r: Response)
      requires Valid()
      modifies this, ledger, btc.Repr, eth.Repr
      ensures Valid() && Now() == Submit(old(Now()), req)
      ensures r.Created? <==> Enters(old(Now()), req)
      ensures r.Created? ==> r == Answer(Now(), |old(log)|)
    {
      ghost var w := Now();
      if !Acceptable(req) { return Refused; }
      SubmitKeepsRecovery(w, req);
      NewOrderFits(w, req);
      var held := ledger.HoldFunds(req.user, PayCurrency(req.symbol, req.side), Required(req));
      assert Apart(btc, eth);
      if held.Err? { return Refused; }
      r := Finish(req, w);
    }
  }

  /** Field by field, what a submission leaves. */
  lemma SubmitIs(w: World, req: Request, held: State, desk: Desk)
    requires Acceptable(req) && req.symbol in w.books
    requires Try(w.ledger, 1, HoldFor(req)) == Ok(held)
    requires var was := Desk(held, w.rows, w.books[req.symbol], w.log);
      desk == Worked(req.symbol, was, OrderFor(w, req), HoldPrice(req))
    ensures Submit(w, req) == World(desk.ledger, desk.rows, w.books[req.symbol := desk.book], desk.log, w.clock + 1)
    ensures Answer(Submit(w, req), |w.log|) ==
      Reply(req.symbol, Desk(held, w.rows, w.books[req.symbol], w.log), OrderFor(w, req), HoldPrice(req))
  {
    var o := OrderFor(w, req);
    var es := Execs(held, o.id, WalkOf(req.symbol, w.books[req.symbol], o).trades, HoldPrice(req));
    assert (w.log + es)[|w.log|..] == es;
  }

  ghost predicate NewOrderOk(w: World, req: Request) {
    req.symbol in w.books && FreshId(w.books[req.symbol], w.clock)
  }

  lemma NewOrderFits(w: World, req: Request)
    requires RowsGood(w) && Recoverable(w) && Acceptable(req) && req.symbol in w.books
    ensures NewOrderOk(w, req)
  {
    ListsOk(w, req.symbol, Buy);
    ListsOk(w, req.symbol, Sell);
  }
}
