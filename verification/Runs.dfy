/** Every run of the trading system: top-ups and orders, in any order, from any opening state. */
module Runs {
  import opened Types
  import opened Rounding
  import opened Greedy
  import opened OrderBooks
  import opened Books
  import opened Ledger
  import opened Settlement
  import opened Recovery
  import opened Trading
  import opened Backing
  import opened Costs

  // ---------------------------------------------------------------- the ledger

  /** Nothing overdrawn, journals balanced, entries in their account's currency, and every user
      account's available + hold equal to the sum of its entries. */
  ghost predicate LedgerOk(s: State) {
    && NonNegative(s) && JournalsBalanced(s) && EntriesTyped(s)
    && (forall k :: k in s.accounts && k.Of? ==> Gap(s, k) == 0)
  }

  ghost predicate SameMoney(s: State, s': State) {
    && s'.accounts.Keys == s.accounts.Keys
    && forall c :: SumOf(s'.entries, OfCurrency(c)) == SumOf(s.entries, OfCurrency(c))
  }

  lemma OpKeepsLedger(s: State, op: Op)
    requires LedgerOk(s) && Distinct(op) && Directed(op)
    ensures LedgerOk(Apply(s, 1, op)) && SameMoney(s, Apply(s, 1, op))
  {
    ExactStorage(op.x);
    ApplyNonNegative(s, 1, op);
    ApplyKeepsJournals(s, 1, op);
    ApplyKeepsTyped(s, 1, op);
    forall k | k in s.accounts && k.Of? ensures Gap(Apply(s, 1, op), k) == 0 {
      ApplyDrift(s, 1, op, k);
    }
  }

  lemma {:induction false} ChainKeepsLedger(s: State, ops: seq<Op>)
    requires LedgerOk(s) && forall i :: 0 <= i < |ops| ==> Distinct(ops[i]) && Directed(ops[i])
    ensures LedgerOk(Chain(s, ops)) && SameMoney(s, Chain(s, ops))
    decreases |ops|
  {
    if ops != [] && Try(s, 1, ops[0]).Ok? {
      OpKeepsLedger(s, ops[0]);
      ChainKeepsLedger(Apply(s, 1, ops[0]), ops[1..]);
    }
  }

  lemma {:induction false} SettleAllKeepsLedger(s: State, trades: seq<Trade>, limit: int)
    requires LedgerOk(s)
    ensures LedgerOk(SettleAll(s, trades, limit)) && SameMoney(s, SettleAll(s, trades, limit))
    decreases |trades|
  {
    if trades != [] {
      ChainKeepsLedger(s, SettleOps(trades[0], limit));
      SettleAllKeepsLedger(Settle(s, trades[0], limit), trades[1..], limit);
    }
  }

  // ---------------------------------------------------------------- the holds

  function OpenOn(books: map<Symbol, Book>, symbol: Symbol, k: Key): int {
    if symbol in books then HeldFor(books[symbol].bids, k) + HeldFor(books[symbol].asks, k) else 0
  }

  /** What all open orders of account `k` can still cost: price times remaining over its user's open
      buys for a USD account, remaining over the open sells for a coin account. */
  function OpenHolds(books: map<Symbol, Book>, k: Key): int {
    OpenOn(books, BTCUSD, k) + OpenOn(books, ETHUSD, k)
  }

  ghost predicate Backed(w: World) {
    forall k :: k in w.ledger.accounts ==> w.ledger.accounts[k].hold == OpenHolds(w.books, k)
  }

  /** Every user has an account in every currency, and every order belongs to a user. */
  ghost predicate Funded(w: World) {
    && (forall u, c, c' :: Of(u, c) in w.ledger.accounts && c != c' ==> Of(u, c') in w.ledger.accounts)
    && (forall i :: 0 <= i < |w.rows| ==> Of(w.rows[i].user, USD) in w.ledger.accounts)
  }

  lemma ListsFit(w: World, symbol: Symbol, side: Side)
    requires RowsGood(w) && Recoverable(w) && Funded(w) && symbol in w.books
    ensures var s := w.books[symbol].On(side);
      && Live(s) && PositivePrices(s)
      && (forall i :: 0 <= i < |s| ==>
            s[i].symbol == symbol && s[i].side == side && HasAccounts(w.ledger, s[i].user, symbol))
  {
    ListsOk(w, symbol, side);
    var s := w.books[symbol].On(side);
    forall i | 0 <= i < |s|
      ensures s[i].price > 0 && s[i].symbol == symbol && s[i].side == side && HasAccounts(w.ledger, s[i].user, symbol)
    {
      assert s[i] in Rebuild(w.rows, symbol, side);
      RebuildMembers(w.rows, symbol, side, s[i]);
      var j :| RowOf(w.rows, symbol, side, s[i], j);
    }
  }

  lemma OpenNonNegative(w: World, symbol: Symbol, k: Key)
    requires RowsGood(w) && Recoverable(w) && Funded(w) && symbol in w.books
    ensures HeldFor(w.books[symbol].bids, k) >= 0 && HeldFor(w.books[symbol].asks, k) >= 0
  {
    ListsFit(w, symbol, Buy);
    ListsFit(w, symbol, Sell);
    HeldForNonNegative(w.books[symbol].On(Buy), k);
    HeldForNonNegative(w.books[symbol].On(Sell), k);
  }

  /** The hold put on the taker's account, as the walk sees it. */
  lemma HoldIsInFlight(s: State, t: Taker, limit: int, qty: int)
    requires NonNegative(s) && Bound(t, limit) && qty > 0
    requires Hold(s, 1, t.user, PayCurrency(t.symbol, t.side), Cost(t.side, limit, qty)).Ok?
    ensures var s' := Hold(s, 1, t.user, PayCurrency(t.symbol, t.side), Cost(t.side, limit, qty)).state;
      && s'.accounts.Keys == s.accounts.Keys && NonNegative(s')
      && (forall k :: k in s.accounts ==> s'.accounts[k].hold == s.accounts[k].hold + InFlight(t, limit, qty, k))
  {
    var k := Of(t.user, PayCurrency(t.symbol, t.side));
    CostLess(t.side, limit, qty, 0);
    ExactWrites(s.accounts[k], Cost(t.side, limit, qty));
  }

  /** After the hold, the order, its list and the accounts fit together. */
  lemma SubmittedFits(w: World, req: Request, s1: State)
    requires RowsGood(w) && Recoverable(w) && BooksOk(w) && Funded(w) && Backed(w) && LedgerOk(w.ledger)
    requires Acceptable(req) && req.symbol in w.books && HasAccounts(w.ledger, req.user, req.symbol)
    requires var t := TakerOf(req.symbol, OrderFor(w, req));
      && s1.accounts.Keys == w.ledger.accounts.Keys && NonNegative(s1)
      && Bound(t, HoldPrice(req))
      && forall k :: k in s1.accounts ==>
           s1.accounts[k].hold == w.ledger.accounts[k].hold + InFlight(t, HoldPrice(req), req.qty, k)
    ensures Fits(s1, TakerOf(req.symbol, OrderFor(w, req)), HoldPrice(req), req.qty,
      w.books[req.symbol].On(Opposite(req.side)))
  {
    var t := TakerOf(req.symbol, OrderFor(w, req));
    var book := w.books[req.symbol].On(Opposite(req.side));
    ListsFit(w, req.symbol, Opposite(req.side));
    forall k | k in s1.accounts
      ensures s1.accounts[k].hold >= HeldFor(book, k) + InFlight(t, HoldPrice(req), req.qty, k)
    {
      OpenNonNegative(w, BTCUSD, k);
      OpenNonNegative(w, ETHUSD, k);
    }
  }

  /** Replacing the two lists of one symbol. */
  lemma OpenHoldsPlace(books: map<Symbol, Book>, symbol: Symbol, o: Order, price: int, k: Key)
    requires symbol in books && (symbol.BTCUSD? || symbol.ETHUSD?)
    requires NewOrder(o) && o.symbol == symbol && (o.typ.Limit? ==> o.price == Some(price))
    requires var walk := WalkOf(symbol, books[symbol], o); walk.left >= 0
    ensures var book, walk := books[symbol].On(Opposite(o.side)), WalkOf(symbol, books[symbol], o);
      OpenHolds(books[symbol := Place(symbol, books[symbol], o)], k) ==
      OpenHolds(books, k) + HeldFor(walk.book, k) - HeldFor(book, k)
      + (if o.typ.Limit? then InFlight(TakerOf(symbol, o), price, walk.left, k) else 0)
  {
    var b, walk := books[symbol], WalkOf(symbol, books[symbol], o);
    var b1, x := b.With(Opposite(o.side), walk.book), Matched(o, walk.left).AsResting();
    HeldForInsert(o.side, b1.On(o.side), x, k);
    if o.typ.Limit? { RestIsInFlight(symbol, o, price, walk.left, k); }
  }

  lemma RestIsInFlight(symbol: Symbol, o: Order, price: int, left: int, k: Key)
    requires o.symbol == symbol && o.price == Some(price)
    ensures HeldBy(Matched(o, left).AsResting(), k) == InFlight(TakerOf(symbol, o), price, left, k)
    ensures InFlight(TakerOf(symbol, o), price, 0, k) == 0
  {
  }

  lemma DropKeepsLedger(s: State, o: Order, price: int, left: int)
    requires LedgerOk(s)
    ensures LedgerOk(DropLeft(s, o, price, left)) && SameMoney(s, DropLeft(s, o, price, left))
  {
    if DropLeft(s, o, price, left) != s {
      OpKeepsLedger(s, ReleaseOp(o.user, PayCurrency(o.symbol, o.side), Cost(o.side, price, left)));
    }
  }

  /** Dropping what is left of a market order gives back exactly its hold. */
  lemma DropReleases(s: State, o: Order, t: Taker, price: int, left: int, k: Key)
    requires t.user == o.user && t.symbol == o.symbol && t.side == o.side && Bound(t, price) && left >= 0
    requires k in s.accounts && Of(o.user, PayCurrency(o.symbol, o.side)) in s.accounts
    requires var pay := Of(o.user, PayCurrency(o.symbol, o.side));
      s.accounts[pay].hold >= InFlight(t, price, left, pay)
    ensures k in DropLeft(s, o, price, left).accounts
    ensures DropLeft(s, o, price, left).accounts[k].hold ==
            s.accounts[k].hold - if o.typ.Limit? then 0 else InFlight(t, price, left, k)
  {
    if o.typ.Market? {
      if left > 0 {
        CostLess(t.side, price, left, 1);
        assert Cost(t.side, price, left) > 0;
        ReleaseMoves(s, ReleaseOp(o.user, PayCurrency(o.symbol, o.side), Cost(o.side, price, left)));
      } else {
        assert price * left == 0;
      }
    }
  }

  ghost predicate Ready(w: World) {
    RowsGood(w) && Recoverable(w) && BooksOk(w) && Funded(w) && Backed(w) && LedgerOk(w.ledger)
  }

  lemma EntersBound(w: World, req: Request)
    requires Enters(w, req)
    ensures Bound(TakerOf(req.symbol, OrderFor(w, req)), HoldPrice(req))
  {
    assert req.side.Buy? ==> HoldPrice(req) * req.qty > 0;
    assert HoldPrice(req) <= 0 ==> HoldPrice(req) * req.qty <= 0;
  }

  /** Once the hold is placed, the order fits its list and accounts. */
  lemma OrderFits(w: World, req: Request)
    requires Ready(w) && Enters(w, req)
    ensures var t, limit, s1 := TakerOf(req.symbol, OrderFor(w, req)), HoldPrice(req), Apply(w.ledger, 1, HoldFor(req));
      && LedgerOk(s1) && SameMoney(w.ledger, s1)
      && (forall k :: k in s1.accounts ==>
            s1.accounts[k].hold == w.ledger.accounts[k].hold + InFlight(t, limit, req.qty, k))
      && Fits(s1, t, limit, req.qty, w.books[req.symbol].On(Opposite(req.side)))
  {
    var t, limit, s1 := TakerOf(req.symbol, OrderFor(w, req)), HoldPrice(req), Apply(w.ledger, 1, HoldFor(req));
    EntersBound(w, req);
    OpKeepsLedger(w.ledger, HoldFor(req));
    HoldIsInFlight(w.ledger, t, limit, req.qty);
    SubmittedFits(w, req, s1);
  }

  /** Then every trade of the order settles in full, unless it is a market buy. */
  lemma OrderSettles(w: World, req: Request)
    requires Ready(w) && Enters(w, req)
    ensures Settles(Apply(w.ledger, 1, HoldFor(req)), TakerOf(req.symbol, OrderFor(w, req)), HoldPrice(req), req.qty,
                    w.books[req.symbol].On(Opposite(req.side)))
  {
    OrderFits(w, req);
    WalkSettles(Apply(w.ledger, 1, HoldFor(req)), TakerOf(req.symbol, OrderFor(w, req)), HoldPrice(req), req.qty,
                w.books[req.symbol].On(Opposite(req.side)));
  }

  lemma LeftIsHeld(s: State, t: Taker, limit: int, left: int, book: seq<Resting>, k: Key)
    requires Fits(s, t, limit, left, book) && k in s.accounts
    ensures s.accounts[k].hold >= InFlight(t, limit, left, k)
  {
    HeldForNonNegative(book, k);
  }

  /** What is on hold afterwards is what the open orders can still cost. */
  /** Once the order is placed and a market remainder dropped, a hold is again what is open. */
  lemma PlacedHolds(books: map<Symbol, Book>, symbol: Symbol, o: Order, limit: int, s2: State, k: Key)
    requires symbol in books && (symbol.BTCUSD? || symbol.ETHUSD?)
    requires NewOrder(o) && o.symbol == symbol && (o.typ.Limit? ==> o.price == Some(limit))
    requires var t, walk := TakerOf(symbol, o), WalkOf(symbol, books[symbol], o);
      && Fits(s2, t, limit, walk.left, walk.book) && k in s2.accounts
      && s2.accounts[k].hold == OpenHolds(books, k) + HeldFor(walk.book, k)
                                - HeldFor(books[symbol].On(Opposite(o.side)), k) + InFlight(t, limit, walk.left, k)
    ensures var s3 := DropLeft(s2, o, limit, WalkOf(symbol, books[symbol], o).left);
      k in s3.accounts && s3.accounts[k].hold == OpenHolds(books[symbol := Place(symbol, books[symbol], o)], k)
  {
    var t, walk := TakerOf(symbol, o), WalkOf(symbol, books[symbol], o);
    OpenHoldsPlace(books, symbol, o, limit, k);
    LeftIsHeld(s2, t, limit, walk.left, walk.book, Of(o.user, PayCurrency(symbol, o.side)));
    DropReleases(s2, o, t, limit, walk.left, k);
  }

  lemma OrderHolds(w: World, req: Request, s2: State, k: Key)
    requires Ready(w) && Enters(w, req) && k in w.ledger.accounts
    requires var o := OrderFor(w, req);
      var t, limit, book := TakerOf(req.symbol, o), HoldPrice(req), w.books[req.symbol].On(Opposite(req.side));
      var walk := Walk(t, req.qty, book);
      && Fits(s2, t, limit, walk.left, walk.book)
      && k in s2.accounts
      && s2.accounts[k].hold == w.ledger.accounts[k].hold + InFlight(t, limit, req.qty, k)
                                + Change(t, limit, req.qty, book, walk.left, walk.book, k)
    ensures var o := OrderFor(w, req); var walk := WalkOf(req.symbol, w.books[req.symbol], o);
      var s3 := DropLeft(s2, o, HoldPrice(req), walk.left);
      && k in s3.accounts
      && s3.accounts[k].hold == OpenHolds(w.books[req.symbol := Place(req.symbol, w.books[req.symbol], o)], k)
  {
    var o := OrderFor(w, req);
    assert w.ledger.accounts[k].hold == OpenHolds(w.books, k);
    assert o.Remaining() == req.qty && o.symbol == req.symbol && o.side == req.side;
    PlacedHolds(w.books, req.symbol, o, HoldPrice(req), s2, k);
  }

  /** The holds back the open orders after every submission, and unless it is a market buy every trade
      settles in full. */
  lemma SubmitKeepsBacking(w: World, req: Request)
    requires Ready(w)
    ensures var w' := Submit(w, req); Backed(w') && LedgerOk(w'.ledger) && SameMoney(w.ledger, w'.ledger)
    ensures Enters(w, req) && Limited(req.typ, req.side) ==>
      var trades := WalkOf(req.symbol, w.books[req.symbol], OrderFor(w, req)).trades;
      AllSettle(Apply(w.ledger, 1, HoldFor(req)), trades, HoldPrice(req))
  {
    if Enters(w, req) {
      var w', o, limit := Submit(w, req), OrderFor(w, req), HoldPrice(req);
      var s1, walk := Apply(w.ledger, 1, HoldFor(req)), WalkOf(req.symbol, w.books[req.symbol], o);
      var s2 := SettleAll(s1, walk.trades, limit);
      OrderFits(w, req);
      OrderSettles(w, req);
      SettleAllKeepsLedger(s1, walk.trades, limit);
      DropKeepsLedger(s2, o, limit, walk.left);
      forall k | k in w'.ledger.accounts ensures w'.ledger.accounts[k].hold == OpenHolds(w'.books, k) {
        OrderHolds(w, req, s2, k);
      }
    }
  }

  // ---------------------------------------------------------------- whole runs

  ghost predicate Good(w: World) {
    Ready(w) && HistoryOk(w)
  }

  datatype Event = SubmitEvent(req: Request) | TopUpEvent(user: Id, x: int)

  function Handle(w: World, e: Event): World {
    match e
    case SubmitEvent(req) => Submit(w, req)
    case TopUpEvent(u, x) => w.(ledger := Apply(w.ledger, 1, TopUpOp(u, x)))
  }

  function RunWorld(w: World, events: seq<Event>): World
    decreases |events|
  {
    if events == [] then w else RunWorld(Handle(w, events[0]), events[1..])
  }

  lemma TopUpKeepsHolds(s: State, user: Id, x: int, k: Key)
    requires k in s.accounts
    ensures k in Apply(s, 1, TopUpOp(user, x)).accounts
    ensures Apply(s, 1, TopUpOp(user, x)).accounts[k].hold == s.accounts[k].hold
  {
  }

  lemma SubmitKeepsFunded(w: World, req: Request)
    requires Funded(w) && SameMoney(w.ledger, Submit(w, req).ledger)
    ensures Funded(Submit(w, req))
  {
    var w' := Submit(w, req);
    if w' != w {
      forall i | 0 <= i < |w'.rows| ensures Of(w'.rows[i].user, USD) in w'.ledger.accounts {
        if i < |w.rows| {
          assert w'.rows[i].user == w.rows[i].user;
        } else {
          assert HasAccounts(w.ledger, req.user, req.symbol);
        }
      }
    }
  }

  lemma TopUpKeepsGood(w: World, user: Id, x: int)
    requires Good(w)
    ensures Good(w.(ledger := Apply(w.ledger, 1, TopUpOp(user, x))))
    ensures SameMoney(w.ledger, Apply(w.ledger, 1, TopUpOp(user, x)))
  {
    OpKeepsLedger(w.ledger, TopUpOp(user, x));
    var w' := w.(ledger := Apply(w.ledger, 1, TopUpOp(user, x)));
    forall k | k in w'.ledger.accounts ensures w'.ledger.accounts[k].hold == OpenHolds(w'.books, k) {
      TopUpKeepsHolds(w.ledger, user, x, k);
    }
    assert Recoverable(w') && RowsGood(w') && HistoryOk(w') && BooksOk(w') && Funded(w');
  }

  lemma HandleKeepsGood(w: World, e: Event)
    requires Good(w)
    ensures Good(Handle(w, e)) && SameMoney(w.ledger, Handle(w, e).ledger)
  {
    match e {
      case SubmitEvent(req) =>
        SubmitKeepsRecovery(w, req);
        SubmitKeepsBooks(w, req);
        SubmitKeepsBacking(w, req);
        SubmitKeepsHistory(w, req);
        SubmitKeepsFunded(w, req);
      case TopUpEvent(u, x) => TopUpKeepsGood(w, u, x);
    }
  }

  /** Every reachable state is good. */
  lemma {:induction false} RunKeepsGood(w: World, events: seq<Event>)
    requires Good(w)
    ensures Good(RunWorld(w, events)) && SameMoney(w.ledger, RunWorld(w, events).ledger)
    decreases |events|
  {
    if events != [] {
      HandleKeepsGood(w, events[0]);
      RunKeepsGood(Handle(w, events[0]), events[1..]);
    }
  }

  /** Any non-negative opening balances will do, given matching balanced opening entries. */
  function Opening(s: State): World {
    World(s, [], map[BTCUSD := Book([], []), ETHUSD := Book([], [])], [], 0)
  }

  lemma OpeningIsGood(s: State)
    requires LedgerOk(s) && (forall k :: k in s.accounts ==> s.accounts[k].hold == 0)
    requires forall u, c, c' :: Of(u, c) in s.accounts && c != c' ==> Of(u, c') in s.accounts
    ensures Good(Opening(s))
  {
    var w := Opening(s);
    forall symbol, side | symbol in w.books ensures w.books[symbol].On(side) == Rebuild(w.rows, symbol, side) {
    }
    forall k | k in s.accounts ensures OpenHolds(w.books, k) == 0 {
    }
  }

  /** Over every run: each account's hold is exactly what its user's open orders can still cost, and
      its available + hold is the sum of its ledger entries. */
  lemma HoldsAndBalancesOverRuns(s: State, events: seq<Event>, k: Key)
    requires Good(Opening(s)) && k in s.accounts
    ensures var w := RunWorld(Opening(s), events);
      && k in w.ledger.accounts
      && w.ledger.accounts[k].hold == OpenHolds(w.books, k)
      && (k.Of? ==> w.ledger.accounts[k].Balance() == SumOf(w.ledger.entries, OfAccount(k)))
      && w.ledger.accounts[k].available >= 0
  {
    RunKeepsGood(Opening(s), events);
  }

  /** Over every run: no limit order or market sell ever costs more than was put on hold for it. */
  lemma LifetimeCostOverRuns(s: State, events: seq<Event>, i: int)
    requires Good(Opening(s))
    requires 0 <= i < |RunWorld(Opening(s), events).rows|
    requires var r := RunWorld(Opening(s), events).rows[i]; Limited(r.typ, r.side)
    ensures WithinHold(RunWorld(Opening(s), events).log, RunWorld(Opening(s), events).rows[i])
  {
    RunKeepsGood(Opening(s), events);
    LifetimeCostBound(RunWorld(Opening(s), events), i);
  }

  /** The books a restart loads from the order table. */
  function Reloaded(table: seq<Order>): map<Symbol, Book> {
    var rows := ByCreation(table);
    map[BTCUSD := Book(Rebuild(rows, BTCUSD, Buy), Rebuild(rows, BTCUSD, Sell)),
        ETHUSD := Book(Rebuild(rows, ETHUSD, Buy), Rebuild(rows, ETHUSD, Sell))]
  }

  lemma ReloadIsLive(w: World, table: seq<Order>)
    requires RowsGood(w) && Recoverable(w) && BooksOk(w) && multiset(table) == multiset(w.rows)
    ensures w.books == Reloaded(table)
  {
    QueryFindsRows(table, w.rows);
    forall symbol | symbol in w.books ensures w.books[symbol] == Reloaded(table)[symbol] {
      assert w.books[symbol].On(Buy) == Rebuild(w.rows, symbol, Buy);
      assert w.books[symbol].On(Sell) == Rebuild(w.rows, symbol, Sell);
    }
  }

  /** Over every run: a restart that reloads the rows, however the table stores them, rebuilds exactly
      the live books, so whatever comes later is the same. */
  lemma RecoveryOverRuns(s: State, before: seq<Event>, table: seq<Order>, later: seq<Event>)
    requires Good(Opening(s))
    requires multiset(table) == multiset(RunWorld(Opening(s), before).rows)
    ensures var w := RunWorld(Opening(s), before);
      && w.books == Reloaded(table)
      && RunWorld(w.(books := Reloaded(table)), later) == RunWorld(Opening(s), before + later)
  {
    var w := RunWorld(Opening(s), before);
    assert Good(w) by { RunKeepsGood(Opening(s), before); }
    ReloadIsLive(w, table);
    RunSplits(Opening(s), before, later);
    assert w.(books := Reloaded(table)) == w;
  }

  /** Over every run: a restart that reloads the rows as NUMERIC(30,10) keeps them, `d` subunits to the
      stored unit, finds the live books exactly when every active row is a whole number of stored units. */
  lemma StoredRecoveryIff(s: State, events: seq<Event>, table: seq<Order>, d: int)
    requires Good(Opening(s)) && d > 0
    requires multiset(table) == multiset(StoredRows(RunWorld(Opening(s), events).rows, d))
    ensures var w := RunWorld(Opening(s), events);
      Reloaded(table) == w.books <==>
      forall symbol, side :: symbol in w.books ==> ActiveWhole(w.rows, symbol, side, d)
  {
    var w := RunWorld(Opening(s), events);
    assert RowsGood(w) && Recoverable(w) && BooksOk(w) by { RunKeepsGood(Opening(s), events); }
    StoredKeepsOrder(w.rows, d);
    QueryFindsRows(table, StoredRows(w.rows, d));
    StoredBooksIff(w, table, d);
  }

  lemma StoredKeepsOrder(rows: seq<Order>, d: int)
    requires d > 0 && RowsOk(rows)
    ensures Strict(StoredRows(rows, d))
  {
  }

  lemma StoredListIff(w: World, table: seq<Order>, symbol: Symbol, side: Side, d: int)
    requires d > 0 && RowsGood(w) && Recoverable(w) && ByCreation(table) == StoredRows(w.rows, d)
    requires symbol in w.books && symbol in Reloaded(table)
    ensures Reloaded(table)[symbol].On(side) == w.books[symbol].On(side) <==> ActiveWhole(w.rows, symbol, side, d)
  {
    StoredReloadIff(w.rows, symbol, side, d);
    assert Reloaded(table)[symbol].On(side) == Rebuild(ByCreation(table), symbol, side);
  }

  lemma SameBooks(a: map<Symbol, Book>, b: map<Symbol, Book>)
    requires a.Keys == b.Keys
    ensures a == b <==> forall symbol, side :: symbol in a ==> a[symbol].On(side) == b[symbol].On(side)
  {
    if forall symbol, side :: symbol in a ==> a[symbol].On(side) == b[symbol].On(side) {
      forall symbol | symbol in a ensures a[symbol] == b[symbol] {
        assert a[symbol].On(Buy) == b[symbol].On(Buy) && a[symbol].On(Sell) == b[symbol].On(Sell);
      }
    }
  }

  lemma StoredBooksIff(w: World, table: seq<Order>, d: int)
    requires d > 0 && RowsGood(w) && Recoverable(w) && BooksOk(w) && ByCreation(table) == StoredRows(w.rows, d)
    ensures Reloaded(table) == w.books <==>
            forall symbol, side :: symbol in w.books ==> ActiveWhole(w.rows, symbol, side, d)
  {
    SameBooks(w.books, Reloaded(table));
    forall symbol, side | symbol in w.books
      ensures Reloaded(table)[symbol].On(side) == w.books[symbol].On(side) <==> ActiveWhole(w.rows, symbol, side, d)
    {
      StoredListIff(w, table, symbol, side, d);
    }
  }

  /** Over every run: every side of every book is sorted by price, then arrival. */
  lemma PriceThenArrivalOverRuns(s: State, events: seq<Event>, symbol: Symbol, side: Side)
    requires Good(Opening(s)) && symbol in RunWorld(Opening(s), events).books
    ensures var list := RunWorld(Opening(s), events).books[symbol].On(side);
      PriceSorted(side, list) && ArrivalSorted(list)
  {
    RunKeepsGood(Opening(s), events);
    var w := RunWorld(Opening(s), events);
    assert w.books[symbol].On(side) == Rebuild(w.rows, symbol, side);
    RebuildInArrivalOrder(w.rows, symbol, side);
  }

  lemma {:induction false} RunSplits(w: World, a: seq<Event>, b: seq<Event>)
    ensures RunWorld(w, a + b) == RunWorld(RunWorld(w, a), b)
    decreases |a|
  {
    if a == [] {
      assert a + b == b;
    } else {
      RunSplits(Handle(w, a[0]), a[1..], b);
      assert (a + b)[1..] == a[1..] + b;
    }
  }
}
