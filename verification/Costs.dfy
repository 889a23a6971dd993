/** What an order trades over its whole life, first as taker, then as maker, against its hold. */
module Costs {
  import opened Types
  import opened Greedy
  import opened OrderBooks
  import opened Ledger
  import opened Recovery
  import opened Trading

  /** The worst price an order can trade at: a market sell takes anything. */
  function LimitOf(typ: OrderType, price: Option<int>): int {
    if typ.Limit? && price.Some? then price.value else 0
  }

  /** All orders but market buys, which pay what the book charges. */
  predicate Limited(typ: OrderType, side: Side) { typ.Limit? || side.Sell? }

  predicate Concerns(e: Exec, id: Id) { e.taker == id || e.trade.makerOrder == id }

  /** Quantity order `id` has traded, on either side of a trade. */
  function Done(log: seq<Exec>, id: Id): int {
    if log == [] then 0 else (if Concerns(log[0], id) then log[0].trade.qty else 0) + Done(log[1..], id)
  }

  /** Value of those trades. */
  function Spent(log: seq<Exec>, id: Id): int {
    if log == [] then 0
    else (if Concerns(log[0], id) then log[0].trade.price * log[0].trade.qty else 0) + Spent(log[1..], id)
  }

  lemma {:induction false} HistoryAdds(a: seq<Exec>, b: seq<Exec>, id: Id)
    ensures Done(a + b, id) == Done(a, id) + Done(b, id)
    ensures Spent(a + b, id) == Spent(a, id) + Spent(b, id)
  {
    if a == [] {
      assert a + b == b;
    } else {
      HistoryAdds(a[1..], b, id);
      assert (a + b)[1..] == a[1..] + b;
    }
  }

  /** `v` is no more than `p` a piece for `q` pieces to a buyer, no less to a seller. */
  predicate Within(side: Side, p: int, q: int, v: int) {
    if side.Buy? then v <= p * q else v >= p * q
  }

  ghost predicate TradesOf(es: seq<Exec>, trades: seq<Trade>) {
    |es| == |trades| && forall i :: 0 <= i < |es| ==> es[i].trade == trades[i]
  }

  lemma {:induction false} TakerDone(es: seq<Exec>, trades: seq<Trade>, id: Id)
    requires TradesOf(es, trades) && forall i :: 0 <= i < |es| ==> es[i].taker == id
    ensures Done(es, id) == Traded(trades)
  {
    if es != [] { TakerDone(es[1..], trades[1..], id); }
  }

  lemma {:induction false} TakerSpent(es: seq<Exec>, trades: seq<Trade>, id: Id, side: Side, limit: int)
    requires TradesOf(es, trades) && forall i :: 0 <= i < |es| ==> es[i].taker == id
    requires Positive(trades)
    requires forall i :: 0 <= i < |trades| ==> Accepts(side, Some(limit), trades[i].price)
    ensures Within(side, limit, Traded(trades), Spent(es, id))
  {
    if es != [] {
      TakerSpent(es[1..], trades[1..], id, side, limit);
      var x := trades[0];
      assert if side.Buy? then x.price * x.qty <= limit * x.qty else x.price * x.qty >= limit * x.qty;
      assert limit * Traded(trades) == limit * x.qty + limit * Traded(trades[1..]);
    }
  }

  lemma {:induction false} MakerHistory(es: seq<Exec>, trades: seq<Trade>, id: Id, p: int)
    requires TradesOf(es, trades) && forall i :: 0 <= i < |es| ==> es[i].taker != id
    requires forall i :: 0 <= i < |trades| && trades[i].makerOrder == id ==> trades[i].price == p
    ensures Done(es, id) == FilledBy(trades, id)
    ensures Spent(es, id) == p * FilledBy(trades, id)
  {
    if es != [] {
      MakerHistory(es[1..], trades[1..], id, p);
      assert trades[0].makerOrder == id ==>
        p * FilledBy(trades, id) == p * trades[0].qty + p * FilledBy(trades[1..], id);
    }
  }

  ghost predicate RowHistory(log: seq<Exec>, r: Order) {
    && Done(log, r.id) == r.filled
    && (Limited(r.typ, r.side) ==> Within(r.side, LimitOf(r.typ, r.price), r.filled, Spent(log, r.id)))
  }

  ghost predicate HistoryOk(w: World) {
    && (forall i :: 0 <= i < |w.log| ==> w.log[i].taker < w.clock && w.log[i].trade.makerOrder < w.clock)
    && (forall i :: 0 <= i < |w.rows| ==> RowHistory(w.log, w.rows[i]))
  }

  lemma {:induction false} NoHistory(log: seq<Exec>, id: Id)
    requires forall i :: 0 <= i < |log| ==> !Concerns(log[i], id)
    ensures Done(log, id) == 0 && Spent(log, id) == 0
  {
    if log != [] { NoHistory(log[1..], id); }
  }

  lemma WithinAdds(side: Side, p: int, q1: int, v1: int, q2: int, v2: int)
    requires Within(side, p, q1, v1) && Within(side, p, q2, v2)
    ensures Within(side, p, q1 + q2, v1 + v2)
  {
    assert p * (q1 + q2) == p * q1 + p * q2;
  }

  /** An order trades as a maker at its own price. */
  lemma MakerPrice(w: World, req: Request, i: int, j: int)
    requires RowsGood(w) && Recoverable(w) && Acceptable(req) && req.symbol in w.books && 0 <= i < |w.rows|
    requires var trades := WalkOf(req.symbol, w.books[req.symbol], OrderFor(w, req)).trades;
      0 <= j < |trades| && trades[j].makerOrder == w.rows[i].id
    ensures WalkOf(req.symbol, w.books[req.symbol], OrderFor(w, req)).trades[j].price ==
            LimitOf(w.rows[i].typ, w.rows[i].price)
  {
    var o, book := OrderFor(w, req), w.books[req.symbol].On(Opposite(req.side));
    ListsOk(w, req.symbol, Opposite(req.side));
    WalkTradesInOrder(TakerOf(req.symbol, o), o.Remaining(), book, j);
    assert book[j] in Rebuild(w.rows, req.symbol, Opposite(req.side));
    RebuildMembers(w.rows, req.symbol, Opposite(req.side), book[j]);
    var m :| RowOf(w.rows, req.symbol, Opposite(req.side), book[j], m);
    assert m == i;
  }

  lemma MakerRowHistory(w: World, req: Request, s: State, i: int)
    requires RowsGood(w) && Recoverable(w) && HistoryOk(w)
    requires Acceptable(req) && req.symbol in w.books && 0 <= i < |w.rows|
    ensures var trades := WalkOf(req.symbol, w.books[req.symbol], OrderFor(w, req)).trades;
      RowHistory(w.log + Execs(s, w.clock, trades, HoldPrice(req)),
        FilledRow(w.rows[i], FilledBy(trades, w.rows[i].id)))
  {
    var trades := WalkOf(req.symbol, w.books[req.symbol], OrderFor(w, req)).trades;
    var r := w.rows[i];
    var q := FilledBy(trades, r.id);
    forall j | 0 <= j < |trades| && trades[j].makerOrder == r.id ensures trades[j].price == LimitOf(r.typ, r.price) {
      MakerPrice(w, req, i, j);
    }
    var es := Execs(s, w.clock, trades, HoldPrice(req));
    HistoryAdds(w.log, es, r.id);
    MakerHistory(es, trades, r.id, LimitOf(r.typ, r.price));
    if Limited(r.typ, r.side) {
      var limit := LimitOf(r.typ, r.price);
      WithinAdds(r.side, limit, r.filled, Spent(w.log, r.id), q, limit * q);
    }
  }

  /** No trade is worse for the taker than its limit. */
  lemma TradeWithinLimit(w: World, req: Request, i: int)
    requires RowsGood(w) && Recoverable(w) && Acceptable(req) && req.symbol in w.books && Limited(req.typ, req.side)
    requires 0 <= i < |WalkOf(req.symbol, w.books[req.symbol], OrderFor(w, req)).trades|
    ensures Accepts(req.side, Some(LimitOf(req.typ, req.price)),
      WalkOf(req.symbol, w.books[req.symbol], OrderFor(w, req)).trades[i].price)
  {
    var o, book := OrderFor(w, req), w.books[req.symbol].On(Opposite(req.side));
    ListsOk(w, req.symbol, Opposite(req.side));
    WalkTradesInOrder(TakerOf(req.symbol, o), o.Remaining(), book, i);
    assert book[i] in Rebuild(w.rows, req.symbol, Opposite(req.side));
    RebuildMembers(w.rows, req.symbol, Opposite(req.side), book[i]);
  }

  lemma TakerRowHistory(w: World, req: Request, s: State)
    requires RowsGood(w) && Recoverable(w) && HistoryOk(w) && Acceptable(req) && req.symbol in w.books
    ensures var o := OrderFor(w, req); var walk := WalkOf(req.symbol, w.books[req.symbol], o);
      RowHistory(w.log + Execs(s, w.clock, walk.trades, HoldPrice(req)), Matched(o, walk.left))
  {
    var o := OrderFor(w, req);
    var walk := WalkOf(req.symbol, w.books[req.symbol], o);
    SubmittedWalk(w, req);
    var limit, es := LimitOf(req.typ, req.price), Execs(s, w.clock, walk.trades, HoldPrice(req));
    NoHistory(w.log, w.clock);
    HistoryAdds(w.log, es, w.clock);
    TakerDone(es, walk.trades, w.clock);
    if Limited(req.typ, req.side) {
      forall i | 0 <= i < |walk.trades| ensures Accepts(req.side, Some(limit), walk.trades[i].price) {
        TradeWithinLimit(w, req, i);
      }
      TakerSpent(es, walk.trades, w.clock, req.side, limit);
    }
  }

  lemma SubmitKeepsHistory(w: World, req: Request)
    requires RowsGood(w) && Recoverable(w) && HistoryOk(w)
    ensures HistoryOk(Submit(w, req))
  {
    var w' := Submit(w, req);
    if w' != w {
      var o, book := OrderFor(w, req), w.books[req.symbol].On(Opposite(req.side));
      var walk := WalkOf(req.symbol, w.books[req.symbol], o);
      forall i | 0 <= i < |w'.rows| ensures RowHistory(w'.log, w'.rows[i]) {
        var held := Apply(w.ledger, 1, HoldFor(req));
        if i < |w.rows| { MakerRowHistory(w, req, held, i); } else { TakerRowHistory(w, req, held); }
      }
      ListsOk(w, req.symbol, Opposite(req.side));
      forall i | 0 <= i < |w'.log| ensures w'.log[i].taker < w'.clock && w'.log[i].trade.makerOrder < w'.clock {
        if i >= |w.log| {
          var j := i - |w.log|;
          WalkTradesInOrder(TakerOf(req.symbol, o), o.Remaining(), book, j);
        }
      }
    }
  }

  /** All a buy has paid plus its limit on what is still unfilled stays within the amount held for it;
      what a sell has traded plus what is unfilled is exactly the amount held. */
  predicate WithinHold(log: seq<Exec>, r: Order) {
    var limit := LimitOf(r.typ, r.price);
    if r.side.Buy? then Spent(log, r.id) + limit * (r.qty - Done(log, r.id)) <= Cost(r.side, limit, r.qty)
    else Done(log, r.id) + (r.qty - r.filled) == Cost(r.side, limit, r.qty)
  }

  /** The lifetime bound. */
  lemma LifetimeCostBound(w: World, i: int)
    requires HistoryOk(w) && 0 <= i < |w.rows| && Limited(w.rows[i].typ, w.rows[i].side)
    ensures WithinHold(w.log, w.rows[i])
  {
    var r := w.rows[i];
    assert RowHistory(w.log, r);
    var limit := LimitOf(r.typ, r.price);
    assert limit * (r.qty - r.filled) == limit * r.qty - limit * r.filled;
  }
}
