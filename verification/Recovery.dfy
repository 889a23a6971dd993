/** Rebuilding a book from the order rows (internal/orders/service.go:345-359 over
    internal/database/order.go:134-175). */
module Recovery {
  import opened Types
  import opened Rounding
  import opened Greedy
  import opened BookView

  /** The rows a book is rebuilt from: NEW or PARTIALLY_FILLED limit orders. (The source loads market
      orders too, and dereferences their missing price.) */
  predicate Active(r: Order, symbol: Symbol, side: Side) {
    r.symbol == symbol && r.side == side && r.typ.Limit? && !r.status.Filled?
  }

  /** Add the active rows to an empty book, in row order. */
  function Rebuild(rows: seq<Order>, symbol: Symbol, side: Side): seq<Resting> {
    if rows == [] then []
    else
      var earlier := Rebuild(rows[..|rows| - 1], symbol, side);
      var r := rows[|rows| - 1];
      if Active(r, symbol, side) then Insert(side, earlier, r.AsResting()) else earlier
  }

  ghost predicate RowOk(r: Order) {
    && r.qty > 0 && 0 <= r.filled <= r.qty && r.status == StatusOf(r.qty, r.filled)
    && (r.typ.Limit? ==> r.price.Some? && r.price.value > 0)
  }

  /** Creation times, and ids with them, are distinct and increasing. */
  ghost predicate RowsOk(rows: seq<Order>) {
    && (forall i :: 0 <= i < |rows| ==> RowOk(rows[i]) && rows[i].at == rows[i].id)
    && (forall i, j :: 0 <= i < j < |rows| ==> rows[i].id < rows[j].id)
  }

  ghost predicate RowOf(rows: seq<Order>, symbol: Symbol, side: Side, o: Resting, i: int) {
    0 <= i < |rows| && Active(rows[i], symbol, side) && rows[i].AsResting() == o
  }

  lemma {:induction false} RebuildMembers(rows: seq<Order>, symbol: Symbol, side: Side, o: Resting)
    requires o in Rebuild(rows, symbol, side)
    ensures exists i :: RowOf(rows, symbol, side, o, i)
    decreases |rows|
  {
    var n := |rows| - 1;
    var earlier := Rebuild(rows[..n], symbol, side);
    if Active(rows[n], symbol, side) { InsertMembers(side, earlier, rows[n].AsResting(), o); }
    if o in earlier {
      RebuildMembers(rows[..n], symbol, side, o);
      var i :| RowOf(rows[..n], symbol, side, o, i);
      assert RowOf(rows, symbol, side, o, i);
    } else {
      assert RowOf(rows, symbol, side, o, n);
    }
  }

  lemma {:induction false} RebuildOk(rows: seq<Order>, symbol: Symbol, side: Side)
    requires RowsOk(rows)
    ensures ListOk(side, Rebuild(rows, symbol, side))
    decreases |rows|
  {
    if rows != [] {
      var n := |rows| - 1;
      RebuildOk(rows[..n], symbol, side);
      if Active(rows[n], symbol, side) {
        var earlier := Rebuild(rows[..n], symbol, side);
        forall i | 0 <= i < |earlier| ensures earlier[i].id != rows[n].id {
          assert earlier[i] in earlier;
          RebuildMembers(rows[..n], symbol, side, earlier[i]);
        }
        InsertOk(side, earlier, rows[n].AsResting());
      }
    }
  }

  // ---------------------------------------------------------------- arrival

  /** Among orders at one price, whoever came first stands first. */
  ghost predicate ArrivalSorted(s: seq<Resting>) {
    forall i, j :: 0 <= i < j < |s| && s[i].price == s[j].price ==> s[i].at < s[j].at
  }

  /** The newest order goes behind its price. */
  lemma {:induction false} InsertKeepsArrival(side: Side, s: seq<Resting>, x: Resting)
    requires PriceSorted(side, s) && ArrivalSorted(s) && forall i :: 0 <= i < |s| ==> s[i].at < x.at
    ensures ArrivalSorted(Insert(side, s, x))
  {
    if s == [] || Better(side, x.price, s[0].price) {
      forall i | 0 <= i < |s| ensures s[i].price != x.price {
        if i > 0 { assert !Better(side, s[i].price, s[0].price); }
      }
    } else {
      var tail := Insert(side, s[1..], x);
      InsertKeepsArrival(side, s[1..], x);
      forall i | 0 <= i < |tail| && tail[i].price == s[0].price ensures s[0].at < tail[i].at {
        InsertMembers(side, s[1..], x, tail[i]);
        if tail[i] != x {
          var j :| 0 <= j < |s[1..]| && s[1..][j] == tail[i];
          assert s[j + 1] == tail[i];
        }
      }
    }
  }

  /** A rebuilt list is sorted by price, then arrival. */
  lemma {:induction false} RebuildInArrivalOrder(rows: seq<Order>, symbol: Symbol, side: Side)
    requires RowsOk(rows)
    ensures PriceSorted(side, Rebuild(rows, symbol, side)) && ArrivalSorted(Rebuild(rows, symbol, side))
    decreases |rows|
  {
    if rows != [] {
      var n := |rows| - 1;
      var earlier := Rebuild(rows[..n], symbol, side);
      RebuildInArrivalOrder(rows[..n], symbol, side);
      RebuildOk(rows, symbol, side);
      forall i | 0 <= i < |earlier| ensures earlier[i].at < rows[n].at {
        assert earlier[i] in earlier;
        RebuildMembers(rows[..n], symbol, side, earlier[i]);
      }
      if Active(rows[n], symbol, side) { InsertKeepsArrival(side, earlier, rows[n].AsResting()); }
    }
  }

  // ---------------------------------------------------------------- fills, in rows and in lists

  /** A row once its order has received `q`. */
  function FilledRow(r: Order, q: int): Order {
    r.(filled := r.filled + q, status := StatusOf(r.qty, r.filled + q))
  }

  function FillRows(rows: seq<Order>, trades: seq<Trade>): seq<Order> {
    seq(|rows|, i requires 0 <= i < |rows| => FilledRow(rows[i], FilledBy(trades, rows[i].id)))
  }

  ghost predicate Positive(trades: seq<Trade>) {
    forall i :: 0 <= i < |trades| ==> trades[i].qty > 0
  }

  lemma {:induction false} FilledByNonNegative(trades: seq<Trade>, id: Id)
    requires Positive(trades)
    ensures FilledBy(trades, id) >= 0
  {
    if trades != [] { FilledByNonNegative(trades[1..], id); }
  }

  lemma {:induction false} AfterTradesPrices(side: Side, s: seq<Resting>, trades: seq<Trade>, p: int)
    requires forall i :: 0 <= i < |s| ==> Better(side, p, s[i].price)
    ensures forall i :: 0 <= i < |AfterTrades(s, trades)| ==> Better(side, p, AfterTrades(s, trades)[i].price)
  {
    if s != [] { AfterTradesPrices(side, s[1..], trades, p); }
  }

  /** Filling commutes with adding an order. */
  lemma {:induction false} AfterTradesInsert(side: Side, s: seq<Resting>, x: Resting, trades: seq<Trade>)
    requires PriceSorted(side, s)
    ensures var q, rest := FilledBy(trades, x.id), AfterTrades(s, trades);
      AfterTrades(Insert(side, s, x), trades) ==
      if q == x.Remaining() then rest else Insert(side, rest, if q == 0 then x else Fill(x, q))
  {
    if s == [] {
    } else if Better(side, x.price, s[0].price) {
      forall i | 0 <= i < |s| ensures Better(side, x.price, s[i].price) {
        if i > 0 { assert !Better(side, s[i].price, s[0].price); }
      }
      AfterTradesPrices(side, s, trades, x.price);
      assert ([x] + s)[1..] == s;
    } else {
      AfterTradesInsert(side, s[1..], x, trades);
      assert ([s[0]] + Insert(side, s[1..], x))[1..] == Insert(side, s[1..], x);
      var q := FilledBy(trades, s[0].id);
      var kept := if q == s[0].Remaining() then [] else if q == 0 then [s[0]] else [Fill(s[0], q)];
      var x' := if FilledBy(trades, x.id) == 0 then x else Fill(x, FilledBy(trades, x.id));
      InsertPast(side, kept, AfterTrades(s[1..], trades), x');
      assert Insert(side, s, x)[0] == s[0];
    }
  }

  /** Rebuilding from rows with the fills persisted is filling the rebuilt list. */
  lemma {:induction false} RebuildAfterTrades(rows: seq<Order>, symbol: Symbol, side: Side, trades: seq<Trade>)
    requires RowsOk(rows) && Positive(trades)
    requires forall i :: 0 <= i < |rows| && rows[i].status.Filled? ==> FilledBy(trades, rows[i].id) == 0
    ensures Rebuild(FillRows(rows, trades), symbol, side) == AfterTrades(Rebuild(rows, symbol, side), trades)
    decreases |rows|
  {
    if rows != [] {
      var n := |rows| - 1;
      var r, q := rows[n], FilledBy(trades, rows[n].id);
      FilledByNonNegative(trades, r.id);
      RebuildAfterTrades(rows[..n], symbol, side, trades);
      assert FillRows(rows, trades)[..n] == FillRows(rows[..n], trades);
      RebuildOk(rows[..n], symbol, side);
      if Active(r, symbol, side) {
        AfterTradesInsert(side, Rebuild(rows[..n], symbol, side), r.AsResting(), trades);
        FilledRowRests(r, q);
      }
    }
  }

  lemma FilledRowRests(r: Order, q: int)
    requires RowOk(r) && !r.status.Filled? && q >= 0
    ensures FilledRow(r, q).status.Filled? <==> q == r.AsResting().Remaining()
    ensures 0 < q != r.AsResting().Remaining() ==> FilledRow(r, q).AsResting() == Fill(r.AsResting(), q)
    ensures FilledRow(r, 0) == r
  {
  }

  // ---------------------------------------------------------------- the query

  /** ORDER BY created_at. */
  function ByCreation(table: seq<Order>): seq<Order> {
    if table == [] then [] else PlaceRow(table[0], ByCreation(table[1..]))
  }

  function PlaceRow(r: Order, sorted: seq<Order>): seq<Order> {
    if sorted == [] || r.at <= sorted[0].at then [r] + sorted else [sorted[0]] + PlaceRow(r, sorted[1..])
  }

  ghost predicate Increasing(s: seq<Order>) {
    forall i, j :: 0 <= i < j < |s| ==> s[i].at <= s[j].at
  }

  lemma {:induction false} PlaceRowMultiset(r: Order, s: seq<Order>)
    ensures multiset(PlaceRow(r, s)) == multiset{r} + multiset(s)
  {
    if s != [] && r.at > s[0].at {
      PlaceRowMultiset(r, s[1..]);
      assert s == [s[0]] + s[1..];
    }
  }

  lemma {:induction false} PlaceRowOk(r: Order, s: seq<Order>)
    requires Increasing(s)
    ensures Increasing(PlaceRow(r, s))
  {
    if s != [] && r.at > s[0].at {
      PlaceRowOk(r, s[1..]);
      PlaceRowMultiset(r, s[1..]);
      var tail := PlaceRow(r, s[1..]);
      forall i | 0 <= i < |tail| ensures s[0].at <= tail[i].at {
        assert tail[i] in multiset(tail);
        assert tail[i] == r || tail[i] in s[1..];
      }
    }
  }

  lemma {:induction false} ByCreationOk(table: seq<Order>)
    ensures Increasing(ByCreation(table)) && multiset(ByCreation(table)) == multiset(table)
  {
    if table != [] {
      ByCreationOk(table[1..]);
      PlaceRowOk(table[0], ByCreation(table[1..]));
      PlaceRowMultiset(table[0], ByCreation(table[1..]));
      assert table == [table[0]] + table[1..];
    }
  }

  ghost predicate Strict(s: seq<Order>) {
    forall i, j :: 0 <= i < j < |s| ==> s[i].at < s[j].at
  }

  lemma SameFirst(a: seq<Order>, b: seq<Order>)
    requires Increasing(a) && multiset(a) == multiset(b) && b != [] && Strict(b)
    ensures a != [] && a[0] == b[0]
  {
    assert b[0] in multiset(a);
    var k :| 0 <= k < |a| && a[k] == b[0];
    assert a[0] in multiset(b);
    var l :| 0 <= l < |b| && b[l] == a[0];
    assert forall j :: 0 < j < |b| ==> b[0].at < b[j].at;
    assert forall i :: 0 < i < |a| ==> a[0].at <= a[i].at;
  }

  lemma TailMultiset(s: seq<Order>)
    requires s != []
    ensures s == [s[0]] + s[1..] && multiset(s[1..]) == multiset(s) - multiset{s[0]}
    ensures Increasing(s) ==> Increasing(s[1..])
  {
    assert s == [s[0]] + s[1..];
  }

  lemma StrictTail(s: seq<Order>)
    requires Strict(s) && s != []
    ensures Strict(s[1..])
  {
  }

  /** With distinct creation times there is one order of the rows by creation. */
  lemma {:induction false} OneOrder(a: seq<Order>, b: seq<Order>)
    requires Increasing(a) && multiset(a) == multiset(b) && Strict(b)
    ensures a == b
    decreases |b|
  {
    if b == [] {
      assert |multiset(a)| == |a|;
    } else {
      SameFirst(a, b);
      TailMultiset(a);
      TailMultiset(b);
      StrictTail(b);
      OneOrder(a[1..], b[1..]);
    }
  }

  /** The query returns the rows in creation order however the table stores them. */
  lemma QueryFindsRows(table: seq<Order>, rows: seq<Order>)
    requires multiset(table) == multiset(rows) && Strict(rows)
    ensures ByCreation(table) == rows
  {
    ByCreationOk(table);
    OneOrder(ByCreation(table), rows);
  }

  // ---------------------------------------------------------------- rows as NUMERIC(30,10)

  function Stored(x: int, d: int): int
    requires d > 0
  {
    Round(x, d) * d
  }

  /** A row as the table keeps it, prices and quantities counted in subunits, `d` to a stored unit. */
  function StoredRow(r: Order, d: int): Order
    requires d > 0
  {
    r.(price := if r.price.Some? then Some(Stored(r.price.value, d)) else None,
       qty := Stored(r.qty, d), filled := Stored(r.filled, d))
  }

  function StoredRows(rows: seq<Order>, d: int): seq<Order>
    requires d > 0
  {
    seq(|rows|, i requires 0 <= i < |rows| => StoredRow(rows[i], d))
  }

  /** Price, quantity and fill are whole numbers of stored units. */
  predicate Whole(r: Order, d: int)
    requires d > 0
  {
    (r.price.Some? ==> r.price.value % d == 0) && r.qty % d == 0 && r.filled % d == 0
  }

  ghost predicate ActiveWhole(rows: seq<Order>, symbol: Symbol, side: Side, d: int)
    requires d > 0
  {
    forall i :: 0 <= i < |rows| && Active(rows[i], symbol, side) ==> Whole(rows[i], d)
  }

  lemma StoredRowIs(r: Order, d: int)
    requires d > 0
    ensures StoredRow(r, d) == r <==> Whole(r, d)
    ensures r.price.Some? ==> (StoredRow(r, d).AsResting() == r.AsResting() <==> Whole(r, d))
  {
    if r.price.Some? { StoredIsWhole(r.price.value, d); }
    StoredIsWhole(r.qty, d);
    StoredIsWhole(r.filled, d);
  }

  lemma {:induction false} WholeRowsReload(rows: seq<Order>, symbol: Symbol, side: Side, d: int)
    requires d > 0 && ActiveWhole(rows, symbol, side, d)
    ensures Rebuild(StoredRows(rows, d), symbol, side) == Rebuild(rows, symbol, side)
    decreases |rows|
  {
    if rows != [] {
      var n := |rows| - 1;
      assert StoredRows(rows, d)[..n] == StoredRows(rows[..n], d);
      WholeRowsReload(rows[..n], symbol, side, d);
      if Active(rows[n], symbol, side) { StoredRowIs(rows[n], d); }
    }
  }

  /** Every active row rests. */
  lemma {:induction false} RowRests(rows: seq<Order>, symbol: Symbol, side: Side, i: int)
    requires 0 <= i < |rows| && Active(rows[i], symbol, side)
    ensures rows[i].AsResting() in Rebuild(rows, symbol, side)
    decreases |rows|
  {
    var n := |rows| - 1;
    var earlier := Rebuild(rows[..n], symbol, side);
    if i < n {
      RowRests(rows[..n], symbol, side, i);
      assert rows[..n][i] == rows[i];
    }
    if Active(rows[n], symbol, side) {
      InsertMembers(side, earlier, rows[n].AsResting(), rows[i].AsResting());
    }
  }

  lemma ReloadedRowIsWhole(rows: seq<Order>, symbol: Symbol, side: Side, d: int, i: int)
    requires d > 0 && RowsOk(rows) && 0 <= i < |rows| && Active(rows[i], symbol, side)
    requires Rebuild(StoredRows(rows, d), symbol, side) == Rebuild(rows, symbol, side)
    ensures Whole(rows[i], d)
  {
    var o := StoredRow(rows[i], d).AsResting();
    RowRests(StoredRows(rows, d), symbol, side, i);
    RebuildMembers(rows, symbol, side, o);
    var j :| RowOf(rows, symbol, side, o, j);
    assert rows[j].id == rows[i].id;
    StoredRowIs(rows[i], d);
  }

  /** A restart from stored rows finds a list as it is live exactly when every active row is a whole number
      of stored units. */
  lemma StoredReloadIff(rows: seq<Order>, symbol: Symbol, side: Side, d: int)
    requires d > 0 && RowsOk(rows)
    ensures Rebuild(StoredRows(rows, d), symbol, side) == Rebuild(rows, symbol, side) <==>
            ActiveWhole(rows, symbol, side, d)
  {
    if Rebuild(StoredRows(rows, d), symbol, side) == Rebuild(rows, symbol, side) {
      forall i | 0 <= i < |rows| && Active(rows[i], symbol, side) ensures Whole(rows[i], d) {
        ReloadedRowIsWhole(rows, symbol, side, d, i);
      }
    } else if ActiveWhole(rows, symbol, side, d) {
      WholeRowsReload(rows, symbol, side, d);
    }
  }

  /** A price of 0.00000000004, four tenths of a stored unit, is accepted and reloads as 0. */
  lemma TinyPriceReloadsAsZero(r: Order)
    requires RowOk(r) && r.typ.Limit? && !r.status.Filled? && r.price == Some(4)
    ensures StoredRow(r, 10).price == Some(0)
    ensures Rebuild(StoredRows([r], 10), r.symbol, r.side) != Rebuild([r], r.symbol, r.side)
  {
    RoundIs(4, 10, 0);
    var stored := StoredRows([r], 10);
    assert stored == [StoredRow(r, 10)];
    assert stored[..0] == [] && [r][..0] == [];
    assert Rebuild([r], r.symbol, r.side) == Insert(r.side, [], r.AsResting());
    assert Rebuild(stored, r.symbol, r.side) == Insert(r.side, [], StoredRow(r, 10).AsResting());
    assert Rebuild(stored, r.symbol, r.side)[0].price == 0 && Rebuild([r], r.symbol, r.side)[0].price == 4;
  }
}
