/** A whole book as two lists, and every run of order placement and removal on it: match against the
    opposite side, then rest what is left of a priced limit order. */
module Books {
  import opened Types
  import opened Greedy
  import opened BookView
  import opened OrderBooks

  ghost predicate BookOk(b: Book) {
    ListOk(Buy, b.bids) && ListOk(Sell, b.asks) && Uncrossed(b.bids, b.asks)
  }

  ghost predicate FreshId(b: Book, id: Id) {
    && (forall i :: 0 <= i < |b.bids| ==> b.bids[i].id != id)
    && (forall i :: 0 <= i < |b.asks| ==> b.asks[i].id != id)
  }

  /** A new, unfilled order, as CreateOrder hands it to the book. */
  predicate NewOrder(o: Order) {
    o.qty > 0 && o.filled == 0 && o.status.New? && (o.typ.Limit? ==> o.price.Some?)
  }

  /** Only priced limit remainders rest; an unfilled market order is dropped. (The source adds it
      to the book and dereferences its missing price.) */
  predicate Rests(o: Order, left: int) { left > 0 && o.typ.Limit? && o.price.Some? }

  function Place(symbol: Symbol, b: Book, o: Order): Book {
    var walk := WalkOf(symbol, b, o);
    var b1 := b.With(Opposite(o.side), walk.book);
    if Rests(o, walk.left)
    then b1.With(o.side, Insert(o.side, b1.On(o.side), Matched(o, walk.left).AsResting()))
    else b1
  }

  lemma {:induction false} WalkKeepsList(t: Taker, r: int, book: seq<Resting>)
    requires ListOk(Opposite(t.side), book)
    ensures var o := Walk(t, r, book);
      && ListOk(Opposite(t.side), o.book)
      && (o.book != [] ==> book != [] && !Better(Opposite(t.side), o.book[0].price, book[0].price))
    decreases |book|
  {
    if r > 0 && book != [] && Accepts(t.side, t.limit, book[0].price) {
      var q := Min(r, book[0].Remaining());
      FrontOk(Opposite(t.side), book, q);
      if q == book[0].Remaining() {
        WalkKeepsList(t, r - q, book[1..]);
        if book[1..] != [] { assert !Better(Opposite(t.side), book[1].price, book[0].price); }
      }
    }
  }

  lemma {:induction false} WalkKeepsAbsent(t: Taker, r: int, book: seq<Resting>, id: Id)
    requires forall i :: 0 <= i < |book| ==> book[i].id != id
    ensures forall o :: o in Walk(t, r, book).book ==> o.id != id
    decreases |book|
  {
    if r > 0 && book != [] && Accepts(t.side, t.limit, book[0].price) && r >= book[0].Remaining() {
      WalkKeepsAbsent(t, r - book[0].Remaining(), book[1..], id);
    }
  }

  lemma {:induction false} WithoutHead(side: Side, s: seq<Resting>, id: Id)
    requires PriceSorted(side, s)
    ensures Without(s, id) != [] ==> s != [] && !Better(side, Without(s, id)[0].price, s[0].price)
  {
    if s != [] && s[0].id == id {
      WithoutHead(side, s[1..], id);
      if s[1..] != [] { assert !Better(side, s[1].price, s[0].price); }
    }
  }

  lemma MatchKeepsBook(symbol: Symbol, b: Book, o: Order)
    requires BookOk(b) && NewOrder(o)
    ensures var walk := WalkOf(symbol, b, o);
      && BookOk(b.With(Opposite(o.side), walk.book)) && 0 <= walk.left <= o.qty
      && (walk.left > 0 && walk.book != [] ==> !Accepts(o.side, TakerOf(symbol, o).limit, walk.book[0].price))
  {
    var t, list := TakerOf(symbol, o), b.On(Opposite(o.side));
    WalkKeepsList(t, o.qty, list);
    WalkStops(t, o.qty, list);
    WalkConserves(t, o.qty, list);
  }

  /** An order that accepts nothing on the other side can rest. */
  lemma RestKeepsBook(b: Book, x: Resting)
    requires BookOk(b) && Live([x]) && forall i :: 0 <= i < |b.On(x.side)| ==> b.On(x.side)[i].id != x.id
    requires var other := b.On(Opposite(x.side)); other != [] ==> !Accepts(x.side, Some(x.price), other[0].price)
    ensures BookOk(b.With(x.side, Insert(x.side, b.On(x.side), x)))
  {
    InsertOk(x.side, b.On(x.side), x);
  }

  /** Matching first means that what rests cannot cross. */
  lemma PlaceKeepsBook(symbol: Symbol, b: Book, o: Order)
    requires BookOk(b) && NewOrder(o) && FreshId(b, o.id)
    ensures BookOk(Place(symbol, b, o))
  {
    var walk := WalkOf(symbol, b, o);
    MatchKeepsBook(symbol, b, o);
    if Rests(o, walk.left) {
      var x := Matched(o, walk.left).AsResting();
      assert [x][0] == x;
      RestKeepsBook(b.With(Opposite(o.side), walk.book), x);
    }
  }

  lemma RemoveKeepsBook(b: Book, id: Id)
    requires BookOk(b)
    ensures BookOk(Removed(b, id))
  {
    WithoutOk(Buy, b.bids, id);
    WithoutOk(Sell, b.asks, id);
    WithoutHead(Buy, b.bids, id);
    WithoutHead(Sell, b.asks, id);
  }

  datatype BookOp = PlaceOp(o: Order) | RemoveOp(id: Id)

  function Do(symbol: Symbol, b: Book, op: BookOp): Book {
    match op
    case PlaceOp(o) => Place(symbol, b, o)
    case RemoveOp(id) => Removed(b, id)
  }

  function RunBook(symbol: Symbol, b: Book, ops: seq<BookOp>): Book
    decreases |ops|
  {
    if ops == [] then b else RunBook(symbol, Do(symbol, b, ops[0]), ops[1..])
  }

  /** A run does its operations one after the other: a placement matches and rests, a removal takes out. */
  lemma {:induction false} RunBookSnoc(symbol: Symbol, b: Book, ops: seq<BookOp>, op: BookOp)
    ensures var b' := RunBook(symbol, b, ops);
      RunBook(symbol, b, ops + [op]) == if op.PlaceOp? then Place(symbol, b', op.o) else Removed(b', op.id)
    decreases |ops|
  {
    if ops == [] {
      assert [] + [op] == [op] && [op][1..] == [];
      assert RunBook(symbol, b, [op]) == RunBook(symbol, Do(symbol, b, op), []);
    } else {
      RunBookSnoc(symbol, Do(symbol, b, ops[0]), ops[1..], op);
      assert (ops + [op])[1..] == ops[1..] + [op];
    }
  }

  /** Every order placed is new. */
  ghost predicate Legal(symbol: Symbol, b: Book, ops: seq<BookOp>)
    decreases |ops|
  {
    ops == [] ||
    ((ops[0].PlaceOp? ==> NewOrder(ops[0].o) && FreshId(b, ops[0].o.id))
      && Legal(symbol, Do(symbol, b, ops[0]), ops[1..]))
  }

  /** The book is never crossed: after any run from an uncrossed book, whenever both sides have a
      best price the spread is positive. */
  lemma {:induction false} NeverCrossed(symbol: Symbol, b: Book, ops: seq<BookOp>)
    requires BookOk(b) && Legal(symbol, b, ops)
    ensures var b' := RunBook(symbol, b, ops);
      && BookOk(b')
      && (forall i, j :: 0 <= i < |b'.bids| && 0 <= j < |b'.asks| ==> b'.bids[i].price < b'.asks[j].price)
    decreases |ops|
  {
    if ops == [] {
      forall i, j | 0 <= i < |b.bids| && 0 <= j < |b.asks| ensures b.bids[i].price < b.asks[j].price {
        if i > 0 { assert !Better(Buy, b.bids[i].price, b.bids[0].price); }
        if j > 0 { assert !Better(Sell, b.asks[j].price, b.asks[0].price); }
      }
    } else {
      match ops[0] {
        case PlaceOp(o) => PlaceKeepsBook(symbol, b, o);
        case RemoveOp(id) => RemoveKeepsBook(b, id);
      }
      NeverCrossed(symbol, Do(symbol, b, ops[0]), ops[1..]);
    }
  }
}
