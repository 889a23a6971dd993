/** Holds back every open order: what is on hold is exactly what the resting orders can still cost. */
module Backing {
  import opened Types
  import opened Greedy
  import opened BookView
  import opened Ledger
  import opened Settlement
  import opened Trading

  function HeldBy(o: Resting, k: Key): int {
    if k == Of(o.user, PayCurrency(o.symbol, o.side)) then Cost(o.side, o.price, o.Remaining()) else 0
  }

  function HeldFor(s: seq<Resting>, k: Key): int {
    if s == [] then 0 else HeldBy(s[0], k) + HeldFor(s[1..], k)
  }

  /** The part of an incoming order that is still on its way through the book. */
  function InFlight(t: Taker, limit: int, r: int, k: Key): int {
    if k == Of(t.user, PayCurrency(t.symbol, t.side)) then Cost(t.side, limit, r) else 0
  }

  ghost predicate PositivePrices(s: seq<Resting>) {
    forall i :: 0 <= i < |s| ==> s[i].price > 0
  }

  lemma {:induction false} HeldForNonNegative(s: seq<Resting>, k: Key)
    requires Live(s) && PositivePrices(s)
    ensures HeldFor(s, k) >= 0
  {
    if s != [] {
      HeldForNonNegative(s[1..], k);
      assert s[0].price * s[0].Remaining() >= 0;
    }
  }

  lemma {:induction false} HeldForInsert(side: Side, s: seq<Resting>, x: Resting, k: Key)
    ensures HeldFor(Insert(side, s, x), k) == HeldFor(s, k) + HeldBy(x, k)
  {
    if s == [] || Better(side, x.price, s[0].price) {
      assert ([x] + s)[1..] == s;
    } else {
      HeldForInsert(side, s[1..], x, k);
      assert ([s[0]] + Insert(side, s[1..], x))[1..] == Insert(side, s[1..], x);
    }
  }

  lemma CostLess(side: Side, price: int, qty: int, q: int)
    ensures Cost(side, price, qty - q) == Cost(side, price, qty) - Cost(side, price, q)
    ensures price > 0 && 0 <= q <= qty ==> 0 <= Cost(side, price, q) <= Cost(side, price, qty)
  {
  }

  // ---------------------------------------------------------------- one trade

  /** The front order of the walked list, and the taker, both have what this trade needs on hold. */
  lemma FrontIsCovered(s: State, t: Taker, limit: int, r: int, m: Resting, q: int)
    requires Bound(t, limit) && m.price > 0
    requires m.symbol == t.symbol && m.side == Opposite(t.side)
    requires 0 < q <= r && q <= m.Remaining()
    requires HasAccounts(s, t.user, t.symbol) && HasAccounts(s, m.user, t.symbol)
    requires forall k :: k in s.accounts ==> s.accounts[k].hold >= HeldBy(m, k) + InFlight(t, limit, r, k)
    ensures HoldsCover(s, TradeWith(t, m, q), limit)
  {
    CostLess(m.side, m.price, m.Remaining(), q);
    CostLess(t.side, limit, r, q);
    var km, kt := Of(m.user, PayCurrency(m.symbol, m.side)), Of(t.user, PayCurrency(t.symbol, t.side));
    assert s.accounts[km].hold >= HeldBy(m, km) + InFlight(t, limit, r, km);
    assert s.accounts[kt].hold >= HeldBy(m, kt) + InFlight(t, limit, r, kt);
  }

  /** Settling it takes exactly that off hold. */
  lemma TradeUsesHolds(t: Taker, limit: int, r: int, m: Resting, q: int, k: Key, a: Account)
    requires m.symbol == t.symbol && m.side == Opposite(t.side)
    ensures Freed(TradeWith(t, m, q), HeldPrice(TradeWith(t, m, q), limit) * q, k, a).hold ==
            a.hold - (HeldBy(m, k) - HeldBy(Fill(m, q), k)) - (InFlight(t, limit, r, k) - InFlight(t, limit, r - q, k))
  {
    CostLess(m.side, m.price, m.Remaining(), q);
    CostLess(t.side, limit, r, q);
  }

  lemma HeldByNothing(m: Resting, k: Key)
    requires m.Remaining() == 0
    ensures HeldBy(m, k) == 0
  {
  }

  // ---------------------------------------------------------------- a whole walk

  ghost predicate AllSettle(s: State, trades: seq<Trade>, limit: int)
    decreases |trades|
  {
    trades != [] ==>
      AllSucceed(s, SettleOps(trades[0], limit)) && AllSettle(Settle(s, trades[0], limit), trades[1..], limit)
  }

  /** Open orders of known users, on the side the taker trades against. */
  ghost predicate ListFits(s: State, t: Taker, book: seq<Resting>) {
    && Live(book) && PositivePrices(book)
    && (forall i :: 0 <= i < |book| ==>
          book[i].symbol == t.symbol && book[i].side == Opposite(t.side) && HasAccounts(s, book[i].user, t.symbol))
  }

  lemma ListFitsNext(s: State, s': State, t: Taker, book: seq<Resting>, q: int)
    requires ListFits(s, t, book) && book != [] && 0 < q <= book[0].Remaining() && s'.accounts.Keys == s.accounts.Keys
    ensures ListFits(s', t, FrontFilled(book, q))
  {
    var next := FrontFilled(book, q);
    var skipped := if q == book[0].Remaining() then 1 else 0;
    forall i | 0 < i < |book| ensures next[i - skipped] == book[i] {
    }
  }

  /** `limit` is the price a buyer's hold was computed at: its limit, if it has one. */
  predicate Bound(t: Taker, limit: int) { t.side.Buy? ==> limit > 0 && (t.limit.Some? ==> t.limit.value == limit) }

  /** The hold is enough whatever the book charges: of all orders, only market buys are not covered. */
  predicate Covered(t: Taker) { t.side.Buy? ==> t.limit.Some? }

  /** The list, the accounts and the taker fit together. */
  ghost predicate Fits(s: State, t: Taker, limit: int, r: int, book: seq<Resting>) {
    && Bound(t, limit) && r >= 0 && NonNegative(s)
    && ListFits(s, t, book)
    && HasAccounts(s, t.user, t.symbol)
    && (forall k :: k in s.accounts ==> s.accounts[k].hold >= HeldFor(book, k) + InFlight(t, limit, r, k))
  }

  /** What account `k` needs on hold less than before, when the list becomes `next` and the taker's rest `left`. */
  function Change(t: Taker, limit: int, r: int, book: seq<Resting>, left: int, next: seq<Resting>, k: Key): int {
    HeldFor(next, k) - HeldFor(book, k) + InFlight(t, limit, left, k) - InFlight(t, limit, r, k)
  }

  ghost predicate HoldsChange(s: State, s': State, t: Taker, limit: int, r: int, book: seq<Resting>, left: int,
                              next: seq<Resting>)
  {
    && s'.accounts.Keys == s.accounts.Keys
    && forall k :: k in s.accounts ==>
         s'.accounts[k].hold == s.accounts[k].hold + Change(t, limit, r, book, left, next, k)
  }

  lemma HoldsChangeTwice(s: State, s1: State, s2: State, t: Taker, limit: int, r: int, book: seq<Resting>, r1: int,
                         book1: seq<Resting>, r2: int, book2: seq<Resting>)
    requires HoldsChange(s, s1, t, limit, r, book, r1, book1) && HoldsChange(s1, s2, t, limit, r1, book1, r2, book2)
    ensures HoldsChange(s, s2, t, limit, r, book, r2, book2)
  {
  }

  /** What the first trade of the walk does to the holds. */
  lemma FirstTradeHolds(s: State, t: Taker, limit: int, r: int, book: seq<Resting>)
    requires Fits(s, t, limit, r, book) && r > 0 && book != [] && Accepts(t.side, t.limit, book[0].price)
    ensures var q := Min(r, book[0].Remaining()); var trade := TradeWith(t, book[0], q);
      && HoldsCover(s, trade, limit)
      && (AllSucceed(s, SettleOps(trade, limit)) <==> Pays(s, trade, limit)) && (Covered(t) ==> Pays(s, trade, limit))
      && HoldsChange(s, Settle(s, trade, limit), t, limit, r, book, r - q, FrontFilled(book, q))
  {
    var m, q := book[0], Min(r, book[0].Remaining());
    var trade := TradeWith(t, m, q);
    forall k | k in s.accounts ensures s.accounts[k].hold >= HeldBy(m, k) + InFlight(t, limit, r, k) {
      HeldForNonNegative(book[1..], k);
    }
    FrontIsCovered(s, t, limit, r, m, q);
    SettleHolds(s, trade, limit);
    if Covered(t) { LimitPays(s, trade, limit); }
    forall k | k in s.accounts
      ensures Settle(s, trade, limit).accounts[k].hold ==
        s.accounts[k].hold + Change(t, limit, r, book, r - q, FrontFilled(book, q), k)
    {
      FirstTradeFrees(t, limit, r, book, q, k, s.accounts[k]);
    }
  }

  lemma FirstTradeFrees(t: Taker, limit: int, r: int, book: seq<Resting>, q: int, k: Key, a: Account)
    requires book != [] && book[0].symbol == t.symbol && book[0].side == Opposite(t.side)
    ensures var trade := TradeWith(t, book[0], q);
      Freed(trade, HeldPrice(trade, limit) * q, k, a).hold ==
        a.hold + Change(t, limit, r, book, r - q, FrontFilled(book, q), k)
  {
    TradeUsesHolds(t, limit, r, book[0], q, k, a);
    if q == book[0].Remaining() { HeldByNothing(Fill(book[0], q), k); }
    FrontHeld(book, q, k);
  }

  lemma FrontHeld(book: seq<Resting>, q: int, k: Key)
    requires book != []
    ensures HeldFor(FrontFilled(book, q), k) ==
            HeldFor(book[1..], k) + if q == book[0].Remaining() then 0 else HeldBy(Fill(book[0], q), k)
  {
    assert ([Fill(book[0], q)] + book[1..])[1..] == book[1..];
  }

  lemma LimitPays(s: State, trade: Trade, limit: int)
    requires NonNegative(s) && HoldsCover(s, trade, limit) && trade.price <= HeldPrice(trade, limit)
    ensures Pays(s, trade, limit)
  {
    assert HeldPrice(trade, limit) * trade.qty >= trade.price * trade.qty;
  }

  lemma {:induction false} ChainNonNegative(s: State, ops: seq<Op>)
    requires NonNegative(s)
    ensures NonNegative(Chain(s, ops))
    decreases |ops|
  {
    if ops != [] && Try(s, 1, ops[0]).Ok? {
      ApplyNonNegative(s, 1, ops[0]);
      ChainNonNegative(Apply(s, 1, ops[0]), ops[1..]);
    }
  }

  /** After the first trade everything still fits. */
  lemma FirstTradeFits(s: State, t: Taker, limit: int, r: int, book: seq<Resting>)
    requires Fits(s, t, limit, r, book) && r > 0 && book != [] && Accepts(t.side, t.limit, book[0].price)
    ensures var q := Min(r, book[0].Remaining());
      Fits(Settle(s, TradeWith(t, book[0], q), limit), t, limit, r - q, FrontFilled(book, q))
  {
    var q := Min(r, book[0].Remaining());
    var trade, next := TradeWith(t, book[0], q), FrontFilled(book, q);
    var s' := Settle(s, trade, limit);
    FirstTradeHolds(s, t, limit, r, book);
    ChainNonNegative(s, SettleOps(trade, limit));
    ListFitsNext(s, s', t, book, q);
  }

  /** The outcome of settling a walk over `book` by a taker with `r` to go: every trade of a covered taker
      settles, what is left still fits, and the holds shrink by what is no longer needed. */
  ghost predicate Settles(s: State, t: Taker, limit: int, r: int, book: seq<Resting>) {
    var walk := Walk(t, r, book); var s' := SettleAll(s, walk.trades, limit);
    && (Covered(t) ==> AllSettle(s, walk.trades, limit)) && Fits(s', t, limit, walk.left, walk.book)
    && HoldsChange(s, s', t, limit, r, book, walk.left, walk.book)
  }

  /** The first trade of the walk, in terms of what it leaves. */
  lemma FirstTrade(s: State, t: Taker, limit: int, r: int, book: seq<Resting>, q: int, s1: State, next: seq<Resting>)
    requires Fits(s, t, limit, r, book) && r > 0 && book != [] && Accepts(t.side, t.limit, book[0].price)
    requires q == Min(r, book[0].Remaining()) && next == FrontFilled(book, q)
    requires s1 == Settle(s, TradeWith(t, book[0], q), limit)
    ensures AllSucceed(s, SettleOps(TradeWith(t, book[0], q), limit)) <==> Pays(s, TradeWith(t, book[0], q), limit)
    ensures Covered(t) ==> Pays(s, TradeWith(t, book[0], q), limit)
    ensures HoldsCover(s, TradeWith(t, book[0], q), limit)
    ensures HoldsChange(s, s1, t, limit, r, book, r - q, next)
    ensures Fits(s1, t, limit, r - q, next)
  {
    FirstTradeHolds(s, t, limit, r, book);
    FirstTradeFits(s, t, limit, r, book);
  }

  lemma SettlesAfterFirst(s: State, t: Taker, limit: int, r: int, book: seq<Resting>, q: int, s1: State,
                          next: seq<Resting>)
    requires Live(book) && r > 0 && book != [] && Accepts(t.side, t.limit, book[0].price)
    requires q == Min(r, book[0].Remaining()) && next == FrontFilled(book, q)
    requires Covered(t) ==> AllSucceed(s, SettleOps(TradeWith(t, book[0], q), limit))
    requires s1 == Settle(s, TradeWith(t, book[0], q), limit)
    requires HoldsChange(s, s1, t, limit, r, book, r - q, next) && Settles(s1, t, limit, r - q, next)
    ensures Settles(s, t, limit, r, book)
  {
    var walk, rest := Walk(t, r, book), Walk(t, r - q, next);
    var s2 := SettleAll(s1, rest.trades, limit);
    HoldsChangeTwice(s, s1, s2, t, limit, r, book, r - q, next, rest.left, rest.book);
    WalkUnrolls(s, t, limit, r, book);
    assert Fits(s2, t, limit, walk.left, walk.book) && SettleAll(s, walk.trades, limit) == s2;
    assert HoldsChange(s, s2, t, limit, r, book, walk.left, walk.book);
  }

  lemma NextFits(s: State, t: Taker, limit: int, r: int, book: seq<Resting>, q: int, s1: State, next: seq<Resting>)
    requires Fits(s, t, limit, r, book) && r > 0 && book != [] && Accepts(t.side, t.limit, book[0].price)
    requires q == Min(r, book[0].Remaining()) && next == FrontFilled(book, q)
    requires s1 == Settle(s, TradeWith(t, book[0], q), limit)
    ensures Fits(s1, t, limit, r - q, next)
    ensures r > q ==> |next| < |book|
  {
    FirstTradeFits(s, t, limit, r, book);
  }

  lemma SettlesStep(s: State, t: Taker, limit: int, r: int, book: seq<Resting>, q: int, s1: State, next: seq<Resting>)
    requires Fits(s, t, limit, r, book) && r > 0 && book != [] && Accepts(t.side, t.limit, book[0].price)
    requires q == Min(r, book[0].Remaining()) && next == FrontFilled(book, q)
    requires s1 == Settle(s, TradeWith(t, book[0], q), limit)
    requires if r > q then Settles(s1, t, limit, r - q, next) else Fits(s1, t, limit, 0, next)
    ensures Settles(s, t, limit, r, book)
  {
    if r == q { SettlesNothing(s1, t, limit, 0, next); }
    FirstTrade(s, t, limit, r, book, q, s1, next);
    SettlesAfterFirst(s, t, limit, r, book, q, s1, next);
  }

  lemma SettlesNothing(s: State, t: Taker, limit: int, r: int, book: seq<Resting>)
    requires Fits(s, t, limit, r, book) && Walk(t, r, book) == Outcome([], book, r)
    ensures Settles(s, t, limit, r, book)
  {
  }

  /** Every trade the matcher emits for a covered taker settles in full, and for any taker the holds shrink
      by exactly what the resting orders and the incoming order no longer need. */
  lemma {:induction false} WalkSettles(s: State, t: Taker, limit: int, r: int, book: seq<Resting>)
    requires Fits(s, t, limit, r, book)
    ensures Settles(s, t, limit, r, book)
    decreases |book|
  {
    if r > 0 && book != [] && Accepts(t.side, t.limit, book[0].price) {
      var q := Min(r, book[0].Remaining());
      var s1, next := Settle(s, TradeWith(t, book[0], q), limit), FrontFilled(book, q);
      NextFits(s, t, limit, r, book, q, s1, next);
      if r > q { WalkSettles(s1, t, limit, r - q, next); }
      SettlesStep(s, t, limit, r, book, q, s1, next);
    } else {
      SettlesNothing(s, t, limit, r, book);
    }
  }

  lemma WalkUnrolls(s: State, t: Taker, limit: int, r: int, book: seq<Resting>)
    requires r > 0 && book != [] && Live(book) && Accepts(t.side, t.limit, book[0].price)
    ensures var q := Min(r, book[0].Remaining()); var trade := TradeWith(t, book[0], q);
      var walk, rest := Walk(t, r, book), Walk(t, r - q, FrontFilled(book, q));
      && walk.book == rest.book && walk.left == rest.left
      && SettleAll(s, walk.trades, limit) == SettleAll(Settle(s, trade, limit), rest.trades, limit)
      && (AllSettle(s, walk.trades, limit) <==>
          AllSucceed(s, SettleOps(trade, limit)) && AllSettle(Settle(s, trade, limit), rest.trades, limit))
  {
    var q := Min(r, book[0].Remaining());
    var rest := Walk(t, r - q, FrontFilled(book, q));
    assert Walk(t, r, book).trades == [TradeWith(t, book[0], q)] + rest.trades;
    assert Walk(t, r, book).trades[1..] == rest.trades;
  }
}
