/** What the order service promises its users, in the terms they would use: each statement names accounts,
    amounts and fields, and none of the functions with which the state machine computes them. */
module Promises {
  import opened Types
  import opened Greedy
  import opened OrderBooks
  import opened Ledger
  import opened Settlement
  import opened Recovery
  import opened Trading
  import opened Backing
  import opened Costs
  import opened Runs
  import opened Statements
  import opened OrderServices

  // ---------------------------------------------------------------- what is accepted, and what is held for it

  /** A request is accepted if and only if it is for a positive quantity of a listed symbol, at a positive price or,
      for a market order, with a quote, and the account that pays has that much available: price or quote times
      quantity in dollars to buy, the quantity in coins of the symbol to sell. */
  lemma EntersIff(w: World, req: Request)
    requires w.books.Keys == {BTCUSD, ETHUSD}
    ensures Enters(w, req) <==>
      && req.qty > 0 && (req.symbol == BTCUSD || req.symbol == ETHUSD)
      && (if req.typ == Limit then req.price.Some? && req.price.value > 0 else req.quote.Some?)
      && var price := if req.typ == Limit then req.price.value else req.quote.value;
         var dollars, coins := Of(req.user, USD), Of(req.user, if req.symbol == BTCUSD then BTC else ETH);
         if req.side == Buy
         then dollars in w.ledger.accounts && 0 < price * req.qty <= w.ledger.accounts[dollars].available
         else coins in w.ledger.accounts && req.qty <= w.ledger.accounts[coins].available
  {
    RefusedIff(w.ledger, 1, HoldFor(req));
  }

  /** Exactly that much goes from available to hold, and nothing else changes. */
  lemma HoldPlaced(w: World, req: Request)
    requires Enters(w, req)
    ensures var price := if req.typ == Limit then req.price else req.quote;
      && price.Some?
      && var coin := if req.symbol == BTCUSD then BTC else ETH;
         var k := Of(req.user, if req.side == Buy then USD else coin);
         var x := if req.side == Buy then price.value * req.qty else req.qty;
         && k in w.ledger.accounts
         && var a := w.ledger.accounts[k];
            Apply(w.ledger, 1, HoldFor(req)) ==
            w.ledger.(accounts := w.ledger.accounts[k := Account(a.available - x, a.hold + x)])
  {
    AcceptedDoes(w.ledger, HoldFor(req));
  }

  // ---------------------------------------------------------------- what is answered

  /** Quantity of the trades that order `id` took and that settled. */
  function SettledFor(log: seq<Exec>, id: Id): int {
    if log == [] then 0
    else (if log[0].taker == id && log[0].settled then log[0].trade.qty else 0) + SettledFor(log[1..], id)
  }

  /** Quantity of all trades that order `id` took. */
  function TakenBy(log: seq<Exec>, id: Id): int {
    if log == [] then 0 else (if log[0].taker == id then log[0].trade.qty else 0) + TakenBy(log[1..], id)
  }

  lemma {:induction false} OthersTrades(log: seq<Exec>, es: seq<Exec>, id: Id)
    requires forall i :: 0 <= i < |log| ==> log[i].taker != id
    ensures SettledFor(log + es, id) == SettledFor(es, id) && TakenBy(log + es, id) == TakenBy(es, id)
  {
    if log == [] {
      assert log + es == es;
    } else {
      OthersTrades(log[1..], es, id);
      assert (log + es)[1..] == log[1..] + es;
    }
  }

  lemma {:induction false} OwnTrades(es: seq<Exec>, trades: seq<Trade>, id: Id)
    requires TradesOf(es, trades) && forall i :: 0 <= i < |es| ==> es[i].taker == id
    ensures SettledFor(es, id) == SettledQty(es) && TakenBy(es, id) == Traded(trades)
  {
    if es != [] { OwnTrades(es[1..], trades[1..], id); }
  }

  /** A success answers with the new order's id, a status that says how much of it the book filled, and as filled
      quantity what settled of the trades it took. */
  lemma AnswerIs(w: World, req: Request)
    requires Good(w) && Enters(w, req)
    ensures var w' := Submit(w, req); var taken := TakenBy(w'.log, w.clock);
      && 0 <= taken <= req.qty
      && Answer(w', |w.log|) ==
         Created(w.clock, if taken == req.qty then Filled else if taken > 0 then PartiallyFilled else New,
                 SettledFor(w'.log, w.clock))
  {
    var o, held := OrderFor(w, req), Apply(w.ledger, 1, HoldFor(req));
    var walk := WalkOf(req.symbol, w.books[req.symbol], o);
    var es := Execs(held, o.id, walk.trades, HoldPrice(req));
    SubmittedWalk(w, req);
    LoggedTrades(w, req);
    OthersTrades(w.log, es, w.clock);
    OwnTrades(es, walk.trades, w.clock);
    AnswerFrom(w, req, es);
  }

  lemma AnswerFrom(w: World, req: Request, es: seq<Exec>)
    requires Enters(w, req) && Submit(w, req).log == w.log + es
    ensures var o := OrderFor(w, req);
      Answer(Submit(w, req), |w.log|) ==
      Created(o.id, Matched(o, WalkOf(req.symbol, w.books[req.symbol], o).left).status, SettledQty(es))
  {
    SubmittedRows(w, req);
    LastLogged(w, req, es);
  }

  lemma LoggedTrades(w: World, req: Request)
    requires Enters(w, req)
    ensures var trades := WalkOf(req.symbol, w.books[req.symbol], OrderFor(w, req)).trades;
      Submit(w, req).log == w.log + Execs(Apply(w.ledger, 1, HoldFor(req)), w.clock, trades, HoldPrice(req))
  {
  }

  // ---------------------------------------------------------------- what is settled

  /** Account `k` after a trade of a bid held at `price` with the seller's coins: the seller's hold and the buyer's
      pay, the seller gets the price, the buyer the coins and what its hold had beyond the price. */
  function AfterTrade(t: Trade, price: int, k: Key, a: Account): Account {
    var buyer := if t.side == Buy then t.takerId else t.makerId;
    var seller := if t.side == Buy then t.makerId else t.takerId;
    var coin := if t.symbol == BTCUSD then BTC else ETH;
    if k == Of(buyer, USD) then Account(a.available + price * t.qty - t.price * t.qty, a.hold - price * t.qty)
    else if k == Of(seller, USD) then Account(a.available + t.price * t.qty, a.hold)
    else if k == Of(buyer, coin) then Account(a.available + t.qty, a.hold)
    else if k == Of(seller, coin) then Account(a.available, a.hold - t.qty)
    else a
  }

  lemma MovedIs(t: Trade, limit: int, k: Key, a: Account)
    requires t.takerId != t.makerId
    ensures Moved(t, limit, k, a) == AfterTrade(t, if t.side == Buy then limit else t.price, k, a)
  {
  }

  /** A trade whose price and quantity are on hold settles: the seller's coins, of the trade's own symbol, go from
      its hold to the buyer, the buyer's dollars to the seller; what the buyer's limit had set aside beyond the price
      is available to it again, and no other account changes. */
  lemma TradeSettles(s: State, t: Trade, limit: int)
    requires NonNegative(s) && t.takerId != t.makerId && t.price > 0 && t.qty > 0
    requires t.side == Buy ==> t.price <= limit
    requires var (buyer, seller) := if t.side == Buy then (t.takerId, t.makerId) else (t.makerId, t.takerId);
      var coin, price := if t.symbol == BTCUSD then BTC else ETH, if t.side == Buy then limit else t.price;
      && {Of(buyer, USD), Of(buyer, coin), Of(seller, USD), Of(seller, coin)} <= s.accounts.Keys
      && s.accounts[Of(buyer, USD)].hold >= price * t.qty && s.accounts[Of(seller, coin)].hold >= t.qty
    ensures AllSucceed(s, SettleOps(t, limit)) && Settle(s, t, limit).accounts.Keys == s.accounts.Keys
    ensures forall k :: k in s.accounts ==>
      Settle(s, t, limit).accounts[k] == AfterTrade(t, if t.side == Buy then limit else t.price, k, s.accounts[k])
  {
    SettleMoves(s, t, limit);
    forall k | k in s.accounts
      ensures Moved(t, limit, k, s.accounts[k]) ==
              AfterTrade(t, if t.side == Buy then limit else t.price, k, s.accounts[k])
    {
      MovedIs(t, limit, k, s.accounts[k]);
    }
  }

  /** Of every order but a market buy, all that it trades settles. */
  lemma SettlesInFull(w: World, req: Request)
    requires Good(w) && Enters(w, req) && (req.typ == Limit || req.side == Sell)
    ensures var w' := Submit(w, req); SettledFor(w'.log, w.clock) == TakenBy(w'.log, w.clock)
  {
    var o, held := OrderFor(w, req), Apply(w.ledger, 1, HoldFor(req));
    var walk := WalkOf(req.symbol, w.books[req.symbol], o);
    var es := Execs(held, o.id, walk.trades, HoldPrice(req));
    LoggedTrades(w, req);
    OthersTrades(w.log, es, w.clock);
    OwnTrades(es, walk.trades, w.clock);
    SubmitKeepsBacking(w, req);
    SettledQtyIs(held, o.id, walk.trades, HoldPrice(req));
  }

  // ---------------------------------------------------------------- what an order costs, over its whole life

  /** An order's row says what it has traded, as taker and as maker, never more than its quantity. A limit buy has
      paid at most its limit for each unit, so that with its limit on the rest it never exceeds what was put on hold
      for it; a limit sell has been paid at least its limit for each. */
  ghost predicate Kept(log: seq<Exec>, r: Order) {
    && 0 <= r.filled == Done(log, r.id) <= r.qty
    && (r.typ == Limit ==> r.price.Some? && r.price.value > 0)
    && (r.typ == Limit && r.side == Buy ==>
          Spent(log, r.id) <= r.price.value * r.filled
          && Spent(log, r.id) + r.price.value * (r.qty - r.filled) <= r.price.value * r.qty)
    && (r.typ == Limit && r.side == Sell ==> Spent(log, r.id) >= r.price.value * r.filled)
  }

  lemma RowIsKept(log: seq<Exec>, r: Order)
    requires RowHistory(log, r) && RowOk(r)
    ensures Kept(log, r)
  {
    if r.typ == Limit { assert r.price.value * (r.qty - r.filled) == r.price.value * r.qty - r.price.value * r.filled; }
  }

  /** So it is with every order over every run. */
  lemma OrdersOverRuns(s: State, events: seq<Event>, i: int)
    requires Good(Opening(s)) && 0 <= i < |RunWorld(Opening(s), events).rows|
    ensures Kept(RunWorld(Opening(s), events).log, RunWorld(Opening(s), events).rows[i])
  {
    var w := RunWorld(Opening(s), events);
    assert Good(w) by { RunKeepsGood(Opening(s), events); }
    RowIsKept(w.log, w.rows[i]);
  }

  // ---------------------------------------------------------------- what is on hold, over every run

  /** What a user's bids on a list can still cost. */
  function BidFor(bids: seq<Resting>, user: Id): int {
    if bids == [] then 0
    else (if bids[0].user == user then bids[0].price * bids[0].Remaining() else 0) + BidFor(bids[1..], user)
  }

  /** What a user still offers on a list. */
  function OfferedBy(asks: seq<Resting>, user: Id): int {
    if asks == [] then 0
    else (if asks[0].user == user then asks[0].Remaining() else 0) + OfferedBy(asks[1..], user)
  }

  ghost predicate AllOn(s: seq<Resting>, symbol: Symbol, side: Side) {
    forall i :: 0 <= i < |s| ==> s[i].symbol == symbol && s[i].side == side
  }

  lemma {:induction false} BidsHold(s: seq<Resting>, symbol: Symbol, user: Id, c: Currency)
    requires AllOn(s, symbol, Buy)
    ensures HeldFor(s, Of(user, c)) == if c == USD then BidFor(s, user) else 0
  {
    if s != [] { BidsHold(s[1..], symbol, user, c); }
  }

  lemma {:induction false} AsksHold(s: seq<Resting>, symbol: Symbol, user: Id, c: Currency)
    requires AllOn(s, symbol, Sell) && symbol != Unlisted
    ensures HeldFor(s, Of(user, c)) == if c == (if symbol == BTCUSD then BTC else ETH) then OfferedBy(s, user) else 0
  {
    if s != [] { AsksHold(s[1..], symbol, user, c); }
  }

  /** Over every run, on hold is, in dollars, what the user's open bids on both books can still cost, and in each
      coin what the user still offers on that coin's book, whatever else it has open. */
  lemma HoldsOverRuns(s: State, events: seq<Event>, user: Id, c: Currency)
    requires Good(Opening(s)) && Of(user, c) in s.accounts
    ensures var w := RunWorld(Opening(s), events);
      && w.books.Keys == {BTCUSD, ETHUSD} && Of(user, c) in w.ledger.accounts
      && w.ledger.accounts[Of(user, c)].hold ==
         match c
         case USD => BidFor(w.books[BTCUSD].bids, user) + BidFor(w.books[ETHUSD].bids, user)
         case BTC => OfferedBy(w.books[BTCUSD].asks, user)
         case ETH => OfferedBy(w.books[ETHUSD].asks, user)
  {
    RunKeepsGood(Opening(s), events);
    HoldsAre(RunWorld(Opening(s), events), user, c);
  }

  lemma HoldsAre(w: World, user: Id, c: Currency)
    requires Good(w) && Of(user, c) in w.ledger.accounts
    ensures w.books.Keys == {BTCUSD, ETHUSD}
    ensures w.ledger.accounts[Of(user, c)].hold ==
      match c
      case USD => BidFor(w.books[BTCUSD].bids, user) + BidFor(w.books[ETHUSD].bids, user)
      case BTC => OfferedBy(w.books[BTCUSD].asks, user)
      case ETH => OfferedBy(w.books[ETHUSD].asks, user)
  {
    assert w.ledger.accounts[Of(user, c)].hold == OpenHolds(w.books, Of(user, c));
    OpenHoldsAre(w, user, c);
  }

  lemma OpenHoldsAre(w: World, user: Id, c: Currency)
    requires Good(w)
    ensures w.books.Keys == {BTCUSD, ETHUSD}
    ensures OpenHolds(w.books, Of(user, c)) ==
      match c
      case USD => BidFor(w.books[BTCUSD].bids, user) + BidFor(w.books[ETHUSD].bids, user)
      case BTC => OfferedBy(w.books[BTCUSD].asks, user)
      case ETH => OfferedBy(w.books[ETHUSD].asks, user)
  {
    BookHolds(w, BTCUSD, user, c);
    BookHolds(w, ETHUSD, user, c);
  }

  lemma BookHolds(w: World, symbol: Symbol, user: Id, c: Currency)
    requires Good(w) && symbol in w.books
    ensures HeldFor(w.books[symbol].bids, Of(user, c)) == if c == USD then BidFor(w.books[symbol].bids, user) else 0
    ensures HeldFor(w.books[symbol].asks, Of(user, c)) ==
      if c == (if symbol == BTCUSD then BTC else ETH) then OfferedBy(w.books[symbol].asks, user) else 0
  {
    ListsFit(w, symbol, Buy);
    ListsFit(w, symbol, Sell);
    assert AllOn(w.books[symbol].On(Buy), symbol, Buy) && AllOn(w.books[symbol].On(Sell), symbol, Sell);
    BidsHold(w.books[symbol].bids, symbol, user, c);
    AsksHold(w.books[symbol].asks, symbol, user, c);
  }

  // ---------------------------------------------------------------- what is earned, over every run

  /** What the settled trades of a history bring a user in one currency: dollars for what it sold less dollars for
      what it bought, and of each coin what it bought less what it sold on that coin's book. */
  function Earned(log: seq<Exec>, user: Id, c: Currency): int {
    if log == [] then 0
    else
      var t := log[0].trade;
      var bought := (if t.side == Buy then t.takerId else t.makerId) == user;
      var sold := (if t.side == Buy then t.makerId else t.takerId) == user;
      var x := match c
        case USD => (if sold then t.price * t.qty else 0) - (if bought then t.price * t.qty else 0)
        case BTC => if t.symbol != BTCUSD then 0 else (if bought then t.qty else 0) - (if sold then t.qty else 0)
        case ETH => if t.symbol == BTCUSD then 0 else (if bought then t.qty else 0) - (if sold then t.qty else 0);
      (if log[0].settled then x else 0) + Earned(log[1..], user, c)
  }

  lemma {:induction false} EarnedIs(log: seq<Exec>, user: Id, c: Currency)
    ensures LogFlow(log, Of(user, c)) == Earned(log, user, c)
  {
    if log != [] { EarnedIs(log[1..], user, c); }
  }

  /** The positive amounts with which a user was topped up. */
  function ToppedUp(events: seq<Event>, user: Id): int {
    if events == [] then 0
    else
      (if events[0].TopUpEvent? && events[0].user == user && events[0].x > 0 then events[0].x else 0)
      + ToppedUp(events[1..], user)
  }

  lemma DepositIs(w: World, e: Event, user: Id, c: Currency)
    requires Of(user, c) in w.ledger.accounts
    ensures Deposit(w, e, Of(user, c)) ==
            if e.TopUpEvent? && e.user == user && e.x > 0 && c == USD then e.x else 0
  {
    if e.TopUpEvent? { RefusedIff(w.ledger, 1, TopUpOp(e.user, e.x)); }
  }

  lemma {:induction false} DepositsAre(w: World, events: seq<Event>, user: Id, c: Currency)
    requires Good(w) && Of(user, c) in w.ledger.accounts
    ensures Deposits(w, events, Of(user, c)) == if c == USD then ToppedUp(events, user) else 0
    decreases |events|
  {
    if events != [] {
      var e := events[0];
      HandleKeepsGood(w, e);
      DepositIs(w, e, user, c);
      EventMovesBalance(w, e, Of(user, c));
      DepositsAre(Handle(w, e), events[1..], user, c);
    }
  }

  /** Over every run, what a user has in a currency, available and on hold, is what it opened with, was topped up
      with in dollars, and earned. */
  lemma BalancesOverRuns(s: State, events: seq<Event>, user: Id, c: Currency)
    requires Good(Opening(s)) && Of(user, c) in s.accounts
    ensures var w := RunWorld(Opening(s), events); var k := Of(user, c);
      && k in w.ledger.accounts
      && w.ledger.accounts[k].available + w.ledger.accounts[k].hold ==
         s.accounts[k].available + (if c == USD then ToppedUp(events, user) else 0) + Earned(w.log, user, c)
  {
    var w := RunWorld(Opening(s), events);
    BalancesAreTrades(s, events, Of(user, c));
    DepositsAre(Opening(s), events, user, c);
    EarnedIs(w.log, user, c);
    OpeningHoldsNothing(s, Of(user, c));
  }

  lemma OpeningHoldsNothing(s: State, k: Key)
    requires Good(Opening(s)) && k in s.accounts
    ensures s.accounts[k].hold == 0
  {
    assert OpenHolds(Opening(s).books, k) == 0;
  }
}
