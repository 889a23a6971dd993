/** Statements of account: over every run, what an account holds is what it opened with, was topped up
    with and traded. Together with the holds of Runs.dfy this determines every balance. */
module Statements {
  import opened Types
  import opened Greedy
  import opened BookView
  import opened OrderBooks
  import opened Ledger
  import opened Settlement
  import opened Trading
  import opened Backing
  import opened Costs
  import opened Runs

  /** What a trade brings account `k`: the seller the price, the buyer the coins, and nothing at all to
      a user who trades with itself. */
  function TradeFlow(t: Trade, k: Key): int {
    var base := BaseOf(t.symbol);
    If(k == Of(Seller(t), USD), t.price * t.qty) - If(k == Of(Buyer(t), USD), t.price * t.qty)
    + If(k == Of(Buyer(t), base), t.qty) - If(k == Of(Seller(t), base), t.qty)
  }

  /** What the settled trades of a history bring it. */
  function LogFlow(log: seq<Exec>, k: Key): int {
    if log == [] then 0 else (if log[0].settled then TradeFlow(log[0].trade, k) else 0) + LogFlow(log[1..], k)
  }

  function OpFlow(op: Op, k: Key): int {
    match op
    case TopUpOp(u, x) => If(k == Of(u, USD), x)
    case TransferOp(f, t, x, _) => If(k == t, x) - If(k == f, x)
    case _ => 0
  }

  function OpsFlow(ops: seq<Op>, k: Key): int {
    if ops == [] then 0 else OpFlow(ops[0], k) + OpsFlow(ops[1..], k)
  }

  lemma OpMovesBalance(s: State, op: Op, k: Key)
    requires Try(s, 1, op).Ok? && Distinct(op) && k in s.accounts
    ensures k in Apply(s, 1, op).accounts
    ensures Apply(s, 1, op).accounts[k].Balance() == s.accounts[k].Balance() + OpFlow(op, k)
  {
    ExactWrites(s.accounts[k], op.x);
  }

  lemma {:induction false} OpsMoveBalance(s: State, ops: seq<Op>, k: Key)
    requires AllSucceed(s, ops) && k in s.accounts
    requires forall i :: 0 <= i < |ops| ==> Distinct(ops[i])
    ensures k in Chain(s, ops).accounts
    ensures Chain(s, ops).accounts[k].Balance() == s.accounts[k].Balance() + OpsFlow(ops, k)
    decreases |ops|
  {
    if ops != [] {
      OpMovesBalance(s, ops[0], k);
      OpsMoveBalance(Apply(s, 1, ops[0]), ops[1..], k);
    }
  }

  lemma SettlementFlow(t: Trade, limit: int, k: Key)
    ensures OpsFlow(SettleOps(t, limit), k) == TradeFlow(t, k)
  {
    var ops := SettleOps(t, limit);
    assert OpsFlow(ops[2..], k) == OpsFlow(ops[1..], k) == OpsFlow(ops, k) by {
      assert ops[1..][1..] == ops[2..];
    }
    if t.takerId != t.makerId {
      assert ops[2..] == [FirstLeg(t), SecondLeg(t)];
      assert ops[2..][1..] == [SecondLeg(t)];
      assert OpsFlow([SecondLeg(t)], k) == OpFlow(SecondLeg(t), k);
    }
  }

  /** A trade whose price the buyer cannot pay moves no balance. */
  lemma UnpaidMovesNothing(s: State, t: Trade, limit: int, k: Key)
    requires HoldsCover(s, t, limit) && NonNegative(s) && !Pays(s, t, limit) && k in s.accounts
    ensures k in Settle(s, t, limit).accounts && Settle(s, t, limit).accounts[k].Balance() == s.accounts[k].Balance()
  {
    SettleHolds(s, t, limit);
    ReleasesMove(s, t, limit);
  }

  ghost predicate WalkMoves(s: State, id: Id, t: Taker, limit: int, r: int, book: seq<Resting>, k: Key) {
    Moves(s, SettleAll(s, Walk(t, r, book).trades, limit), k, LogFlow(Execs(s, id, Walk(t, r, book).trades, limit), k))
  }

  lemma NothingMoves(s: State, id: Id, t: Taker, limit: int, r: int, book: seq<Resting>, k: Key)
    requires k in s.accounts && Walk(t, r, book) == Outcome([], book, r)
    ensures WalkMoves(s, id, t, limit, r, book, k)
  {
  }

  /** The trades of a walk move balances by exactly what settled. */
  lemma {:induction false} WalkMovesBalance(s: State, id: Id, t: Taker, limit: int, r: int, book: seq<Resting>, k: Key)
    requires Fits(s, t, limit, r, book) && k in s.accounts
    ensures WalkMoves(s, id, t, limit, r, book, k)
    decreases |book|
  {
    if r > 0 && book != [] && Accepts(t.side, t.limit, book[0].price) {
      var q := Min(r, book[0].Remaining());
      var s1, next := Settle(s, TradeWith(t, book[0], q), limit), FrontFilled(book, q);
      FirstTradeMoves(s, t, limit, r, book, q, s1, next, k);
      if q == book[0].Remaining() {
        WalkMovesBalance(s1, id, t, limit, r - q, next, k);
      } else {
        NothingMoves(s1, id, t, limit, 0, next, k);
      }
      MovesAfterFirst(s, id, t, limit, r, book, q, s1, next, k);
    } else {
      NothingMoves(s, id, t, limit, r, book, k);
    }
  }

  lemma FirstTradeMoves(s: State, t: Taker, limit: int, r: int, book: seq<Resting>, q: int, s1: State,
        next: seq<Resting>, k: Key)
    requires Fits(s, t, limit, r, book) && k in s.accounts && r > 0 && book != []
      && Accepts(t.side, t.limit, book[0].price)
    requires q == Min(r, book[0].Remaining()) && next == FrontFilled(book, q)
      && s1 == Settle(s, TradeWith(t, book[0], q), limit)
    ensures Fits(s1, t, limit, r - q, next) && k in s1.accounts
    ensures var trade := TradeWith(t, book[0], q);
      Moves(s, s1, k, if AllSucceed(s, SettleOps(trade, limit)) then TradeFlow(trade, k) else 0)
  {
    FirstTrade(s, t, limit, r, book, q, s1, next);
    FirstTradeMovesBalance(s, TradeWith(t, book[0], q), limit, k);
  }

  lemma MovesAfterFirst(s: State, id: Id, t: Taker, limit: int, r: int, book: seq<Resting>, q: int, s1: State,
        next: seq<Resting>, k: Key)
    requires r > 0 && book != [] && Live(book) && Accepts(t.side, t.limit, book[0].price)
    requires q == Min(r, book[0].Remaining()) && next == FrontFilled(book, q)
      && s1 == Settle(s, TradeWith(t, book[0], q), limit)
    requires var trade := TradeWith(t, book[0], q);
      Moves(s, s1, k, if AllSucceed(s, SettleOps(trade, limit)) then TradeFlow(trade, k) else 0)
    requires WalkMoves(s1, id, t, limit, r - q, next, k)
    ensures WalkMoves(s, id, t, limit, r, book, k)
  {
    FlowUnrolls(s, id, t, limit, r, book, q, s1, next, k);
  }

  /** Account `k` is `x` richer. */
  ghost predicate Moves(s: State, s': State, k: Key, x: int) {
    k in s.accounts && k in s'.accounts && s'.accounts[k].Balance() == s.accounts[k].Balance() + x
  }

  lemma FlowUnrolls(s: State, id: Id, t: Taker, limit: int, r: int, book: seq<Resting>, q: int, s1: State,
        next: seq<Resting>, k: Key)
    requires r > 0 && book != [] && Live(book) && Accepts(t.side, t.limit, book[0].price)
    requires q == Min(r, book[0].Remaining()) && next == FrontFilled(book, q)
      && s1 == Settle(s, TradeWith(t, book[0], q), limit)
    ensures var walk, rest, trade := Walk(t, r, book), Walk(t, r - q, next), TradeWith(t, book[0], q);
      && SettleAll(s, walk.trades, limit) == SettleAll(s1, rest.trades, limit)
      && LogFlow(Execs(s, id, walk.trades, limit), k) ==
         (if AllSucceed(s, SettleOps(trade, limit)) then TradeFlow(trade, k) else 0)
         + LogFlow(Execs(s1, id, rest.trades, limit), k)
  {
    var rest, trade := Walk(t, r - q, next), TradeWith(t, book[0], q);
    assert Walk(t, r, book).trades == [trade] + rest.trades;
    ExecsCons(s, id, trade, rest.trades, limit);
    var es := Execs(s1, id, rest.trades, limit);
    assert ([Exec(id, trade, AllSucceed(s, SettleOps(trade, limit)))] + es)[1..] == es;
  }

  lemma FirstTradeMovesBalance(s: State, trade: Trade, limit: int, k: Key)
    requires HoldsCover(s, trade, limit) && NonNegative(s) && k in s.accounts
    requires AllSucceed(s, SettleOps(trade, limit)) <==> Pays(s, trade, limit)
    ensures var x := if AllSucceed(s, SettleOps(trade, limit)) then TradeFlow(trade, k) else 0;
      Moves(s, Settle(s, trade, limit), k, x)
  {
    if Pays(s, trade, limit) {
      OpsMoveBalance(s, SettleOps(trade, limit), k);
      SettlementFlow(trade, limit, k);
    } else {
      UnpaidMovesNothing(s, trade, limit, k);
    }
  }

  lemma ExecsCons(s: State, id: Id, trade: Trade, rest: seq<Trade>, limit: int)
    ensures Execs(s, id, [trade] + rest, limit) ==
            [Exec(id, trade, AllSucceed(s, SettleOps(trade, limit)))] + Execs(Settle(s, trade, limit), id, rest, limit)
    ensures SettleAll(s, [trade] + rest, limit) == SettleAll(Settle(s, trade, limit), rest, limit)
  {
    assert ([trade] + rest)[1..] == rest;
  }

  lemma {:induction false} LogFlowAdds(a: seq<Exec>, b: seq<Exec>, k: Key)
    ensures LogFlow(a + b, k) == LogFlow(a, k) + LogFlow(b, k)
  {
    if a == [] {
      assert a + b == b;
    } else {
      LogFlowAdds(a[1..], b, k);
      assert (a + b)[1..] == a[1..] + b;
    }
  }

  lemma DropKeepsBalance(s: State, o: Order, price: int, left: int, k: Key)
    requires k in s.accounts
    ensures k in DropLeft(s, o, price, left).accounts
    ensures DropLeft(s, o, price, left).accounts[k].Balance() == s.accounts[k].Balance()
  {
    var op := ReleaseOp(o.user, PayCurrency(o.symbol, o.side), Cost(o.side, price, left));
    if Try(s, 1, op).Ok? { OpMovesBalance(s, op, k); }
  }

  lemma OrderWalkMoves(w: World, req: Request, k: Key)
    requires Good(w) && Enters(w, req) && k in w.ledger.accounts
    ensures var s1 := Apply(w.ledger, 1, HoldFor(req));
      var trades := WalkOf(req.symbol, w.books[req.symbol], OrderFor(w, req)).trades;
      Moves(s1, SettleAll(s1, trades, HoldPrice(req)), k, LogFlow(Execs(s1, w.clock, trades, HoldPrice(req)), k))
  {
    var o, s1 := OrderFor(w, req), Apply(w.ledger, 1, HoldFor(req));
    OrderFits(w, req);
    assert o.Remaining() == req.qty && o.side == req.side;
    WalkMovesBalance(s1, w.clock, TakerOf(req.symbol, o), HoldPrice(req), o.Remaining(),
      w.books[req.symbol].On(Opposite(o.side)), k);
  }

  /** An order moves balances by exactly its settled trades: its hold and what it drops move nothing. */
  lemma HoldKeepsBalance(w: World, req: Request, k: Key)
    requires Enters(w, req) && k in w.ledger.accounts
    ensures Moves(w.ledger, Apply(w.ledger, 1, HoldFor(req)), k, 0)
  {
    OpMovesBalance(w.ledger, HoldFor(req), k);
  }

  lemma MovesOn(s: State, s1: State, s2: State, s3: State, k: Key, x: int)
    requires Moves(s, s1, k, 0) && Moves(s1, s2, k, x) && Moves(s2, s3, k, 0)
    ensures Moves(s, s3, k, x)
  {
  }

  lemma SubmittedLedger(w: World, req: Request)
    requires Enters(w, req)
    ensures var o, s1 := OrderFor(w, req), Apply(w.ledger, 1, HoldFor(req));
      var walk := WalkOf(req.symbol, w.books[req.symbol], o);
      Submit(w, req).ledger == DropLeft(SettleAll(s1, walk.trades, HoldPrice(req)), o, HoldPrice(req), walk.left)
  {
  }

  lemma OrderMovesBalance(w: World, req: Request, k: Key)
    requires Good(w) && Enters(w, req) && k in w.ledger.accounts
    ensures var s1 := Apply(w.ledger, 1, HoldFor(req));
      var trades := WalkOf(req.symbol, w.books[req.symbol], OrderFor(w, req)).trades;
      Moves(w.ledger, Submit(w, req).ledger, k, LogFlow(Execs(s1, w.clock, trades, HoldPrice(req)), k))
  {
    var o, price, s1 := OrderFor(w, req), HoldPrice(req), Apply(w.ledger, 1, HoldFor(req));
    var walk := WalkOf(req.symbol, w.books[req.symbol], o);
    var s2, flow := SettleAll(s1, walk.trades, price), LogFlow(Execs(s1, w.clock, walk.trades, price), k);
    HoldKeepsBalance(w, req, k);
    OrderWalkMoves(w, req, k);
    assert Moves(s1, s2, k, flow);
    DropKeepsBalance(s2, o, price, walk.left, k);
    SubmittedLedger(w, req);
    MovesOn(w.ledger, s1, s2, Submit(w, req).ledger, k, flow);
  }

  lemma SubmitMovesBalance(w: World, req: Request, k: Key)
    requires Good(w) && k in w.ledger.accounts
    ensures var w' := Submit(w, req);
      && k in w'.ledger.accounts
      && w'.ledger.accounts[k].Balance() - LogFlow(w'.log, k) == w.ledger.accounts[k].Balance() - LogFlow(w.log, k)
  {
    if Enters(w, req) {
      var s1, walk := Apply(w.ledger, 1, HoldFor(req)), WalkOf(req.symbol, w.books[req.symbol], OrderFor(w, req));
      OrderMovesBalance(w, req, k);
      LogFlowAdds(w.log, Execs(s1, w.clock, walk.trades, HoldPrice(req)), k);
    }
  }

  lemma {:induction false} SettledQtyIs(s: State, id: Id, trades: seq<Trade>, limit: int)
    requires AllSettle(s, trades, limit)
    ensures SettledQty(Execs(s, id, trades, limit)) == Traded(trades)
    decreases |trades|
  {
    if trades != [] {
      SettledQtyIs(Settle(s, trades[0], limit), id, trades[1..], limit);
      assert Execs(s, id, trades, limit)[1..] == Execs(Settle(s, trades[0], limit), id, trades[1..], limit);
    }
  }

  /** Of every order but a market buy, as much settles as the book filled. */
  lemma SettledInFull(w: World, req: Request)
    requires Good(w) && Enters(w, req) && Limited(req.typ, req.side)
    ensures var w' := Submit(w, req); SettledQty(w'.log[|w.log|..]) == w'.rows[|w.rows|].filled
  {
    var o, limit, s1 := OrderFor(w, req), HoldPrice(req), Apply(w.ledger, 1, HoldFor(req));
    var walk := WalkOf(req.symbol, w.books[req.symbol], o);
    SubmitKeepsBacking(w, req);
    SubmittedWalk(w, req);
    SubmittedRows(w, req);
    SettledQtyIs(s1, o.id, walk.trades, limit);
    LastLogged(w, req, Execs(s1, o.id, walk.trades, limit));
  }

  lemma LastLogged(w: World, req: Request, es: seq<Exec>)
    requires Submit(w, req).log == w.log + es
    ensures Submit(w, req).log[|w.log|..] == es
  {
  }

  /** What one event deposits. */
  function Deposit(w: World, e: Event, k: Key): int {
    if e.TopUpEvent? && TopUp(w.ledger, 1, e.user, e.x).Ok? then If(k == Of(e.user, USD), e.x) else 0
  }

  /** What the accepted top-ups of a run bring account `k`. */
  function Deposits(w: World, events: seq<Event>, k: Key): int
    decreases |events|
  {
    if events == [] then 0 else Deposit(w, events[0], k) + Deposits(Handle(w, events[0]), events[1..], k)
  }

  /** What account `k` has beyond its settled trades. */
  ghost function BeyondTrades(w: World, k: Key): int
    requires k in w.ledger.accounts
  {
    w.ledger.accounts[k].Balance() - LogFlow(w.log, k)
  }

  lemma EventMovesBalance(w: World, e: Event, k: Key)
    requires Good(w) && k in w.ledger.accounts
    ensures k in Handle(w, e).ledger.accounts
    ensures BeyondTrades(Handle(w, e), k) == BeyondTrades(w, k) + Deposit(w, e, k)
  {
    match e {
      case SubmitEvent(req) => SubmitMovesBalance(w, req, k);
      case TopUpEvent(u, x) => if TopUp(w.ledger, 1, u, x).Ok? { OpMovesBalance(w.ledger, TopUpOp(u, x), k); }
    }
  }

  lemma {:induction false} RunMovesBalance(w: World, events: seq<Event>, k: Key)
    requires Good(w) && k in w.ledger.accounts
    ensures k in RunWorld(w, events).ledger.accounts
    ensures BeyondTrades(RunWorld(w, events), k) == BeyondTrades(w, k) + Deposits(w, events, k)
    decreases |events|
  {
    if events != [] {
      HandleKeepsGood(w, events[0]);
      EventMovesBalance(w, events[0], k);
      RunMovesBalance(Handle(w, events[0]), events[1..], k);
    }
  }

  /** Over every run: available + hold of an account is its opening balance, plus its top-ups, plus what
      its user's settled trades brought; and what is available is that minus what its open orders can still cost. */
  lemma BalancesAreTrades(s: State, events: seq<Event>, k: Key)
    requires Good(Opening(s)) && k in s.accounts
    ensures var w := RunWorld(Opening(s), events);
      && k in w.ledger.accounts
      && w.ledger.accounts[k].Balance() == s.accounts[k].Balance() + Deposits(Opening(s), events, k) + LogFlow(w.log, k)
      && w.ledger.accounts[k].available == w.ledger.accounts[k].Balance() - OpenHolds(w.books, k)
  {
    RunMovesBalance(Opening(s), events, k);
    HoldsAndBalancesOverRuns(s, events, k);
  }
}
