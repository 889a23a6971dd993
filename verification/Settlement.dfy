/** Settling trades on the ledger: as internal/orders/service.go does it, and as the holds intend it. */
module Settlement {
  import opened Types
  import opened Rounding
  import opened Ledger

  // ---------------------------------------------------------------- as written

  /** The two transfers of processTrade, in its order. */
  function FirstLeg(t: Trade): Op {
    if t.side.Buy? then TransferOp(Of(t.takerId, USD), Of(t.makerId, USD), t.price * t.qty, USD)
    else TransferOp(Of(t.takerId, BaseOf(t.symbol)), Of(t.makerId, BaseOf(t.symbol)), t.qty, BaseOf(t.symbol))
  }

  function SecondLeg(t: Trade): Op {
    if t.side.Buy?
    then TransferOp(Of(t.makerId, BaseOf(t.symbol)), Of(t.takerId, BaseOf(t.symbol)), t.qty, BaseOf(t.symbol))
    else TransferOp(Of(t.makerId, USD), Of(t.takerId, USD), t.price * t.qty, USD)
  }

  predicate HasAccounts(s: State, user: Id, symbol: Symbol) {
    Of(user, USD) in s.accounts && Of(user, BaseOf(symbol)) in s.accounts
  }

  /** Each leg commits on its own: the enclosing transaction wraps nothing, so the first leg stays
      when the second fails. */
  function ProcessTrade(s: State, d: int, t: Trade): (State, bool)
    requires d > 0
  {
    if !HasAccounts(s, t.takerId, t.symbol) || !HasAccounts(s, t.makerId, t.symbol) then (s, false)
    else
      var r1 := Try(s, d, FirstLeg(t));
      if r1.Err? then (s, false)
      else
        var r2 := Try(r1.state, d, SecondLeg(t));
        if r2.Err? then (r1.state, false) else (r2.state, true)
  }

  /** A trade of users who do not all have their dollar account and that of the trade's coin is not settled. */
  lemma ProcessTradeNeedsAccounts(s: State, t: Trade)
    requires var coin := if t.symbol.BTCUSD? then BTC else ETH;
      Of(t.takerId, USD) !in s.accounts || Of(t.makerId, USD) !in s.accounts
      || Of(t.takerId, coin) !in s.accounts || Of(t.makerId, coin) !in s.accounts
    ensures ProcessTrade(s, 1, t) == (s, false)
  {
  }

  /** Every entry is in its account's currency (the equity account takes any). */
  ghost predicate EntriesTyped(s: State) {
    forall i :: 0 <= i < |s.entries| ==>
      s.entries[i].account.Of? ==> s.entries[i].account.currency == s.entries[i].currency
  }

  predicate Directed(op: Op) {
    op.TransferOp? ==>
      (op.from.Of? ==> op.from.currency == op.currency) && (op.to.Of? ==> op.to.currency == op.currency)
  }

  lemma ApplyKeepsTyped(s: State, d: int, op: Op)
    requires d > 0 && EntriesTyped(s) && Directed(op)
    ensures EntriesTyped(Apply(s, d, op))
  {
    match op {
      case TopUpOp(u, x) => StoredMove(s.journals, Of(u, USD), Equity, -x, USD, d);
      case TransferOp(f, t, x, c) => StoredMove(s.journals, f, t, x, c, d);
      case _ =>
    }
  }

  /** Whether it succeeds, fails, or fails between its legs, a trade between two users keeps every
      account in agreement with the ledger, every journal balanced and every entry typed. */
  lemma ProcessTradeKeepsLedger(s: State, t: Trade, k: Key)
    requires NonNegative(s) && JournalsBalanced(s) && EntriesTyped(s) && k in s.accounts && t.takerId != t.makerId
    ensures var s' := ProcessTrade(s, 1, t).0;
      && k in s'.accounts && Gap(s', k) == Gap(s, k)
      && NonNegative(s') && JournalsBalanced(s') && EntriesTyped(s')
      && (forall c :: SumOf(s'.entries, OfCurrency(c)) == SumOf(s.entries, OfCurrency(c)))
  {
    ExactStorage(t.price * t.qty);
    ExactStorage(t.qty);
    var s1 := Apply(s, 1, FirstLeg(t));
    StepKeeps(s, FirstLeg(t), k);
    StepKeeps(s1, SecondLeg(t), k);
  }

  lemma StepKeeps(s: State, op: Op, k: Key)
    requires NonNegative(s) && JournalsBalanced(s) && EntriesTyped(s) && k in s.accounts
    requires Distinct(op) && Directed(op) && !op.TopUpOp?
    ensures var s' := Apply(s, 1, op);
      && k in s'.accounts && Gap(s', k) == Gap(s, k)
      && NonNegative(s') && JournalsBalanced(s') && EntriesTyped(s')
      && (forall c :: SumOf(s'.entries, OfCurrency(c)) == SumOf(s.entries, OfCurrency(c)))
  {
    ExactStorage(op.x);
    ApplyNonNegative(s, 1, op);
    ApplyKeepsJournals(s, 1, op);
    ApplyKeepsTyped(s, 1, op);
    ApplyDrift(s, 1, op, k);
  }

  /** As written, fills are paid from what is available, never from the hold: a trade settles exactly
      when the payer still has that much outside the hold. */
  lemma ProcessTradeSettlesIff(s: State, t: Trade)
    requires HasAccounts(s, t.takerId, t.symbol) && HasAccounts(s, t.makerId, t.symbol)
    requires t.takerId != t.makerId && t.price > 0 && t.qty > 0
    ensures var (buyer, seller) := if t.side.Buy? then (t.takerId, t.makerId) else (t.makerId, t.takerId);
      var coin := if t.symbol.BTCUSD? then BTC else ETH;
      ProcessTrade(s, 1, t).1 <==>
        s.accounts[Of(buyer, USD)].available >= t.price * t.qty && s.accounts[Of(seller, coin)].available >= t.qty
  {
    assert t.price * t.qty > 0;
  }

  /** The failure: a buyer whose whole balance is on hold for the order cannot pay for its own fill. */
  lemma HoldDoesNotPayAsWritten(s: State, t: Trade, amount: int)
    requires t.side.Buy? && t.takerId != t.makerId && t.price > 0 && t.qty > 0
    requires HasAccounts(s, t.takerId, t.symbol) && HasAccounts(s, t.makerId, t.symbol)
    requires amount == t.price * t.qty && s.accounts[Of(t.takerId, USD)].available == amount
    ensures Hold(s, 1, t.takerId, USD, amount).Ok?
    ensures !ProcessTrade(Hold(s, 1, t.takerId, USD, amount).state, 1, t).1
  {
    assert amount > 0;
    ExactStorage(s.accounts[Of(t.takerId, USD)].available * 1 - amount);
  }

  /** The taker pays first, dollars to buy or coins to sell. A trade is left half settled, this payment made and
      the maker's refused, exactly when the taker's available balance covers what it pays and the maker's does not. */
  lemma HalfSettledIff(s: State, t: Trade)
    requires HasAccounts(s, t.takerId, t.symbol) && HasAccounts(s, t.makerId, t.symbol)
    requires t.takerId != t.makerId && t.price > 0 && t.qty > 0
    ensures var coin := if t.symbol.BTCUSD? then BTC else ETH;
      !ProcessTrade(s, 1, t).1 && ProcessTrade(s, 1, t).0 != s <==>
      if t.side.Buy?
      then s.accounts[Of(t.takerId, USD)].available >= t.price * t.qty
           && s.accounts[Of(t.makerId, coin)].available < t.qty
      else s.accounts[Of(t.takerId, coin)].available >= t.qty
           && s.accounts[Of(t.makerId, USD)].available < t.price * t.qty
  {
    assert t.price * t.qty > 0;
    var s1 := Apply(s, 1, FirstLeg(t));
    assert Try(s, 1, FirstLeg(t)).Ok? ==> s1.journals == s.journals + 1;
  }

  /** What a half-settled trade leaves: the maker has the taker's dollars, or coins, and the taker has nothing. */
  lemma HalfSettledLeaves(s: State, t: Trade)
    requires HasAccounts(s, t.takerId, t.symbol) && HasAccounts(s, t.makerId, t.symbol)
    requires t.takerId != t.makerId && t.price > 0 && t.qty > 0
    requires !ProcessTrade(s, 1, t).1 && ProcessTrade(s, 1, t).0 != s
    ensures var coin := if t.symbol.BTCUSD? then BTC else ETH;
      var (c, x) := if t.side.Buy? then (USD, t.price * t.qty) else (coin, t.qty);
      var from, to := s.accounts[Of(t.takerId, c)], s.accounts[Of(t.makerId, c)];
      ProcessTrade(s, 1, t).0.accounts ==
      s.accounts[Of(t.takerId, c) := Account(from.available - x, from.hold)]
                [Of(t.makerId, c) := Account(to.available + x, to.hold)]
  {
    assert t.price * t.qty > 0;
    TransferMoves(s, FirstLeg(t));
  }

  /** What a trade settled as written leaves: dollars one way, coins of its own symbol the other. */
  lemma ProcessTradeMoves(s: State, t: Trade)
    requires HasAccounts(s, t.takerId, t.symbol) && HasAccounts(s, t.makerId, t.symbol)
    requires t.takerId != t.makerId && t.price > 0 && t.qty > 0 && ProcessTrade(s, 1, t).1
    ensures var coin := if t.symbol.BTCUSD? then BTC else ETH;
      var (buyer, seller) := if t.side.Buy? then (t.takerId, t.makerId) else (t.makerId, t.takerId);
      var s', v := ProcessTrade(s, 1, t).0, t.price * t.qty;
      && s'.accounts.Keys == s.accounts.Keys
      && (forall k :: k in s.accounts ==>
            s'.accounts[k].hold == s.accounts[k].hold
            && s'.accounts[k].available ==
               s.accounts[k].available - If(k == Of(buyer, USD), v) + If(k == Of(seller, USD), v)
               + If(k == Of(buyer, coin), t.qty) - If(k == Of(seller, coin), t.qty))
  {
    ProcessTradeSettlesIff(s, t);
    LegsMove(s, t);
  }

  /** One: a buyer pays 100 to a seller without coins, gets none, and the 100 is gone. */
  lemma HalfSettledTrade(buyer: Id, seller: Id)
    requires buyer != seller
    ensures var t := Trade(BTCUSD, Buy, 100, 1, buyer, seller, 0);
      var s := State(map[Of(buyer, USD) := Account(100, 0), Of(buyer, BTC) := Account(0, 0),
                         Of(seller, USD) := Account(0, 0), Of(seller, BTC) := Account(0, 0)], [], 0);
      var (s', ok) := ProcessTrade(s, 1, t);
      && !ok && s'.accounts == s.accounts[Of(buyer, USD) := Account(0, 0)][Of(seller, USD) := Account(100, 0)]
  {
    var t := Trade(BTCUSD, Buy, 100, 1, buyer, seller, 0);
    var s := State(map[Of(buyer, USD) := Account(100, 0), Of(buyer, BTC) := Account(0, 0),
                       Of(seller, USD) := Account(0, 0), Of(seller, BTC) := Account(0, 0)], [], 0);
    TransferMoves(s, FirstLeg(t));
    assert Try(Apply(s, 1, FirstLeg(t)), 1, SecondLeg(t)).Err?;
  }

  // ---------------------------------------------------------------- as intended

  function Buyer(t: Trade): Id { if t.side.Buy? then t.takerId else t.makerId }
  function Seller(t: Trade): Id { if t.side.Buy? then t.makerId else t.takerId }

  /** What the buyer had on hold for one unit: a buying taker its limit, or its quote, a resting bid its price. */
  function HeldPrice(t: Trade, limit: int): int { if t.side.Buy? then limit else t.price }

  /** Release both parties' holds for the traded quantity, then make the two transfers; the price
      improvement stays available. Moving money to oneself is no transfer. */
  function SettleOps(t: Trade, limit: int): seq<Op> {
    [ReleaseOp(Buyer(t), USD, HeldPrice(t, limit) * t.qty), ReleaseOp(Seller(t), BaseOf(t.symbol), t.qty)]
    + if t.takerId == t.makerId then [] else [FirstLeg(t), SecondLeg(t)]
  }

  /** One step after another, up to the first that fails. */
  function Chain(s: State, ops: seq<Op>): State
    decreases |ops|
  {
    if ops == [] || Try(s, 1, ops[0]).Err? then s else Chain(Apply(s, 1, ops[0]), ops[1..])
  }

  function Settle(s: State, t: Trade, limit: int): State { Chain(s, SettleOps(t, limit)) }

  function SettleAll(s: State, trades: seq<Trade>, limit: int): State
    decreases |trades|
  {
    if trades == [] then s else SettleAll(Settle(s, trades[0], limit), trades[1..], limit)
  }

  predicate AllSucceed(s: State, ops: seq<Op>)
    decreases |ops|
  {
    ops == [] || (Try(s, 1, ops[0]).Ok? && AllSucceed(Apply(s, 1, ops[0]), ops[1..]))
  }

  function If(c: bool, x: int): int { if c then x else 0 }

  /** Account `k` after `q` coins are sold for `v`, of `h` that the buyer had on hold for them. */
  function Shift(buyer: Id, seller: Id, base: Currency, h: int, v: int, q: int, k: Key, a: Account): Account {
    Account(
      a.available + If(k == Of(buyer, USD), h - v) + If(k == Of(seller, USD), v) + If(k == Of(buyer, base), q),
      a.hold - If(k == Of(buyer, USD), h) - If(k == Of(seller, base), q))
  }

  /** What settling a trade does to account `k`. */
  function Moved(t: Trade, limit: int, k: Key, a: Account): Account {
    Shift(Buyer(t), Seller(t), BaseOf(t.symbol), HeldPrice(t, limit) * t.qty, t.price * t.qty, t.qty, k, a)
  }

  /** Both holds cover the traded quantity. */
  predicate HoldsCover(s: State, t: Trade, limit: int) {
    && HasAccounts(s, t.takerId, t.symbol) && HasAccounts(s, t.makerId, t.symbol)
    && t.price > 0 && HeldPrice(t, limit) > 0 && t.qty > 0
    && s.accounts[Of(Buyer(t), USD)].hold >= HeldPrice(t, limit) * t.qty
    && s.accounts[Of(Seller(t), BaseOf(t.symbol))].hold >= t.qty
  }

  /** The buyer's hold, with what else it has available, covers the price. */
  predicate Pays(s: State, t: Trade, limit: int)
    requires Of(Buyer(t), USD) in s.accounts
  {
    t.takerId == t.makerId || s.accounts[Of(Buyer(t), USD)].available + HeldPrice(t, limit) * t.qty >= t.price * t.qty
  }

  /** The state once both holds are released. */
  function BothReleased(s: State, t: Trade, limit: int): State {
    Apply(Apply(s, 1, SettleOps(t, limit)[0]), 1, SettleOps(t, limit)[1])
  }

  /** Account `k` with both holds back in its available balance. */
  function Freed(t: Trade, h: int, k: Key, a: Account): Account {
    var freed := If(k == Of(Buyer(t), USD), h) + If(k == Of(Seller(t), BaseOf(t.symbol)), t.qty);
    Account(a.available + freed, a.hold - freed)
  }

  /** Account `k` after both transfers. */
  function Paid(t: Trade, v: int, k: Key, a: Account): Account {
    var base := BaseOf(t.symbol);
    a.(available := a.available - If(k == Of(Buyer(t), USD), v) + If(k == Of(Seller(t), USD), v)
                    + If(k == Of(Buyer(t), base), t.qty) - If(k == Of(Seller(t), base), t.qty))
  }

  lemma ReleasesMove(s: State, t: Trade, limit: int)
    requires HoldsCover(s, t, limit)
    ensures var s2, h := BothReleased(s, t, limit), HeldPrice(t, limit) * t.qty;
      && Try(s, 1, SettleOps(t, limit)[0]).Ok?
      && Try(Apply(s, 1, SettleOps(t, limit)[0]), 1, SettleOps(t, limit)[1]).Ok?
      && s2.accounts.Keys == s.accounts.Keys
      && (forall k :: k in s.accounts ==> s2.accounts[k] == Freed(t, h, k, s.accounts[k]))
  {
    assert HeldPrice(t, limit) * t.qty > 0;
    ReleaseMoves(s, SettleOps(t, limit)[0]);
    ReleaseMoves(Apply(s, 1, SettleOps(t, limit)[0]), SettleOps(t, limit)[1]);
  }

  lemma LegsMove(s: State, t: Trade)
    requires HasAccounts(s, t.takerId, t.symbol) && HasAccounts(s, t.makerId, t.symbol)
    requires t.takerId != t.makerId && t.price > 0 && t.qty > 0
    requires s.accounts[Of(Buyer(t), USD)].available >= t.price * t.qty
    requires s.accounts[Of(Seller(t), BaseOf(t.symbol))].available >= t.qty
    ensures var s2, v := Apply(Apply(s, 1, FirstLeg(t)), 1, SecondLeg(t)), t.price * t.qty;
      && Try(s, 1, FirstLeg(t)).Ok? && Try(Apply(s, 1, FirstLeg(t)), 1, SecondLeg(t)).Ok?
      && s2.accounts.Keys == s.accounts.Keys
      && (forall k :: k in s.accounts ==> s2.accounts[k] == Paid(t, v, k, s.accounts[k]))
  {
    assert t.price * t.qty > 0;
    TransferShifts(s, FirstLeg(t));
    TransferShifts(Apply(s, 1, FirstLeg(t)), SecondLeg(t));
  }

  /** A transfer, account by account. */
  lemma TransferShifts(s: State, op: Op)
    requires op.TransferOp? && op.from != op.to && op.from in s.accounts && op.to in s.accounts && op.x > 0
    requires s.accounts[op.from].available >= op.x
    ensures Try(s, 1, op).Ok? && Apply(s, 1, op).accounts.Keys == s.accounts.Keys
    ensures forall k :: k in s.accounts ==>
      var a := s.accounts[k];
      Apply(s, 1, op).accounts[k] == a.(available := a.available - If(k == op.from, op.x) + If(k == op.to, op.x))
  {
    TransferMoves(s, op);
  }

  /** Released and paid is moved. */
  lemma FreedThenPaid(t: Trade, limit: int, k: Key, a: Account)
    ensures var freed := Freed(t, HeldPrice(t, limit) * t.qty, k, a);
      && (t.takerId != t.makerId ==> Paid(t, t.price * t.qty, k, freed) == Moved(t, limit, k, a))
      && (t.takerId == t.makerId ==> freed == Moved(t, limit, k, a))
  {
  }

  lemma ChainCons(s: State, op: Op, rest: seq<Op>)
    ensures Chain(s, [op] + rest) == if Try(s, 1, op).Ok? then Chain(Apply(s, 1, op), rest) else s
    ensures AllSucceed(s, [op] + rest) <==> Try(s, 1, op).Ok? && AllSucceed(Apply(s, 1, op), rest)
  {
    assert ([op] + rest)[1..] == rest;
  }

  function Legs(t: Trade): seq<Op> { if t.takerId == t.makerId then [] else [FirstLeg(t), SecondLeg(t)] }

  lemma ReleasesFirst(s: State, t: Trade, limit: int)
    requires Try(s, 1, SettleOps(t, limit)[0]).Ok?
      && Try(Apply(s, 1, SettleOps(t, limit)[0]), 1, SettleOps(t, limit)[1]).Ok?
    ensures Settle(s, t, limit) == Chain(BothReleased(s, t, limit), Legs(t))
    ensures AllSucceed(s, SettleOps(t, limit)) <==> AllSucceed(BothReleased(s, t, limit), Legs(t))
  {
    var ops := SettleOps(t, limit);
    assert ops == [ops[0]] + ([ops[1]] + Legs(t));
    ChainCons(s, ops[0], [ops[1]] + Legs(t));
    ChainCons(Apply(s, 1, ops[0]), ops[1], Legs(t));
  }

  /** Between two users the legs are those of processTrade. */
  lemma LegsAreProcessTrade(s: State, t: Trade)
    requires HasAccounts(s, t.takerId, t.symbol) && HasAccounts(s, t.makerId, t.symbol) && t.takerId != t.makerId
    ensures Chain(s, Legs(t)) == ProcessTrade(s, 1, t).0
    ensures AllSucceed(s, Legs(t)) <==> ProcessTrade(s, 1, t).1
  {
    assert Legs(t) == [FirstLeg(t)] + ([SecondLeg(t)] + []);
    ChainCons(s, FirstLeg(t), [SecondLeg(t)] + []);
    ChainCons(Apply(s, 1, FirstLeg(t)), SecondLeg(t), []);
  }

  /** The repaired settlement is the code's, once both holds are released. */
  lemma SettleIsProcessTrade(s: State, t: Trade, limit: int)
    requires HoldsCover(s, t, limit) && t.takerId != t.makerId
    ensures (Settle(s, t, limit), AllSucceed(s, SettleOps(t, limit))) == ProcessTrade(BothReleased(s, t, limit), 1, t)
  {
    ReleasesMove(s, t, limit);
    ReleasesFirst(s, t, limit);
    LegsAreProcessTrade(BothReleased(s, t, limit), t);
  }

  /** When both holds cover a trade its settlement takes exactly its share off them, and succeeds exactly
      when the buyer can pay; otherwise the holds are released and nothing else happens. */
  lemma SettleHolds(s: State, t: Trade, limit: int)
    requires HoldsCover(s, t, limit) && NonNegative(s)
    ensures Settle(s, t, limit).accounts.Keys == s.accounts.Keys
    ensures forall k :: k in s.accounts ==>
      Settle(s, t, limit).accounts[k].hold == Freed(t, HeldPrice(t, limit) * t.qty, k, s.accounts[k]).hold
    ensures AllSucceed(s, SettleOps(t, limit)) <==> Pays(s, t, limit)
    ensures !Pays(s, t, limit) ==> Settle(s, t, limit) == BothReleased(s, t, limit)
  {
    assert HeldPrice(t, limit) * t.qty > 0 && t.price * t.qty > 0;
    ReleasesMove(s, t, limit);
    ReleasesFirst(s, t, limit);
    var s2 := BothReleased(s, t, limit);
    if t.takerId != t.makerId {
      LegsAreProcessTrade(s2, t);
      if Pays(s, t, limit) { LegsMove(s2, t); }
    }
  }

  /** A market buy filled above the quote it was held at: without money beside its hold, the fill is not paid. */
  lemma QuoteTooLow(s: State, t: Trade, quote: int)
    requires HoldsCover(s, t, quote) && NonNegative(s) && t.takerId != t.makerId
    requires t.side.Buy? && t.price > quote && s.accounts[Of(t.takerId, USD)].available == 0
    ensures !AllSucceed(s, SettleOps(t, quote)) && Settle(s, t, quote) == BothReleased(s, t, quote)
  {
    CostsMore(t.price, quote, t.qty);
    SettleHolds(s, t, quote);
  }

  lemma CostsMore(price: int, quote: int, qty: int)
    requires price > quote && qty > 0
    ensures price * qty > quote * qty
  {
  }

  /** When both holds cover the trade and its price, it settles in full: the hold pays, the seller gets
      the price, the buyer gets the coins and keeps its price improvement. */
  lemma SettleMoves(s: State, t: Trade, limit: int)
    requires HoldsCover(s, t, limit) && NonNegative(s) && t.price <= HeldPrice(t, limit)
    ensures AllSucceed(s, SettleOps(t, limit))
    ensures Settle(s, t, limit).accounts.Keys == s.accounts.Keys
    ensures forall k :: k in s.accounts ==> Settle(s, t, limit).accounts[k] == Moved(t, limit, k, s.accounts[k])
  {
    assert HeldPrice(t, limit) * t.qty >= t.price * t.qty > 0;
    ReleasesMove(s, t, limit);
    ReleasesFirst(s, t, limit);
    var s2 := BothReleased(s, t, limit);
    if t.takerId != t.makerId {
      LegsAreProcessTrade(s2, t);
      LegsMove(s2, t);
    }
    forall k | k in s.accounts ensures Settle(s, t, limit).accounts[k] == Moved(t, limit, k, s.accounts[k]) {
      FreedThenPaid(t, limit, k, s.accounts[k]);
    }
  }

  lemma ReleaseMoves(s: State, op: Op)
    requires op.ReleaseOp? && op.x > 0 && Of(op.user, op.currency) in s.accounts
    requires s.accounts[Of(op.user, op.currency)].hold >= op.x
    ensures Try(s, 1, op).Ok?
    ensures var k := Of(op.user, op.currency); var a := s.accounts[k];
      Apply(s, 1, op).accounts == s.accounts[k := Account(a.available + op.x, a.hold - op.x)]
  {
    ExactWrites(s.accounts[Of(op.user, op.currency)], op.x);
  }

  lemma TransferMoves(s: State, op: Op)
    requires op.TransferOp? && op.from != op.to && op.from in s.accounts && op.to in s.accounts && op.x > 0
    requires s.accounts[op.from].available >= op.x
    ensures Try(s, 1, op).Ok?
    ensures var f, t := s.accounts[op.from], s.accounts[op.to];
      Apply(s, 1, op).accounts ==
      s.accounts[op.from := f.(available := f.available - op.x)][op.to := t.(available := t.available + op.x)]
  {
    ExactWrites(s.accounts[op.from], op.x);
    ExactWrites(s.accounts[op.to], op.x);
  }
}
