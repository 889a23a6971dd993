/** Double-entry ledger and account balances (internal/ledger). Balances and entries are stored in
    units of 10^-10; requested amounts are in subunits, `d` to the unit (see Rounding.dfy). */
module Ledger {
  import opened Types
  import opened Rounding

  /** `Equity` is the system account, uuid.Nil in the source. */
  datatype Key = Equity | Of(user: Id, currency: Currency)

  datatype Account = Account(available: int, hold: int)
  {
    function Balance(): int { available + hold }
  }

  datatype Entry = Entry(journal: nat, account: Key, amount: int, currency: Currency)

  datatype State = State(accounts: map<Key, Account>, entries: seq<Entry>, journals: nat)

  datatype Error = NotPositive | NoAccount | Insufficient
  datatype Result = Ok(state: State) | Err(error: Error)

  // ---------------------------------------------------------------- what each operation writes

  function Credited(a: Account, x: int, d: int): Account requires d > 0 {
    a.(available := Round(a.available * d + x, d))
  }

  function Debited(a: Account, x: int, d: int): Account requires d > 0 {
    a.(available := Round(a.available * d - x, d))
  }

  function Held(a: Account, x: int, d: int): Account requires d > 0 {
    Account(Round(a.available * d - x, d), Round(a.hold * d + x, d))
  }

  function Released(a: Account, x: int, d: int): Account requires d > 0 {
    Account(Round(a.available * d + x, d), Round(a.hold * d - x, d))
  }

  /** The journal that moves `x` from one account to another. */
  function Move(j: nat, from: Key, to: Key, x: int, c: Currency): seq<Entry> {
    [Entry(j, from, -x, c), Entry(j, to, x, c)]
  }

  function Stored(es: seq<Entry>, d: int): (r: seq<Entry>)
    requires d > 0
  {
    if es == [] then [] else [es[0].(amount := Round(es[0].amount, d))] + Stored(es[1..], d)
  }

  // ---------------------------------------------------------------- the operations

  function TopUp(s: State, d: int, user: Id, x: int): Result
    requires d > 0
  {
    var k := Of(user, USD);
    if x <= 0 then Err(NotPositive)
    else if k !in s.accounts then Err(NoAccount)
    else Ok(State(s.accounts[k := Credited(s.accounts[k], x, d)],
                  s.entries + Stored(Move(s.journals, k, Equity, -x, USD), d), s.journals + 1))
  }

  function Hold(s: State, d: int, user: Id, c: Currency, x: int): Result
    requires d > 0
  {
    var k := Of(user, c);
    if x <= 0 then Err(NotPositive)
    else if k !in s.accounts then Err(NoAccount)
    else if s.accounts[k].available * d < x then Err(Insufficient)
    else Ok(s.(accounts := s.accounts[k := Held(s.accounts[k], x, d)]))
  }

  function Release(s: State, d: int, user: Id, c: Currency, x: int): Result
    requires d > 0
  {
    var k := Of(user, c);
    if x <= 0 then Err(NotPositive)
    else if k !in s.accounts then Err(NoAccount)
    else if s.accounts[k].hold * d < x then Err(Insufficient)
    else Ok(s.(accounts := s.accounts[k := Released(s.accounts[k], x, d)]))
  }

  /** Both accounts are read before either is written, so with `from == to` the credit overwrites
      the debit. */
  function Transfer(s: State, d: int, from: Key, to: Key, x: int, c: Currency): Result
    requires d > 0
  {
    if x <= 0 then Err(NotPositive)
    else if from !in s.accounts || to !in s.accounts then Err(NoAccount)
    else if s.accounts[from].available * d < x then Err(Insufficient)
    else Ok(State(s.accounts[from := Debited(s.accounts[from], x, d)][to := Credited(s.accounts[to], x, d)],
                  s.entries + Stored(Move(s.journals, from, to, x, c), d), s.journals + 1))
  }

  datatype Op =
    | TopUpOp(user: Id, x: int)
    | HoldOp(user: Id, currency: Currency, x: int)
    | ReleaseOp(user: Id, currency: Currency, x: int)
    | TransferOp(from: Key, to: Key, x: int, currency: Currency)

  function Try(s: State, d: int, op: Op): Result
    requires d > 0
  {
    match op
    case TopUpOp(u, x) => TopUp(s, d, u, x)
    case HoldOp(u, c, x) => Hold(s, d, u, c, x)
    case ReleaseOp(u, c, x) => Release(s, d, u, c, x)
    case TransferOp(f, t, x, c) => Transfer(s, d, f, t, x, c)
  }

  /** A failed operation rolls back. */
  function Apply(s: State, d: int, op: Op): State
    requires d > 0
  {
    var r := Try(s, d, op);
    if r.Ok? then r.state else s
  }

  function Run(s: State, d: int, ops: seq<Op>): State
    requires d > 0
    decreases |ops|
  {
    if ops == [] then s else Run(Apply(s, d, ops[0]), d, ops[1..])
  }

  // ---------------------------------------------------------------- the operations, in so many words

  /** What is refused: anything that is not positive, an account that does not exist, and more than the account
      has available, or on hold, to give. */
  lemma RefusedIff(s: State, d: int, op: Op)
    requires d > 0
    ensures op.x <= 0 ==> Try(s, d, op) == Err(NotPositive)
    ensures Try(s, d, op).Err? ==> Apply(s, d, op) == s
    ensures op.TopUpOp? ==> (Try(s, d, op).Ok? <==> op.x > 0 && Of(op.user, USD) in s.accounts)
    ensures op.HoldOp? ==>
      (Try(s, d, op).Ok? <==>
       op.x > 0 && Of(op.user, op.currency) in s.accounts && op.x <= s.accounts[Of(op.user, op.currency)].available * d)
    ensures op.ReleaseOp? ==>
      (Try(s, d, op).Ok? <==>
       op.x > 0 && Of(op.user, op.currency) in s.accounts && op.x <= s.accounts[Of(op.user, op.currency)].hold * d)
    ensures op.TransferOp? ==>
      (Try(s, d, op).Ok? <==>
       op.x > 0 && op.from in s.accounts && op.to in s.accounts && op.x <= s.accounts[op.from].available * d)
  {
  }

  lemma ExactWrites(a: Account, x: int)
    ensures Credited(a, x, 1) == a.(available := a.available + x)
    ensures Debited(a, x, 1) == a.(available := a.available - x)
    ensures Held(a, x, 1) == Account(a.available - x, a.hold + x)
    ensures Released(a, x, 1) == Account(a.available + x, a.hold - x)
  {
    ExactStorage(a.available + x);
    ExactStorage(a.available - x);
    ExactStorage(a.hold + x);
    ExactStorage(a.hold - x);
  }

  /** What an accepted operation leaves, in exact amounts: the one or two accounts it names, and its journal. */
  lemma AcceptedDoes(s: State, op: Op)
    requires Try(s, 1, op).Ok? && (op.TransferOp? ==> op.from != op.to)
    ensures var s', j := Apply(s, 1, op), s.journals;
      match op
      case TopUpOp(u, x) =>
        && s'.accounts == s.accounts[Of(u, USD) := Account(s.accounts[Of(u, USD)].available + x,
                                                           s.accounts[Of(u, USD)].hold)]
        && s'.entries == s.entries + [Entry(j, Of(u, USD), x, USD), Entry(j, Equity, -x, USD)] && s'.journals == j + 1
      case HoldOp(u, c, x) =>
        s' == s.(accounts := s.accounts[Of(u, c) := Account(s.accounts[Of(u, c)].available - x,
                                                            s.accounts[Of(u, c)].hold + x)])
      case ReleaseOp(u, c, x) =>
        s' == s.(accounts := s.accounts[Of(u, c) := Account(s.accounts[Of(u, c)].available + x,
                                                            s.accounts[Of(u, c)].hold - x)])
      case TransferOp(f, t, x, c) =>
        && s'.accounts == s.accounts[f := Account(s.accounts[f].available - x, s.accounts[f].hold)]
                                    [t := Account(s.accounts[t].available + x, s.accounts[t].hold)]
        && s'.entries == s.entries + [Entry(j, f, -x, c), Entry(j, t, x, c)] && s'.journals == j + 1
  {
    ExactStorage(op.x);
    match op {
      case TopUpOp(u, x) =>
        ExactWrites(s.accounts[Of(u, USD)], x);
        StoredMove(s.journals, Of(u, USD), Equity, -x, USD, 1);
        ExactStorage(-x);
      case HoldOp(u, c, x) => ExactWrites(s.accounts[Of(u, c)], x);
      case ReleaseOp(u, c, x) => ExactWrites(s.accounts[Of(u, c)], x);
      case TransferOp(f, t, x, c) =>
        ExactWrites(s.accounts[f], x);
        ExactWrites(s.accounts[t], x);
        StoredMove(s.journals, f, t, x, c, 1);
    }
  }

  // ---------------------------------------------------------------- sums over entries

  datatype Which = OfAccount(k: Key) | OfJournal(j: nat) | OfCurrency(c: Currency)

  predicate Picks(w: Which, e: Entry) {
    match w
    case OfAccount(k) => e.account == k
    case OfJournal(j) => e.journal == j
    case OfCurrency(c) => e.currency == c
  }

  function SumOf(es: seq<Entry>, w: Which): int {
    if es == [] then 0 else (if Picks(w, es[0]) then es[0].amount else 0) + SumOf(es[1..], w)
  }

  lemma {:induction false} SumConcat(a: seq<Entry>, b: seq<Entry>, w: Which)
    ensures SumOf(a + b, w) == SumOf(a, w) + SumOf(b, w)
  {
    if a == [] {
      assert a + b == b;
    } else {
      SumConcat(a[1..], b, w);
      assert (a + b)[1..] == a[1..] + b;
    }
  }

  lemma StoredMove(j: nat, from: Key, to: Key, x: int, c: Currency, d: int)
    requires d > 0
    ensures Stored(Move(j, from, to, x, c), d) == Move(j, from, to, Round(x, d), c)
  {
    RoundOdd(x, d);
    var es := Move(j, from, to, x, c);
    assert es[1..] == [es[1]];
    assert Stored(es[1..], d) == [es[1].(amount := Round(x, d))] + Stored([], d);
  }

  /** What one stored journal adds to each sum. */
  lemma MoveSums(es: seq<Entry>, j: nat, from: Key, to: Key, x: int, c: Currency, d: int, w: Which)
    requires d > 0
    ensures var r := Round(x, d);
      SumOf(es + Stored(Move(j, from, to, x, c), d), w) ==
      SumOf(es, w) + (if Picks(w, Entry(j, from, -r, c)) then -r else 0)
        + (if Picks(w, Entry(j, to, r, c)) then r else 0)
  {
    StoredMove(j, from, to, x, c, d);
    var m := Move(j, from, to, Round(x, d), c);
    SumConcat(es, m, w);
    assert m[1..] == [m[1]];
    assert SumOf([m[1]], w) == if Picks(w, m[1]) then m[1].amount else 0;
  }

  // ---------------------------------------------------------------- journals stay balanced

  ghost predicate JournalsBalanced(s: State) {
    && (forall i :: 0 <= i < |s.entries| ==> s.entries[i].journal < s.journals)
    && (forall j: nat :: SumOf(s.entries, OfJournal(j)) == 0)
  }

  /** Every stored journal sums to exactly zero, however its amounts were rounded; and so does every
      currency over all entries, system equity included. */
  lemma ApplyKeepsJournals(s: State, d: int, op: Op)
    requires d > 0 && JournalsBalanced(s)
    ensures JournalsBalanced(Apply(s, d, op))
    ensures forall c :: SumOf(Apply(s, d, op).entries, OfCurrency(c)) == SumOf(s.entries, OfCurrency(c))
  {
    var s' := Apply(s, d, op);
    if s'.entries != s.entries {
      var (f, t, x, c) := match op
        case TopUpOp(u, x) => (Of(u, USD), Equity, -x, USD)
        case TransferOp(f, t, x, c) => (f, t, x, c)
        case _ => (Equity, Equity, 0, USD);
      assert s'.entries == s.entries + Stored(Move(s.journals, f, t, x, c), d);
      StoredMove(s.journals, f, t, x, c, d);
      forall j: nat ensures SumOf(s'.entries, OfJournal(j)) == 0 {
        MoveSums(s.entries, s.journals, f, t, x, c, d, OfJournal(j));
      }
      forall c' ensures SumOf(s'.entries, OfCurrency(c')) == SumOf(s.entries, OfCurrency(c')) {
        MoveSums(s.entries, s.journals, f, t, x, c, d, OfCurrency(c'));
      }
    }
  }

  // ---------------------------------------------------------------- no overdraft

  ghost predicate NonNegative(s: State) {
    forall k :: k in s.accounts ==> s.accounts[k].available >= 0 && s.accounts[k].hold >= 0
  }

  lemma WritesNonNegative(a: Account, x: int, d: int)
    requires d > 0 && x >= 0 && a.available >= 0 && a.hold >= 0
    ensures Credited(a, x, d).available >= 0
    ensures a.available * d >= x ==>
      Debited(a, x, d).available >= 0 && Held(a, x, d).available >= 0 && Held(a, x, d).hold >= 0
    ensures a.hold * d >= x ==> Released(a, x, d).available >= 0 && Released(a, x, d).hold >= 0
  {
    assert a.available * d >= 0 && a.hold * d >= 0;
    RoundNonNegative(a.available * d + x, d);
    RoundNonNegative(a.hold * d + x, d);
    if a.available * d >= x { RoundNonNegative(a.available * d - x, d); }
    if a.hold * d >= x { RoundNonNegative(a.hold * d - x, d); }
  }

  lemma ApplyNonNegative(s: State, d: int, op: Op)
    requires d > 0 && NonNegative(s)
    ensures NonNegative(Apply(s, d, op))
    ensures Apply(s, d, op).accounts.Keys == s.accounts.Keys
  {
    if op.x > 0 {
      forall k | k in s.accounts
        ensures var a := Apply(s, d, op).accounts[k]; a.available >= 0 && a.hold >= 0
      {
        WritesNonNegative(s.accounts[k], op.x, d);
      }
    }
  }

  // ---------------------------------------------------------------- balances agree with the ledger

  /** How far an account's stored balance is above the sum of its ledger entries. */
  ghost function Gap(s: State, k: Key): int
    requires k in s.accounts
  {
    s.accounts[k].Balance() - SumOf(s.entries, OfAccount(k))
  }

  /** The amount is taken out of a stored number of account `k`. */
  predicate Debits(op: Op, k: Key) {
    match op
    case TopUpOp(_, _) => false
    case HoldOp(u, c, _) => k == Of(u, c)
    case ReleaseOp(u, c, _) => k == Of(u, c)
    case TransferOp(f, _, _, _) => k == f
  }

  predicate Distinct(op: Op) { op.TransferOp? ==> op.from != op.to }

  /** The unit an operation leaves behind on account `k`: one when it succeeds and halves a unit. */
  function Drift(s: State, d: int, op: Op, k: Key): int
    requires d > 0
  {
    if Try(s, d, op).Ok? && Debits(op, k) then TieUnit(op.x, d) else 0
  }

  lemma BalanceWrites(a: Account, x: int, d: int)
    requires d > 0 && x >= 0 && a.available >= 0 && a.hold >= 0
    ensures Credited(a, x, d).Balance() == a.Balance() + Round(x, d)
    ensures a.available * d >= x ==> Debited(a, x, d).Balance() == a.Balance() - Round(x, d) + TieUnit(x, d)
    ensures a.available * d >= x ==> Held(a, x, d).Balance() == a.Balance() + TieUnit(x, d)
    ensures a.hold * d >= x ==> Released(a, x, d).Balance() == a.Balance() + TieUnit(x, d)
  {
    RoundCredit(a.available, x, d);
    RoundCredit(a.hold, x, d);
    if a.available * d >= x { RoundDebit(a.available, x, d); }
    if a.hold * d >= x { RoundDebit(a.hold, x, d); }
  }

  /** One operation between distinct accounts moves an account away from its ledger by exactly its drift. */
  lemma ApplyDrift(s: State, d: int, op: Op, k: Key)
    requires d > 0 && NonNegative(s) && k in s.accounts && Distinct(op)
    ensures k in Apply(s, d, op).accounts
    ensures Gap(Apply(s, d, op), k) == Gap(s, k) + Drift(s, d, op, k)
      + (if Try(s, d, op).Ok? && op.TopUpOp? && k == Equity then Round(op.x, d) else 0)
  {
    if Try(s, d, op).Ok? {
      BalanceWrites(s.accounts[k], op.x, d);
      match op {
        case TopUpOp(u, x) =>
          RoundOdd(x, d);
          MoveSums(s.entries, s.journals, Of(u, USD), Equity, -x, USD, d, OfAccount(k));
        case TransferOp(f, t, x, c) => MoveSums(s.entries, s.journals, f, t, x, c, d, OfAccount(k));
        case _ =>
      }
    }
  }

  /** Units left behind on `k` over a run. */
  function RunDrift(s: State, d: int, ops: seq<Op>, k: Key): int
    requires d > 0
    decreases |ops|
  {
    if ops == [] then 0 else Drift(s, d, ops[0], k) + RunDrift(Apply(s, d, ops[0]), d, ops[1..], k)
  }

  /** Over every run between distinct accounts, every user account's available + hold exceeds the sum
      of its ledger entries, beyond what it did at the start, by exactly the number of its ties. */
  lemma {:induction false} BalancesFollowLedger(s: State, d: int, ops: seq<Op>, k: Key)
    requires d > 0 && NonNegative(s) && k in s.accounts && k != Equity
    requires forall i :: 0 <= i < |ops| ==> Distinct(ops[i])
    ensures k in Run(s, d, ops).accounts
    ensures Gap(Run(s, d, ops), k) == Gap(s, k) + RunDrift(s, d, ops, k)
    ensures NonNegative(Run(s, d, ops))
    decreases |ops|
  {
    if ops != [] {
      ApplyNonNegative(s, d, ops[0]);
      ApplyDrift(s, d, ops[0], k);
      BalancesFollowLedger(Apply(s, d, ops[0]), d, ops[1..], k);
    }
  }

  lemma {:induction false} NoTieNoDrift(s: State, d: int, ops: seq<Op>, k: Key)
    requires d > 0
    ensures 0 <= RunDrift(s, d, ops, k) <= |ops|
    ensures (forall i :: 0 <= i < |ops| ==> !Tie(ops[i].x, d)) ==> RunDrift(s, d, ops, k) == 0
    decreases |ops|
  {
    if ops != [] { NoTieNoDrift(Apply(s, d, ops[0]), d, ops[1..], k); }
  }

  /** In exact arithmetic nothing drifts. */
  lemma ExactBalancesAgree(s: State, ops: seq<Op>, k: Key)
    requires NonNegative(s) && k in s.accounts && k != Equity && Gap(s, k) == 0
    requires forall i :: 0 <= i < |ops| ==> Distinct(ops[i])
    ensures var s' := Run(s, 1, ops); k in s'.accounts && s'.accounts[k].Balance() == SumOf(s'.entries, OfAccount(k))
  {
    forall i | 0 <= i < |ops| ensures !Tie(ops[i].x, 1) {
      ExactStorage(ops[i].x);
    }
    NoTieNoDrift(s, 1, ops, k);
    BalancesFollowLedger(s, 1, ops, k);
  }

  // ---------------------------------------------------------------- the total over all accounts

  ghost function Total(m: map<Key, Account>): int
    decreases m.Keys
  {
    if m.Keys == {} then 0 else var k :| k in m.Keys; m[k].Balance() + Total(m - {k})
  }

  lemma {:induction false} TotalPick(m: map<Key, Account>, k: Key)
    requires k in m
    ensures Total(m) == m[k].Balance() + Total(m - {k})
    decreases m.Keys
  {
    var p :| p in m.Keys && Total(m) == m[p].Balance() + Total(m - {p});
    if p != k {
      TotalPick(m - {p}, k);
      TotalPick(m - {k}, p);
      assert m - {p} - {k} == m - {k} - {p};
    }
  }

  lemma TotalUpdate(m: map<Key, Account>, k: Key, a: Account)
    requires k in m
    ensures Total(m[k := a]) == Total(m) - m[k].Balance() + a.Balance()
  {
    TotalPick(m, k);
    TotalPick(m[k := a], k);
    assert m[k := a] - {k} == m - {k};
  }

  function TotalDrift(s: State, d: int, op: Op): int
    requires d > 0
  {
    if Try(s, d, op).Ok? && !op.TopUpOp? then TieUnit(op.x, d) else 0
  }

  function StoredTopUp(s: State, d: int, op: Op): int
    requires d > 0
  {
    if Try(s, d, op).Ok? && op.TopUpOp? then Round(op.x, d) else 0
  }

  lemma ApplyTotal(s: State, d: int, op: Op)
    requires d > 0 && NonNegative(s) && Distinct(op)
    ensures Total(Apply(s, d, op).accounts) == Total(s.accounts) + StoredTopUp(s, d, op) + TotalDrift(s, d, op)
  {
    if Try(s, d, op).Ok? {
      match op {
        case TopUpOp(u, x) =>
          var k := Of(u, USD);
          BalanceWrites(s.accounts[k], x, d);
          TotalUpdate(s.accounts, k, Credited(s.accounts[k], x, d));
        case HoldOp(u, c, x) =>
          var k := Of(u, c);
          BalanceWrites(s.accounts[k], x, d);
          TotalUpdate(s.accounts, k, Held(s.accounts[k], x, d));
        case ReleaseOp(u, c, x) =>
          var k := Of(u, c);
          BalanceWrites(s.accounts[k], x, d);
          TotalUpdate(s.accounts, k, Released(s.accounts[k], x, d));
        case TransferOp(f, t, x, c) =>
          BalanceWrites(s.accounts[f], x, d);
          BalanceWrites(s.accounts[t], x, d);
          TotalUpdate(s.accounts, f, Debited(s.accounts[f], x, d));
          TotalUpdate(s.accounts[f := Debited(s.accounts[f], x, d)], t, Credited(s.accounts[t], x, d));
      }
    }
  }

  function RunTopUps(s: State, d: int, ops: seq<Op>): int
    requires d > 0
    decreases |ops|
  {
    if ops == [] then 0 else StoredTopUp(s, d, ops[0]) + RunTopUps(Apply(s, d, ops[0]), d, ops[1..])
  }

  /** How many of the steps are holds, releases or transfers. */
  function Moves(ops: seq<Op>): nat {
    if ops == [] then 0 else (if ops[0].TopUpOp? then 0 else 1) + Moves(ops[1..])
  }

  /** Rounding never loses money and creates at most one unit a step: the stored total stays between
      the opening balances plus stored top-ups and that plus the number of hold, release and transfer
      steps. Without ties it is exact. */
  lemma {:induction false} RoundingDriftBound(s: State, d: int, ops: seq<Op>)
    requires d > 0 && NonNegative(s)
    requires forall i :: 0 <= i < |ops| ==> Distinct(ops[i])
    ensures var drift := Total(Run(s, d, ops).accounts) - Total(s.accounts) - RunTopUps(s, d, ops);
      && 0 <= drift <= Moves(ops)
      && ((forall i :: 0 <= i < |ops| ==> !Tie(ops[i].x, d)) ==> drift == 0)
    decreases |ops|
  {
    if ops != [] {
      ApplyNonNegative(s, d, ops[0]);
      ApplyTotal(s, d, ops[0]);
      RoundingDriftBound(Apply(s, d, ops[0]), d, ops[1..]);
    }
  }

  // ---------------------------------------------------------------- self transfers, as written

  /** TransferFunds keeps the account in agreement with the ledger exactly when the two accounts
      differ: with `from == to` the account is credited and never debited. */
  lemma SelfTransferCreatesMoney(s: State, d: int, from: Key, to: Key, x: int, c: Currency)
    requires d > 0 && NonNegative(s) && Transfer(s, d, from, to, x, c).Ok? && Round(x, d) > 0
    ensures Gap(Transfer(s, d, from, to, x, c).state, to) == Gap(s, to) <==> from != to
    ensures from == to ==> Gap(Transfer(s, d, from, to, x, c).state, to) == Gap(s, to) + Round(x, d)
  {
    BalanceWrites(s.accounts[to], x, d);
    MoveSums(s.entries, s.journals, from, to, x, c, d, OfAccount(to));
  }
}
