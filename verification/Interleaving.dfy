/** Any number of ledger operations at once. Each reads committed rows, one account at a time, then
    commits absolute values computed from what it read (internal/ledger/service.go:90-239): another
    operation may commit in between. */
module Interleaving {
  import opened Types
  import opened Rounding
  import opened Ledger

  /** `Reading` has read its first account only; `Ready` has read all it needs. */
  datatype Pending =
    | Reading(op: Op, first: Account)
    | Ready(op: Op, first: Account, second: Account)

  datatype World = World(committed: State, inFlight: map<nat, Pending>)

  datatype Step =
    | Start(pid: nat, op: Op)
    | ReadSecond(pid: nat)
    | Commit(pid: nat)

  function FirstKey(op: Op): Key {
    match op
    case TopUpOp(u, _) => Of(u, USD)
    case HoldOp(u, c, _) => Of(u, c)
    case ReleaseOp(u, c, _) => Of(u, c)
    case TransferOp(f, _, _, _) => f
  }

  /** The sufficiency check, on the values read. */
  predicate Covers(op: Op, first: Account, d: int)
    requires d > 0
  {
    match op
    case TopUpOp(_, _) => true
    case HoldOp(_, _, x) => first.available * d >= x
    case ReleaseOp(_, _, x) => first.hold * d >= x
    case TransferOp(_, _, x, _) => first.available * d >= x
  }

  function FirstWrite(op: Op, first: Account, d: int): Account
    requires d > 0
  {
    match op
    case TopUpOp(_, x) => Credited(first, x, d)
    case HoldOp(_, _, x) => Held(first, x, d)
    case ReleaseOp(_, _, x) => Released(first, x, d)
    case TransferOp(_, _, x, _) => Debited(first, x, d)
  }

  /** The committed transaction: journal rows and absolute balances, all at once. */
  function Committed(s: State, d: int, op: Op, first: Account, second: Account): State
    requires d > 0
  {
    var written := s.accounts[FirstKey(op) := FirstWrite(op, first, d)];
    match op
    case TopUpOp(u, x) =>
      State(written, s.entries + Stored(Move(s.journals, Of(u, USD), Equity, -x, USD), d), s.journals + 1)
    case HoldOp(_, _, _) => s.(accounts := written)
    case ReleaseOp(_, _, _) => s.(accounts := written)
    case TransferOp(f, t, x, c) =>
      State(written[t := Credited(second, x, d)], s.entries + Stored(Move(s.journals, f, t, x, c), d), s.journals + 1)
  }

  function Forget(w: World, pid: nat): World { w.(inFlight := w.inFlight - {pid}) }

  function Next(w: World, d: int, step: Step): World
    requires d > 0
  {
    var s := w.committed;
    match step
    case Start(pid, op) =>
      if pid in w.inFlight || op.x <= 0 || FirstKey(op) !in s.accounts then w
      else
        var first := s.accounts[FirstKey(op)];
        w.(inFlight := w.inFlight[pid := if op.TransferOp? then Reading(op, first) else Ready(op, first, first)])
    case ReadSecond(pid) =>
      if pid !in w.inFlight || !w.inFlight[pid].Reading? then w
      else
        var p := w.inFlight[pid];
        if !p.op.TransferOp? || p.op.to !in s.accounts then Forget(w, pid)
        else w.(inFlight := w.inFlight[pid := Ready(p.op, p.first, s.accounts[p.op.to])])
    case Commit(pid) =>
      if pid !in w.inFlight || !w.inFlight[pid].Ready? then w
      else
        var p := w.inFlight[pid];
        if !Covers(p.op, p.first, d) then Forget(w, pid)
        else World(Committed(s, d, p.op, p.first, p.second), w.inFlight - {pid})
  }

  function RunAll(w: World, d: int, steps: seq<Step>): World
    requires d > 0
    decreases |steps|
  {
    if steps == [] then w else RunAll(Next(w, d, steps[0]), d, steps[1..])
  }

  ghost predicate Sound(a: Account) { a.available >= 0 && a.hold >= 0 }

  /** Nothing committed is overdrawn, nor is any stale copy still in flight; journals sum to zero. */
  ghost predicate Inv(w: World) {
    && NonNegative(w.committed)
    && JournalsBalanced(w.committed)
    && (forall pid :: pid in w.inFlight ==> w.inFlight[pid].op.x > 0 && Sound(w.inFlight[pid].first))
    && (forall pid :: pid in w.inFlight && w.inFlight[pid].Ready? ==> Sound(w.inFlight[pid].second))
  }

  lemma PostedMove(s: State, d: int, f: Key, t: Key, x: int, c: Currency, s': State)
    requires d > 0 && JournalsBalanced(s)
    requires s'.entries == s.entries + Stored(Move(s.journals, f, t, x, c), d) && s'.journals == s.journals + 1
    ensures JournalsBalanced(s')
  {
    StoredMove(s.journals, f, t, x, c, d);
    forall j: nat ensures SumOf(s'.entries, OfJournal(j)) == 0 {
      MoveSums(s.entries, s.journals, f, t, x, c, d, OfJournal(j));
    }
  }

  lemma CommitKeeps(s: State, d: int, op: Op, first: Account, second: Account)
    requires d > 0 && op.x > 0 && NonNegative(s) && JournalsBalanced(s)
    requires Sound(first) && Sound(second) && Covers(op, first, d)
    ensures NonNegative(Committed(s, d, op, first, second)) && JournalsBalanced(Committed(s, d, op, first, second))
  {
    var s' := Committed(s, d, op, first, second);
    WritesNonNegative(first, op.x, d);
    WritesNonNegative(second, op.x, d);
    match op {
      case TopUpOp(u, x) => PostedMove(s, d, Of(u, USD), Equity, -x, USD, s');
      case TransferOp(f, t, x, c) => PostedMove(s, d, f, t, x, c, s');
      case _ =>
    }
  }

  /** No overdraft, and balanced journals, under every interleaving. */
  lemma {:induction false} NoOverdraft(w: World, d: int, steps: seq<Step>)
    requires d > 0 && Inv(w)
    ensures Inv(RunAll(w, d, steps))
    decreases |steps|
  {
    if steps != [] {
      NextKeepsInv(w, d, steps[0]);
      NoOverdraft(Next(w, d, steps[0]), d, steps[1..]);
    }
  }

  /** A commit of values that are still current is the serial operation. */
  lemma CurrentCommitIsSerial(s: State, d: int, op: Op)
    requires d > 0 && Try(s, d, op).Ok?
    ensures FirstKey(op) in s.accounts && SecondKey(op) in s.accounts && Covers(op, s.accounts[FirstKey(op)], d)
    ensures Committed(s, d, op, s.accounts[FirstKey(op)], s.accounts[SecondKey(op)]) == Apply(s, d, op)
  {
  }

  /** The account read second, if any. */
  function SecondKey(op: Op): Key { if op.TransferOp? then op.to else FirstKey(op) }

  lemma AvailableDiffers(op: Op, a: Account, b: Account, d: int)
    requires d > 0 && a.available < b.available
    ensures FirstWrite(op, a, d).available < FirstWrite(op, b, d).available
    ensures Credited(a, op.x, d).available < Credited(b, op.x, d).available
  {
    RoundInjective(a.available, b.available, op.x, d);
    RoundInjective(a.available, b.available, -op.x, d);
  }

  lemma HoldDiffers(op: Op, a: Account, b: Account, d: int)
    requires d > 0 && a.hold < b.hold
    ensures FirstWrite(op, a, d).hold < FirstWrite(op, b, d).hold
    ensures Credited(a, op.x, d).hold < Credited(b, op.x, d).hold
  {
    RoundInjective(a.hold, b.hold, op.x, d);
    RoundInjective(a.hold, b.hold, -op.x, d);
  }

  lemma WritesDiffer(op: Op, a: Account, b: Account, d: int)
    requires d > 0 && a != b
    ensures FirstWrite(op, a, d) != FirstWrite(op, b, d)
    ensures Credited(a, op.x, d) != Credited(b, op.x, d)
  {
    if a.available < b.available {
      AvailableDiffers(op, a, b, d);
    } else if b.available < a.available {
      AvailableDiffers(op, b, a, d);
    } else if a.hold < b.hold {
      HoldDiffers(op, a, b, d);
    } else {
      HoldDiffers(op, b, a, d);
    }
  }

  /** No update is lost: a commit writes what the operation makes of the current rows exactly when the
      rows it read are still the current rows, available and hold both. */
  lemma CommitIsCurrentIff(s: State, d: int, op: Op, first: Account, second: Account)
    requires d > 0 && Distinct(op) && FirstKey(op) in s.accounts && SecondKey(op) in s.accounts
    ensures var a, b := s.accounts[FirstKey(op)], s.accounts[SecondKey(op)];
      Committed(s, d, op, first, second) == Committed(s, d, op, a, b) <==>
      first == a && (op.TransferOp? ==> second == b)
  {
    var a, b := s.accounts[FirstKey(op)], s.accounts[SecondKey(op)];
    var done, current := Committed(s, d, op, first, second), Committed(s, d, op, a, b);
    if first != a {
      WritesDiffer(op, first, a, d);
      assert done.accounts[FirstKey(op)] == FirstWrite(op, first, d)
        && current.accounts[FirstKey(op)] == FirstWrite(op, a, d);
    } else if op.TransferOp? && second != b {
      WritesDiffer(op, second, b, d);
      assert done.accounts[op.to] == Credited(second, op.x, d) && current.accounts[op.to] == Credited(b, op.x, d);
    }
  }

  /** The step commits: an operation is ready and what it read covers it. */
  predicate Commits(w: World, d: int, step: Step)
    requires d > 0
  {
    && step.Commit? && step.pid in w.inFlight && w.inFlight[step.pid].Ready?
    && Covers(w.inFlight[step.pid].op, w.inFlight[step.pid].first, d)
  }

  /** The operations that a run commits, in commit order. */
  function CommittedOps(w: World, d: int, steps: seq<Step>): seq<Op>
    requires d > 0
    decreases |steps|
  {
    if steps == [] then []
    else
      (if Commits(w, d, steps[0]) then [w.inFlight[steps[0].pid].op] else [])
      + CommittedOps(Next(w, d, steps[0]), d, steps[1..])
  }

  /** What it read is what is committed now. */
  ghost predicate Current(s: State, p: Pending) {
    && FirstKey(p.op) in s.accounts && p.first == s.accounts[FirstKey(p.op)]
    && (p.op.TransferOp? && p.Ready? ==> p.op.to in s.accounts && p.second == s.accounts[p.op.to])
  }

  /** Every commit of the run is of current reads. */
  ghost predicate CommitsCurrent(w: World, d: int, steps: seq<Step>)
    requires d > 0
    decreases |steps|
  {
    steps == [] ||
    ((Commits(w, d, steps[0]) ==> Current(w.committed, w.inFlight[steps[0].pid]))
     && CommitsCurrent(Next(w, d, steps[0]), d, steps[1..]))
  }

  lemma NextKeepsInv(w: World, d: int, step: Step)
    requires d > 0 && Inv(w)
    ensures Inv(Next(w, d, step))
  {
    if Commits(w, d, step) {
      var p := w.inFlight[step.pid];
      CommitKeeps(w.committed, d, p.op, p.first, p.second);
    }
  }

  lemma CommitStepIsSerial(w: World, d: int, step: Step)
    requires d > 0 && Inv(w)
    ensures Commits(w, d, step) && Current(w.committed, w.inFlight[step.pid]) ==>
            Next(w, d, step).committed == Apply(w.committed, d, w.inFlight[step.pid].op)
    ensures !Commits(w, d, step) ==> Next(w, d, step).committed == w.committed
  {
    if Commits(w, d, step) && Current(w.committed, w.inFlight[step.pid]) {
      var p := w.inFlight[step.pid];
      assert Try(w.committed, d, p.op).Ok?;
      CurrentCommitIsSerial(w.committed, d, p.op);
    }
  }

  /** A run whose commits all read current rows is the serial run of what it commits, in commit order. */
  lemma {:induction false} CurrentRunIsSerial(w: World, d: int, steps: seq<Step>)
    requires d > 0 && Inv(w) && CommitsCurrent(w, d, steps)
    ensures RunAll(w, d, steps).committed == Run(w.committed, d, CommittedOps(w, d, steps))
    decreases |steps|
  {
    if steps != [] {
      var w', rest := Next(w, d, steps[0]), CommittedOps(Next(w, d, steps[0]), d, steps[1..]);
      NextKeepsInv(w, d, steps[0]);
      CommitStepIsSerial(w, d, steps[0]);
      CurrentRunIsSerial(w', d, steps[1..]);
      if Commits(w, d, steps[0]) {
        var op := w.inFlight[steps[0].pid].op;
        assert ([op] + rest)[1..] == rest;
      } else {
        assert [] + rest == rest;
      }
    }
  }

  // ---------------------------------------------------------------- what a commit writes

  /** The world before step `n` of a run. */
  function Before(w: World, d: int, steps: seq<Step>, n: int): World
    requires d > 0 && 0 <= n <= |steps|
  {
    RunAll(w, d, steps[..n])
  }

  lemma {:induction false} BeforeNext(w: World, d: int, steps: seq<Step>, n: int)
    requires d > 0 && 0 <= n < |steps|
    ensures Before(w, d, steps, n + 1) == Next(Before(w, d, steps, n), d, steps[n])
    decreases n
  {
    if n == 0 {
      assert steps[..1] == [steps[0]] && steps[..1][1..] == [];
      assert RunAll(w, d, steps[..1]) == RunAll(Next(w, d, steps[0]), d, []);
    } else {
      BeforeNext(Next(w, d, steps[0]), d, steps[1..], n - 1);
      assert steps[..n + 1][1..] == steps[1..][..n] && steps[..n][1..] == steps[1..][..n - 1];
    }
  }

  /** Step `i` started `op` as process `pid`, which is in flight ever since. */
  ghost predicate StartedAt(w: World, d: int, steps: seq<Step>, n: int, pid: nat, op: Op, i: int)
    requires d > 0 && 0 <= n <= |steps|
  {
    && 0 <= i < n && steps[i] == Start(pid, op) && pid !in Before(w, d, steps, i).inFlight
    && FirstKey(op) in Before(w, d, steps, i).committed.accounts
    && (forall m :: i < m <= n ==> pid in Before(w, d, steps, m).inFlight)
  }

  /** After step `i`, step `j` is the first at which the process reads its second account. */
  ghost predicate ReadAt(w: World, d: int, steps: seq<Step>, n: int, pid: nat, op: Op, i: int, j: int)
    requires d > 0 && 0 <= n <= |steps|
  {
    && 0 <= i < j < n && steps[j] == ReadSecond(pid)
    && op.TransferOp? && op.to in Before(w, d, steps, j).committed.accounts
    && (forall m :: i < m < j ==> steps[m] != ReadSecond(pid))
  }

  /** What a process holds is what was committed when it read it. */
  ghost predicate HasRead(w: World, d: int, steps: seq<Step>, n: int, pid: nat, p: Pending, i: int, j: int)
    requires d > 0 && 0 <= n <= |steps|
  {
    && StartedAt(w, d, steps, n, pid, p.op, i)
    && p.first == Before(w, d, steps, i).committed.accounts[FirstKey(p.op)]
    && (p.Reading? ==> p.op.TransferOp? && forall m :: i < m < n ==> steps[m] != ReadSecond(pid))
    && (p.Ready? && !p.op.TransferOp? ==> p.second == p.first)
    && (p.Ready? && p.op.TransferOp? ==>
          ReadAt(w, d, steps, n, pid, p.op, i, j) && p.second == Before(w, d, steps, j).committed.accounts[p.op.to])
  }

  lemma {:induction false} InFlightHasRead(w: World, d: int, steps: seq<Step>, n: int, pid: nat)
    returns (i: int, j: int)
    requires d > 0 && w.inFlight == map[] && 0 <= n <= |steps| && pid in Before(w, d, steps, n).inFlight
    ensures HasRead(w, d, steps, n, pid, Before(w, d, steps, n).inFlight[pid], i, j)
    decreases n
  {
    BeforeNext(w, d, steps, n - 1);
    var before, step := Before(w, d, steps, n - 1), steps[n - 1];
    if pid in before.inFlight {
      i, j := InFlightHasRead(w, d, steps, n - 1, pid);
      if before.inFlight[pid].Reading? && step == ReadSecond(pid) { j := n - 1; }
    } else {
      i, j := n - 1, n - 1;
    }
  }

  /** Over every run: a commit writes the absolute values that its operation makes of the rows committed when
      it started and, for a transfer, when it made its second read, whatever was committed since. */
  lemma CommitWritesWhatWasRead(w: World, d: int, steps: seq<Step>, n: int) returns (i: int, j: int)
    requires d > 0 && w.inFlight == map[] && 0 <= n < |steps| && Commits(Before(w, d, steps, n), d, steps[n])
    ensures var now, pid := Before(w, d, steps, n), steps[n].pid; var op := now.inFlight[pid].op;
      && StartedAt(w, d, steps, n, pid, op, i) && (op.TransferOp? ==> ReadAt(w, d, steps, n, pid, op, i, j))
      && var first := Before(w, d, steps, i).committed.accounts[FirstKey(op)];
         var second := if op.TransferOp? then Before(w, d, steps, j).committed.accounts[op.to] else first;
         Before(w, d, steps, n + 1).committed == Committed(now.committed, d, op, first, second)
  {
    i, j := InFlightHasRead(w, d, steps, n, steps[n].pid);
    BeforeNext(w, d, steps, n);
  }

  lemma TopUpAgrees(s: State, d: int, user: Id, x: int, first: Account)
    requires d > 0 && x > 0 && Sound(first) && Of(user, USD) in s.accounts
    ensures var k := Of(user, USD);
      Gap(Committed(s, d, TopUpOp(user, x), first, first), k) == Gap(s, k) <==>
      first.Balance() == s.accounts[k].Balance()
  {
    var k := Of(user, USD);
    BalanceWrites(first, x, d);
    RoundOdd(x, d);
    MoveSums(s.entries, s.journals, k, Equity, -x, USD, d, OfAccount(k));
  }

  lemma HoldAgrees(s: State, d: int, op: Op, first: Account)
    requires d > 0 && op.x > 0 && (op.HoldOp? || op.ReleaseOp?) && Sound(first) && Covers(op, first, d)
    requires FirstKey(op) in s.accounts
    ensures var k := FirstKey(op);
      Gap(Committed(s, d, op, first, first), k) == Gap(s, k) + TieUnit(op.x, d) <==>
      first.Balance() == s.accounts[k].Balance()
  {
    BalanceWrites(first, op.x, d);
  }

  lemma PayerAgrees(s: State, d: int, op: Op, first: Account, second: Account)
    requires d > 0 && op.TransferOp? && op.x > 0 && op.from != op.to && Sound(first) && Covers(op, first, d)
    requires op.from in s.accounts && op.to in s.accounts
    ensures Gap(Committed(s, d, op, first, second), op.from) == Gap(s, op.from) + TieUnit(op.x, d) <==>
            first.Balance() == s.accounts[op.from].Balance()
  {
    BalanceWrites(first, op.x, d);
    MoveSums(s.entries, s.journals, op.from, op.to, op.x, op.currency, d, OfAccount(op.from));
  }

  lemma PayeeAgrees(s: State, d: int, op: Op, first: Account, second: Account)
    requires d > 0 && op.TransferOp? && op.x > 0 && op.from != op.to && Sound(second)
    requires op.from in s.accounts && op.to in s.accounts
    ensures Gap(Committed(s, d, op, first, second), op.to) == Gap(s, op.to) <==>
            second.Balance() == s.accounts[op.to].Balance()
  {
    BalanceWrites(second, op.x, d);
    MoveSums(s.entries, s.journals, op.from, op.to, op.x, op.currency, d, OfAccount(op.to));
  }

  /** What the ledger can tell of it: a commit keeps its accounts in step with their entries exactly when
      the sums available + hold that it read are still theirs. A lost hold does not show. */
  lemma CommitAgreesIffCurrent(s: State, d: int, op: Op, first: Account, second: Account)
    requires d > 0 && op.x > 0 && Sound(first) && Sound(second) && Covers(op, first, d) && Distinct(op)
    requires FirstKey(op) in s.accounts && (op.TransferOp? ==> op.to in s.accounts)
    ensures var s' := Committed(s, d, op, first, second);
      && (Gap(s', FirstKey(op)) == Gap(s, FirstKey(op)) + (if op.TopUpOp? then 0 else TieUnit(op.x, d))
          <==> first.Balance() == s.accounts[FirstKey(op)].Balance())
      && (op.TransferOp? ==>
          (Gap(s', op.to) == Gap(s, op.to) <==> second.Balance() == s.accounts[op.to].Balance()))
  {
    match op {
      case TopUpOp(u, x) => TopUpAgrees(s, d, u, x, first);
      case TransferOp(f, t, x, c) =>
        PayerAgrees(s, d, op, first, second);
        PayeeAgrees(s, d, op, first, second);
      case _ => HoldAgrees(s, d, op, first);
    }
  }

  /** Two holds of all there is, both read before either commits: both are committed, though by then the
      second is more than is available, and the account ends with one of them. */
  lemma DoubleHold(user: Id, c: Currency, x: int)
    requires x > 0
    ensures var k, op := Of(user, c), HoldOp(user, c, x);
      var start := World(State(map[k := Account(x, 0)], [], 0), map[]);
      var both := RunAll(start, 1, [Start(1, op), Start(2, op)]);
      var once := Next(both, 1, Commit(1));
      var twice := Next(once, 1, Commit(2));
      && Inv(start)
      && 2 in once.inFlight && once.inFlight[2].Ready? && Covers(op, once.inFlight[2].first, 1)
      && Hold(once.committed, 1, user, c, x) == Err(Insufficient)
      && twice.inFlight == map[] && twice.committed.accounts == map[k := Account(0, x)]
  {
    var k, op, a := Of(user, c), HoldOp(user, c, x), Account(x, 0);
    var start := World(State(map[k := a], [], 0), map[]);
    var first := Next(start, 1, Start(1, op));
    var both := Next(first, 1, Start(2, op));
    var steps := [Start(1, op), Start(2, op)];
    assert steps[1..] == [Start(2, op)] && steps[1..][1..] == [];
    assert RunAll(start, 1, steps) == RunAll(first, 1, [Start(2, op)]) == RunAll(both, 1, []);
    assert both.inFlight == map[1 := Ready(op, a, a), 2 := Ready(op, a, a)];
    ExactStorage(x);
    ExactStorage(0);
    assert Held(a, x, 1) == Account(0, x) by { assert x * 1 - x == 0 && 0 * 1 + x == x; }
    var once := Next(both, 1, Commit(1));
    assert once.inFlight == map[2 := Ready(op, a, a)];
  }

  /** Two transfers out of one account. */
  function Pays(a: Id, b: Id, x: int): Op { TransferOp(Of(a, USD), Of(b, USD), x, USD) }

  lemma TwoStaleTransfers(s: State, a: Id, b: Id, c: Id)
    requires a != b && a != c && b != c && s.entries == [] && s.journals == 0
    requires s.accounts == map[Of(a, USD) := Account(100, 0), Of(b, USD) := Account(0, 0), Of(c, USD) := Account(0, 0)]
    ensures var from, to := Account(100, 0), Account(0, 0);
      var s1 := Committed(s, 1, Pays(a, b, 60), from, to);
      && Transfer(s1, 1, Of(a, USD), Of(c, USD), 60, USD) == Err(Insufficient)
      && var s2 := Committed(s1, 1, Pays(a, c, 60), from, to);
         s2.accounts == map[Of(a, USD) := Account(40, 0), Of(b, USD) := Account(60, 0), Of(c, USD) := Account(60, 0)]
  {
    ExactStorage(40);
    ExactStorage(60);
  }

  /** A run of both: each reads both its accounts before either commits. */
  function BothTransfers(a: Id, b: Id, c: Id): seq<Step> {
    [Start(1, Pays(a, b, 60)), ReadSecond(1), Start(2, Pays(a, c, 60)), ReadSecond(2)]
  }

  lemma BothAreRead(s: State, a: Id, b: Id, c: Id)
    requires a != b && a != c && b != c
    requires Of(a, USD) in s.accounts && Of(b, USD) in s.accounts && Of(c, USD) in s.accounts
    ensures RunAll(World(s, map[]), 1, BothTransfers(a, b, c)) ==
            World(s, map[1 := Ready(Pays(a, b, 60), s.accounts[Of(a, USD)], s.accounts[Of(b, USD)]),
                         2 := Ready(Pays(a, c, 60), s.accounts[Of(a, USD)], s.accounts[Of(c, USD)])])
  {
    var one, two := Pays(a, b, 60), Pays(a, c, 60);
    RunFour(World(s, map[]), 1, Start(1, one), ReadSecond(1), Start(2, two), ReadSecond(2));
    var first := Next(Next(World(s, map[]), 1, Start(1, one)), 1, ReadSecond(1));
    assert first == World(s, map[1 := Ready(one, s.accounts[Of(a, USD)], s.accounts[Of(b, USD)])]);
  }

  lemma BothCommit(s: State, one: Op, two: Op, from: Account, to: Account)
    requires Covers(one, from, 1) && Covers(two, from, 1)
    ensures var once := Next(World(s, map[1 := Ready(one, from, to), 2 := Ready(two, from, to)]), 1, Commit(1));
      && once.committed == Committed(s, 1, one, from, to)
      && Next(once, 1, Commit(2)) == World(Committed(once.committed, 1, two, from, to), map[])
  {
    var once := Next(World(s, map[1 := Ready(one, from, to), 2 := Ready(two, from, to)]), 1, Commit(1));
    assert once.inFlight == map[2 := Ready(two, from, to)];
  }

  /** Two transfers of 60 out of an account of 100, both read before either commits: both are committed, though
      by then the second is more than is available; 100 become 160. */
  lemma DoubleTransfer(a: Id, b: Id, c: Id)
    requires a != b && a != c && b != c
    ensures var from, to := Account(100, 0), Account(0, 0);
      var start := World(State(map[Of(a, USD) := from, Of(b, USD) := to, Of(c, USD) := to], [], 0), map[]);
      var once := Next(RunAll(start, 1, BothTransfers(a, b, c)), 1, Commit(1));
      var twice := Next(once, 1, Commit(2));
      && Inv(start)
      && Transfer(once.committed, 1, Of(a, USD), Of(c, USD), 60, USD) == Err(Insufficient)
      && twice.inFlight == map[]
      && twice.committed.accounts ==
         map[Of(a, USD) := Account(40, 0), Of(b, USD) := Account(60, 0), Of(c, USD) := Account(60, 0)]
  {
    var from, to := Account(100, 0), Account(0, 0);
    var s := State(map[Of(a, USD) := from, Of(b, USD) := to, Of(c, USD) := to], [], 0);
    BothAreRead(s, a, b, c);
    TwoStaleTransfers(s, a, b, c);
    BothCommit(s, Pays(a, b, 60), Pays(a, c, 60), from, to);
  }

  /** Two top-ups that both read an empty account: its ledger has both, the account one. */
  lemma StaleTopUps(s: State, user: Id)
    requires s == State(map[Of(user, USD) := Account(0, 0)], [], 0)
    ensures var op, a := TopUpOp(user, 100), Account(0, 0);
      var s1 := Committed(s, 1, op, a, a); var s2 := Committed(s1, 1, op, a, a);
      && s2.accounts == map[Of(user, USD) := Account(100, 0)] && SumOf(s2.entries, OfAccount(Of(user, USD))) == 200
  {
    var k, op, a := Of(user, USD), TopUpOp(user, 100), Account(0, 0);
    var s1 := Committed(s, 1, op, a, a);
    ExactStorage(100);
    ExactStorage(-100);
    MoveSums(s.entries, 0, k, Equity, -100, USD, 1, OfAccount(k));
    MoveSums(s1.entries, 1, k, Equity, -100, USD, 1, OfAccount(k));
  }

  lemma RunFour(w: World, d: int, a: Step, b: Step, c: Step, e: Step)
    requires d > 0
    ensures RunAll(w, d, [a, b, c, e]) == Next(Next(Next(Next(w, d, a), d, b), d, c), d, e)
  {
    assert [a, b, c, e][1..] == [b, c, e] && [b, c, e][1..] == [c, e] && [c, e][1..] == [e] && [e][1..] == [];
    var w1 := Next(w, d, a);
    var w2 := Next(w1, d, b);
    assert RunAll(w2, d, [c, e]) == RunAll(Next(w2, d, c), d, [e]) == RunAll(Next(Next(w2, d, c), d, e), d, []);
    assert RunAll(w, d, [a, b, c, e]) == RunAll(w1, d, [b, c, e]) == RunAll(w2, d, [c, e]);
  }

  /** Two top-ups of 100 that both read before either commits leave 100 in the account and 200 in
      its ledger. */
  lemma LostUpdate(user: Id)
    ensures var k := Of(user, USD);
      var w := World(State(map[k := Account(0, 0)], [], 0), map[]);
      var steps := [Start(1, TopUpOp(user, 100)), Start(2, TopUpOp(user, 100)), Commit(1), Commit(2)];
      var end := RunAll(w, 1, steps).committed;
      && Inv(w) && k in end.accounts && end.accounts[k].Balance() == 100 && SumOf(end.entries, OfAccount(k)) == 200
  {
    var k, op, a := Of(user, USD), TopUpOp(user, 100), Account(0, 0);
    var w := World(State(map[k := a], [], 0), map[]);
    RunFour(w, 1, Start(1, op), Start(2, op), Commit(1), Commit(2));
    var both := Next(Next(w, 1, Start(1, op)), 1, Start(2, op));
    assert both == World(w.committed, map[1 := Ready(op, a, a), 2 := Ready(op, a, a)]);
    var once := Next(both, 1, Commit(1));
    assert once.inFlight[2] == Ready(op, a, a);
    StaleTopUps(w.committed, user);
  }
}
