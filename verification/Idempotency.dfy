/** Idempotent handlers (cmd/monolith/main.go:258-351 and 372-460 over internal/idempotency): any
    number of requests, each checking its key, executing its effect, storing its response and
    responding, interleaved step by step. */
module Idempotency {
  import opened Types

  /** A user's idempotency key. */
  datatype Key = Key(user: Id, idem: Id)

  /** What the handler sees of a request. The fingerprint is an input: nothing assumes that the same
      request always gets the same one. */
  datatype Request = Request(key: Key, fingerprint: Id)

  /** A stored response; `body` is a JSON value. The table allows one row per key. */
  datatype Row = Row(fingerprint: Id, code: nat, body: Id)

  datatype Phase =
    | Checking
    | Executing
    | Storing(body: Id)                     // the effect is committed
    | Executed(code: nat, body: Id)         // responded from its own effect
    | Replayed(code: nat, body: Id)         // responded from a stored row
    | Mismatched                            // 409
    | Failed                                // an error before any effect
    | FailedAfterEffect                     // 500, with the effect committed

  datatype Session = Session(req: Request, phase: Phase)

  /** `effects` lists the key of every committed effect. */
  datatype State = State(store: map<Key, Row>, effects: seq<Key>, sessions: map<nat, Session>)

  datatype Step =
    | Arrive(id: nat, req: Request)
    | Check(id: nat, dbError: bool)
    | Execute(id: nat, ok: bool, body: Id)
    | Store(id: nat, dbError: bool)

  const OK: nat := 200

  /** GetIdempotencyKey and CheckIdempotency. */
  datatype Lookup = NewRequest | Mismatch | Found(row: Row)

  function CheckIdempotency(store: map<Key, Row>, req: Request): Lookup {
    if req.key !in store then NewRequest
    else if store[req.key].fingerprint != req.fingerprint then Mismatch
    else Found(store[req.key])
  }

  /** The insert of StoreIdempotency, under the unique constraint. */
  function StoreIdempotency(store: map<Key, Row>, req: Request, code: nat, body: Id): Option<map<Key, Row>> {
    if req.key in store then None else Some(store[req.key := Row(req.fingerprint, code, body)])
  }

  function To(s: State, id: nat, phase: Phase): State
    requires id in s.sessions
  {
    s.(sessions := s.sessions[id := s.sessions[id].(phase := phase)])
  }

  predicate In(s: State, id: nat, phase: Phase) { id in s.sessions && s.sessions[id].phase == phase }

  /** One step of one handler; a step that is not next does nothing. */
  function Next(s: State, step: Step): State {
    match step
    case Arrive(id, req) =>
      if id in s.sessions then s else s.(sessions := s.sessions[id := Session(req, Checking)])
    case Check(id, dbError) =>
      if !In(s, id, Checking) then s
      else if dbError then To(s, id, Mismatched)
      else (
        match CheckIdempotency(s.store, s.sessions[id].req)
        case NewRequest => To(s, id, Executing)
        case Mismatch => To(s, id, Mismatched)
        case Found(row) => To(s, id, Replayed(row.code, row.body))
      )
    case Execute(id, ok, body) =>
      if !In(s, id, Executing) then s
      else if !ok then To(s, id, Failed)
      else To(s.(effects := s.effects + [s.sessions[id].req.key]), id, Storing(body))
    case Store(id, dbError) =>
      if id !in s.sessions || !s.sessions[id].phase.Storing? then s
      else
        var session := s.sessions[id];
        var stored := StoreIdempotency(s.store, session.req, OK, session.phase.body);
        if dbError || stored.None? then To(s, id, FailedAfterEffect)
        else To(s.(store := stored.value), id, Executed(OK, session.phase.body))
  }

  function Run(s: State, steps: seq<Step>): State
    decreases |steps|
  {
    if steps == [] then s else Run(Next(s, steps[0]), steps[1..])
  }

  // ---------------------------------------------------------------- counting sessions

  datatype Group = InFlight | Lost | Own | Other

  function GroupOf(p: Phase): Group {
    match p
    case Storing(_) => InFlight
    case FailedAfterEffect => Lost
    case Executed(_, _) => Own
    case _ => Other
  }

  ghost function Members(sessions: map<nat, Session>, k: Key, g: Group): set<nat> {
    set id | id in sessions && sessions[id].req.key == k && GroupOf(sessions[id].phase) == g
  }

  function CountKey(effects: seq<Key>, k: Key): nat {
    if effects == [] then 0 else (if effects[0] == k then 1 else 0) + CountKey(effects[1..], k)
  }

  lemma {:induction false} CountKeySnoc(effects: seq<Key>, x: Key, k: Key)
    ensures CountKey(effects + [x], k) == CountKey(effects, k) + if x == k then 1 else 0
  {
    if effects == [] {
      assert effects + [x] == [x];
    } else {
      CountKeySnoc(effects[1..], x, k);
      assert (effects + [x])[1..] == effects[1..] + [x];
    }
  }

  predicate Counts(sessions: map<nat, Session>, id: nat, k: Key, g: Group) {
    id in sessions && sessions[id].req.key == k && GroupOf(sessions[id].phase) == g
  }

  /** Moving one session from group to group. */
  lemma MembersMove(sessions: map<nat, Session>, id: nat, session: Session, k: Key, g: Group)
    ensures |Members(sessions[id := session], k, g)| ==
            |Members(sessions, k, g)| - (if Counts(sessions, id, k, g) then 1 else 0)
                                      + (if Counts(sessions[id := session], id, k, g) then 1 else 0)
  {
    var before, after := Members(sessions, k, g), Members(sessions[id := session], k, g);
    OthersStay(sessions, id, session, k, g);
    CardWithout(before, id);
    CardWithout(after, id);
  }

  lemma OthersStay(sessions: map<nat, Session>, id: nat, session: Session, k: Key, g: Group)
    ensures var before, after := Members(sessions, k, g), Members(sessions[id := session], k, g);
      && before - {id} == after - {id}
      && (id in before <==> Counts(sessions, id, k, g))
      && (id in after <==> Counts(sessions[id := session], id, k, g))
  {
    var before, after := Members(sessions, k, g), Members(sessions[id := session], k, g);
    forall x: nat | x != id ensures x in before <==> x in after {
      assert x in sessions <==> x in sessions[id := session];
    }
  }

  lemma CardWithout(s: set<nat>, id: nat)
    ensures |s| == |s - {id}| + if id in s then 1 else 0
  {
    if id in s { assert s == (s - {id}) + {id}; } else { assert s == s - {id}; }
  }

  // ---------------------------------------------------------------- the invariant

  function Stored(s: State, k: Key): nat { if k in s.store then 1 else 0 }

  /** One response from an effect per stored row, and every effect accounted for. */
  ghost predicate Accounted(s: State, k: Key) {
    && |Members(s.sessions, k, Own)| == Stored(s, k)
    && CountKey(s.effects, k) == Stored(s, k) + |Members(s.sessions, k, InFlight)| + |Members(s.sessions, k, Lost)|
  }

  /** Whoever got a success got the stored one, and asked for it with the stored fingerprint. */
  ghost predicate Agrees(s: State, session: Session) {
    var p, k := session.phase, session.req.key;
    (p.Executed? || p.Replayed?) ==>
      k in s.store && p.code == s.store[k].code && p.body == s.store[k].body
      && session.req.fingerprint == s.store[k].fingerprint
  }

  ghost predicate Inv(s: State) {
    && (forall k :: k in s.store ==> s.store[k].code == 200)
    && (forall id :: id in s.sessions ==> Agrees(s, s.sessions[id]))
  }

  lemma NextKeepsInv(s: State, step: Step)
    requires Inv(s)
    ensures Inv(Next(s, step))
  {
  }

  function Is(p: Phase, g: Group): int { if GroupOf(p) == g then 1 else 0 }

  /** The books balance over a transition of one session, if the store and the effects follow it. */
  lemma TransitionKeepsAccount(s: State, s': State, id: nat, to: Phase, k: Key)
    requires Accounted(s, k) && id in s.sessions
    requires s'.sessions == s.sessions[id := s.sessions[id].(phase := to)]
    requires var mine, from := s.sessions[id].req.key == k, s.sessions[id].phase;
      && Stored(s', k) == Stored(s, k) + (if mine then Is(to, Own) - Is(from, Own) else 0)
      && CountKey(s'.effects, k) == CountKey(s.effects, k) +
           (if mine
            then Is(to, Own) - Is(from, Own) + Is(to, InFlight) - Is(from, InFlight) + Is(to, Lost) - Is(from, Lost)
            else 0)
    ensures Accounted(s', k)
  {
    var session := s.sessions[id].(phase := to);
    MembersMove(s.sessions, id, session, k, Own);
    MembersMove(s.sessions, id, session, k, InFlight);
    MembersMove(s.sessions, id, session, k, Lost);
  }

  lemma ArrivalKeepsAccount(s: State, id: nat, req: Request, k: Key)
    requires Accounted(s, k)
    ensures Accounted(Next(s, Arrive(id, req)), k)
  {
    MembersMove(s.sessions, id, Session(req, Checking), k, Own);
    MembersMove(s.sessions, id, Session(req, Checking), k, InFlight);
    MembersMove(s.sessions, id, Session(req, Checking), k, Lost);
  }

  lemma CheckKeepsAccount(s: State, id: nat, dbError: bool, k: Key)
    requires Accounted(s, k) && In(s, id, Checking)
    ensures Accounted(Next(s, Check(id, dbError)), k)
  {
    var s' := Next(s, Check(id, dbError));
    TransitionKeepsAccount(s, s', id, s'.sessions[id].phase, k);
  }

  lemma ExecuteKeepsAccount(s: State, id: nat, ok: bool, body: Id, k: Key)
    requires Accounted(s, k) && In(s, id, Executing)
    ensures Accounted(Next(s, Execute(id, ok, body)), k)
  {
    CountKeySnoc(s.effects, s.sessions[id].req.key, k);
    TransitionKeepsAccount(s, Next(s, Execute(id, ok, body)), id, if ok then Storing(body) else Failed, k);
  }

  lemma StoreKeepsAccount(s: State, id: nat, dbError: bool, k: Key)
    requires Accounted(s, k) && id in s.sessions && s.sessions[id].phase.Storing?
    ensures Accounted(Next(s, Store(id, dbError)), k)
  {
    var s' := Next(s, Store(id, dbError));
    TransitionKeepsAccount(s, s', id, s'.sessions[id].phase, k);
  }

  lemma NextKeepsAccount(s: State, step: Step, k: Key)
    requires Accounted(s, k)
    ensures Accounted(Next(s, step), k)
  {
    if Next(s, step) != s {
      match step {
        case Arrive(id, req) => ArrivalKeepsAccount(s, id, req, k);
        case Check(id, dbError) => CheckKeepsAccount(s, id, dbError, k);
        case Execute(id, ok, body) => ExecuteKeepsAccount(s, id, ok, body, k);
        case Store(id, dbError) => StoreKeepsAccount(s, id, dbError, k);
      }
    }
  }

  const EMPTY := State(map[], [], map[])

  lemma {:induction false} RunKeeps(s: State, steps: seq<Step>, k: Key)
    requires Inv(s) && Accounted(s, k)
    ensures Inv(Run(s, steps)) && Accounted(Run(s, steps), k)
    decreases |steps|
  {
    if steps != [] {
      NextKeepsInv(s, steps[0]);
      NextKeepsAccount(s, steps[0], k);
      RunKeeps(Next(s, steps[0]), steps[1..], k);
    }
  }

  /** A stored response is never replaced. */
  lemma {:induction false} RowsStay(s: State, steps: seq<Step>, k: Key)
    requires k in s.store
    ensures k in Run(s, steps).store && Run(s, steps).store[k] == s.store[k]
    decreases |steps|
  {
    if steps != [] { RowsStay(Next(s, steps[0]), steps[1..], k); }
  }

  lemma EmptyAccounted(k: Key)
    ensures Inv(EMPTY) && Accounted(EMPTY, k)
  {
    assert Members(EMPTY.sessions, k, Own) == {} && Members(EMPTY.sessions, k, InFlight) == {}
      && Members(EMPTY.sessions, k, Lost) == {};
  }

  lemma SmallSet(s: set<nat>, a: nat, b: nat)
    requires |s| <= 1 && a in s && b in s
    ensures a == b
  {
    var others := s - {a};
    assert |others| == |s| - 1;
    assert others == {};
  }

  /** Under every interleaving: at most one success of a key comes from executing the effect, and all
      successes of a key carry the same code and body. */
  lemma OneExecutedSuccess(steps: seq<Step>, id1: nat, id2: nat)
    ensures var sessions := Run(EMPTY, steps).sessions;
      id1 in sessions && id2 in sessions && sessions[id1].req.key == sessions[id2].req.key ==>
        var p1, p2 := sessions[id1].phase, sessions[id2].phase;
        && (p1.Executed? && p2.Executed? ==> id1 == id2)
        && ((p1.Executed? || p1.Replayed?) && (p2.Executed? || p2.Replayed?)
            ==> p1.code == p2.code && p1.body == p2.body)
  {
    var s := Run(EMPTY, steps);
    if id1 in s.sessions && id2 in s.sessions && s.sessions[id1].req.key == s.sessions[id2].req.key {
      var k := s.sessions[id1].req.key;
      EmptyAccounted(k);
      RunKeeps(EMPTY, steps, k);
      assert Agrees(s, s.sessions[id1]) && Agrees(s, s.sessions[id2]);
      if s.sessions[id1].phase.Executed? && s.sessions[id2].phase.Executed? {
        SmallSet(Members(s.sessions, k, Own), id1, id2);
      }
    }
  }

  /** Committed effects of a key: the stored one, those still to be stored, and those whose request
      failed after its effect. In particular a key can be charged more than once. */
  lemma EffectsAccountedFor(steps: seq<Step>, k: Key)
    ensures var s := Run(EMPTY, steps);
      && CountKey(s.effects, k) == Stored(s, k) + |Members(s.sessions, k, InFlight)| + |Members(s.sessions, k, Lost)|
      && |Members(s.sessions, k, Own)| == Stored(s, k)
  {
    EmptyAccounted(k);
    RunKeeps(EMPTY, steps, k);
  }

  lemma {:induction false} RunSplits(s: State, a: seq<Step>, b: seq<Step>)
    ensures Run(s, a + b) == Run(Run(s, a), b)
    decreases |a|
  {
    if a == [] {
      assert a + b == b;
    } else {
      RunSplits(Next(s, a[0]), a[1..], b);
      assert (a + b)[1..] == a[1..] + b;
    }
  }

  lemma RunOne(s: State, step: Step)
    ensures Run(s, [step]) == Next(s, step)
  {
    assert [step][1..] == [];
  }

  lemma RunTwo(s: State, a: Step, b: Step)
    ensures Run(s, [a, b]) == Next(Next(s, a), b)
  {
    RunOne(s, a);
    RunOne(Next(s, a), b);
    RunSplits(s, [a], [b]);
    assert [a, b] == [a] + [b];
  }

  /** A request handled from start to end with nothing in between: whether its effect succeeds, and
      whether storing its response then fails. */
  datatype Call = Call(id: nat, req: Request, ok: bool, body: Id, storeFails: bool)

  function HandleAlone(s: State, c: Call): State {
    Run(s, [Arrive(c.id, c.req), Check(c.id, false)] + [Execute(c.id, c.ok, c.body), Store(c.id, c.storeFails)])
  }

  function Serially(s: State, calls: seq<Call>): State
    decreases |calls|
  {
    if calls == [] then s else Serially(HandleAlone(s, calls[0]), calls[1..])
  }

  /** What handling a new request alone comes to: by its key's row, if there is one, or by its own effect. */
  function Alone(s: State, c: Call): State {
    if c.req.key in s.store && c.req.fingerprint != s.store[c.req.key].fingerprint then
      s.(sessions := s.sessions[c.id := Session(c.req, Mismatched)])
    else if c.req.key in s.store then
      var row := s.store[c.req.key];
      s.(sessions := s.sessions[c.id := Session(c.req, Replayed(row.code, row.body))])
    else if !c.ok then s.(sessions := s.sessions[c.id := Session(c.req, Failed)])
    else if c.storeFails then
      State(s.store, s.effects + [c.req.key], s.sessions[c.id := Session(c.req, FailedAfterEffect)])
    else
      State(s.store[c.req.key := Row(c.req.fingerprint, 200, c.body)], s.effects + [c.req.key],
            s.sessions[c.id := Session(c.req, Executed(200, c.body))])
  }

  /** Where the check leaves a new request. */
  function Checked(store: map<Key, Row>, req: Request): Phase {
    if req.key !in store then Executing
    else if store[req.key].fingerprint == req.fingerprint then Replayed(store[req.key].code, store[req.key].body)
    else Mismatched
  }

  /** A request is checked against its key's row alone: the same request gets the row's response, another one is
      refused, and without a row it may have its effect. A lookup that fails is a refusal too. */
  lemma CheckIs(s: State, id: nat, dbError: bool)
    requires In(s, id, Checking)
    ensures var req, s' := s.sessions[id].req, Next(s, Check(id, dbError));
      && s'.store == s.store && s'.effects == s.effects
      && s'.sessions.Keys == s.sessions.Keys && s'.sessions[id].req == req
      && (forall other :: other in s.sessions && other != id ==> s'.sessions[other] == s.sessions[other])
      && (dbError ==> s'.sessions[id].phase == Mismatched)
      && (!dbError && req.key !in s.store ==> s'.sessions[id].phase == Executing)
      && (!dbError && req.key in s.store ==>
            var row := s.store[req.key];
            s'.sessions[id].phase ==
              if row.fingerprint == req.fingerprint then Replayed(row.code, row.body) else Mismatched)
  {
  }

  /** Under every interleaving: whoever is given a success, its own or a stored one, made the very request whose
      response is stored under the key; a key used for another request never gets it. */
  lemma SuccessIsForTheStoredRequest(steps: seq<Step>, id: nat)
    ensures var s := Run(EMPTY, steps);
      id in s.sessions && (s.sessions[id].phase.Replayed? || s.sessions[id].phase.Executed?) ==>
        var k, p := s.sessions[id].req.key, s.sessions[id].phase;
        k in s.store && s.store[k] == Row(s.sessions[id].req.fingerprint, p.code, p.body) && p.code == 200
  {
    var s := Run(EMPTY, steps);
    if id in s.sessions {
      EmptyAccounted(s.sessions[id].req.key);
      RunKeeps(EMPTY, steps, s.sessions[id].req.key);
      assert Agrees(s, s.sessions[id]);
    }
  }

  /** A key stored by one request and used by another: refused, and nothing is charged. */
  lemma ReusedKeyIsRefused(s: State, c: Call)
    requires c.id !in s.sessions && c.req.key in s.store && s.store[c.req.key].fingerprint != c.req.fingerprint
    ensures var s' := HandleAlone(s, c);
      In(s', c.id, Mismatched) && s'.store == s.store && s'.effects == s.effects
  {
    HandleAloneIs(s, c);
  }

  lemma ArriveAndCheck(s: State, id: nat, req: Request)
    requires id !in s.sessions
    ensures Run(s, [Arrive(id, req), Check(id, false)]) ==
      s.(sessions := s.sessions[id := Session(req, Checked(s.store, req))])
  {
    RunTwo(s, Arrive(id, req), Check(id, false));
    var phase := Checked(s.store, req);
    assert s.sessions[id := Session(req, Checking)][id := Session(req, phase)] == s.sessions[id := Session(req, phase)];
  }

  lemma ExecuteAndStore(s: State, c: Call)
    requires c.id in s.sessions && s.sessions[c.id] == Session(c.req, Checked(s.store, c.req))
    ensures Run(s, [Execute(c.id, c.ok, c.body), Store(c.id, c.storeFails)]) == Alone(s, c)
  {
    RunTwo(s, Execute(c.id, c.ok, c.body), Store(c.id, c.storeFails));
    var phase := Checked(s.store, c.req);
    assert s.sessions[c.id := Session(c.req, phase)] == s.sessions;
    if phase.Executing? && c.ok {
      var after := if c.storeFails then FailedAfterEffect else Executed(OK, c.body);
      assert s.sessions[c.id := Session(c.req, Storing(c.body))][c.id := Session(c.req, after)] ==
             s.sessions[c.id := Session(c.req, after)];
    }
  }

  lemma AloneAfterCheck(s: State, c: Call, phase: Phase)
    ensures Alone(s.(sessions := s.sessions[c.id := Session(c.req, phase)]), c) == Alone(s, c)
  {
    var t := s.(sessions := s.sessions[c.id := Session(c.req, phase)]);
    var p := Alone(t, c).sessions[c.id].phase;
    assert t.sessions[c.id := Session(c.req, p)] == s.sessions[c.id := Session(c.req, p)];
  }

  lemma HandleAloneIs(s: State, c: Call)
    requires c.id !in s.sessions
    ensures HandleAlone(s, c) == Alone(s, c)
  {
    RunSplits(s, [Arrive(c.id, c.req), Check(c.id, false)], [Execute(c.id, c.ok, c.body), Store(c.id, c.storeFails)]);
    ArriveAndCheck(s, c.id, c.req);
    var phase := Checked(s.store, c.req);
    ExecuteAndStore(s.(sessions := s.sessions[c.id := Session(c.req, phase)]), c);
    AloneAfterCheck(s, c, phase);
  }

  /** Every call is a session of its own. */
  ghost predicate NewCalls(s: State, calls: seq<Call>) {
    && (forall i :: 0 <= i < |calls| ==> calls[i].id !in s.sessions)
    && (forall i, j :: 0 <= i < j < |calls| ==> calls[i].id != calls[j].id)
  }

  /** The calls that would have their effect on `k`, were it not for a stored row. */
  function Attempts(calls: seq<Call>, k: Key): seq<Call> {
    if calls == [] then []
    else (if calls[0].req.key == k && calls[0].ok then [calls[0]] else []) + Attempts(calls[1..], k)
  }

  /** One charge for every attempt up to the first whose response is stored. */
  function Charges(attempts: seq<Call>): nat {
    if attempts == [] then 0 else 1 + if attempts[0].storeFails then Charges(attempts[1..]) else 0
  }

  lemma ChargesCons(c: Call, rest: seq<Call>)
    ensures Charges([c] + rest) == 1 + if c.storeFails then Charges(rest) else 0
  {
    assert ([c] + rest)[1..] == rest;
  }

  lemma OneCall(s: State, c: Call, k: Key)
    requires c.id !in s.sessions
    ensures var s' := HandleAlone(s, c); var charged := c.req.key == k && c.ok && k !in s.store;
      && s'.sessions.Keys == s.sessions.Keys + {c.id}
      && CountKey(s'.effects, k) == CountKey(s.effects, k) + (if charged then 1 else 0)
      && (k in s'.store <==> k in s.store || (charged && !c.storeFails))
  {
    HandleAloneIs(s, c);
    CountKeySnoc(s.effects, c.req.key, k);
  }

  /** One request at a time, a key not stored yet is charged once for every attempt up to the first whose
      response is stored; a stored one is never charged again. */
  lemma {:induction false} SerialCharges(s: State, calls: seq<Call>, k: Key)
    requires NewCalls(s, calls)
    ensures CountKey(Serially(s, calls).effects, k) ==
            CountKey(s.effects, k) + if k in s.store then 0 else Charges(Attempts(calls, k))
    decreases |calls|
  {
    if calls != [] {
      var c, rest := calls[0], Attempts(calls[1..], k);
      OneCall(s, c, k);
      ChargesCons(c, rest);
      assert [] + rest == rest;
      SerialCharges(HandleAlone(s, c), calls[1..], k);
    }
  }

  /** So a key is charged at most once exactly when it is attempted once at most, or the first attempt's
      response is stored. Otherwise the client's retry after the 500 is charged again, with no overlap. */
  lemma SerialChargesOnceIff(calls: seq<Call>, k: Key)
    requires NewCalls(EMPTY, calls)
    ensures CountKey(Serially(EMPTY, calls).effects, k) <= 1 <==>
            |Attempts(calls, k)| <= 1 || !Attempts(calls, k)[0].storeFails
  {
    SerialCharges(EMPTY, calls, k);
    var attempts := Attempts(calls, k);
    if |attempts| > 1 { assert Charges(attempts[1..]) >= 1; }
  }

  /** The retry: request 1 has its effect, fails to store it and answers 500; request 2 repeats it. */
  lemma RetryCharges(req: Request)
    ensures var s := Serially(EMPTY, [Call(1, req, true, 10, true), Call(2, req, true, 20, false)]);
      CountKey(s.effects, req.key) == 2 && In(s, 1, FailedAfterEffect) && In(s, 2, Executed(OK, 20))
  {
    var first, second := Call(1, req, true, 10, true), Call(2, req, true, 20, false);
    assert [first, second][1..] == [second] && [second][1..] == [];
    var s1 := HandleAlone(EMPTY, first);
    HandleAloneIs(EMPTY, first);
    HandleAloneIs(s1, second);
    assert Serially(EMPTY, [first, second]) == Serially(s1, [second]) == Serially(HandleAlone(s1, second), []);
    OneCall(EMPTY, first, req.key);
    OneCall(s1, second, req.key);
  }

  function Both(req: Request, p1: Phase, p2: Phase): map<nat, Session> {
    map[1 := Session(req, p1), 2 := Session(req, p2)]
  }

  lemma BothCheck(req: Request)
    ensures Run(EMPTY, [Arrive(1, req), Arrive(2, req)] + [Check(1, false), Check(2, false)])
            == State(map[], [], Both(req, Executing, Executing))
  {
    RunSplits(EMPTY, [Arrive(1, req), Arrive(2, req)], [Check(1, false), Check(2, false)]);
    RunTwo(EMPTY, Arrive(1, req), Arrive(2, req));
    var s1 := State(map[], [], Both(req, Checking, Checking));
    assert Run(EMPTY, [Arrive(1, req), Arrive(2, req)]) == s1;
    RunTwo(s1, Check(1, false), Check(2, false));
  }

  lemma BothExecute(req: Request)
    ensures Run(State(map[], [], Both(req, Executing, Executing)), [Execute(1, true, 10), Execute(2, true, 20)])
            == State(map[], [req.key, req.key], Both(req, Storing(10), Storing(20)))
  {
    RunTwo(State(map[], [], Both(req, Executing, Executing)), Execute(1, true, 10), Execute(2, true, 20));
  }

  lemma BothStore(req: Request)
    ensures
      Run(State(map[], [req.key, req.key], Both(req, Storing(10), Storing(20))), [Store(1, false), Store(2, false)]) ==
      State(map[req.key := Row(req.fingerprint, OK, 10)], [req.key, req.key],
            Both(req, Executed(OK, 10), FailedAfterEffect))
  {
    RunTwo(State(map[], [req.key, req.key], Both(req, Storing(10), Storing(20))), Store(1, false), Store(2, false));
  }

  /** Two requests that both check before either stores are both charged. */
  lemma DoubleCharge(req: Request)
    ensures var s := Run(EMPTY, [Arrive(1, req), Arrive(2, req)] + [Check(1, false), Check(2, false)]
                                + [Execute(1, true, 10), Execute(2, true, 20)] + [Store(1, false), Store(2, false)]);
      && CountKey(s.effects, req.key) == 2
      && In(s, 1, Executed(OK, 10)) && In(s, 2, FailedAfterEffect)
  {
    var ab := [Arrive(1, req), Arrive(2, req)] + [Check(1, false), Check(2, false)];
    var c, d := [Execute(1, true, 10), Execute(2, true, 20)], [Store(1, false), Store(2, false)];
    RunSplits(EMPTY, ab + c, d);
    RunSplits(EMPTY, ab, c);
    BothCheck(req);
    BothExecute(req);
    BothStore(req);
    assert [req.key, req.key][1..] == [req.key] && CountKey([req.key], req.key) == 1;
  }
}
