/** The Redis token bucket (internal/rate/limiter.go), in exact arithmetic.

    Times are milliseconds. With a refill period of R milliseconds for a capacity of C tokens, tokens are
    counted in units of 1/R of a token: a request costs R units, a millisecond accrues C units and the
    bucket holds C * R. */
module TokenBucket {
  import opened Types

  /** What the key stores, and when it was last touched (which is when its expiry was set). */
  datatype Bucket = Bucket(tokens: int, last: int)

  /** `ttl` is the key's time to live; None is a key that never expires. */
  datatype Config = Config(capacity: nat, refill: int, ttl: Option<int>)

  predicate Usable(c: Config) { c.refill > 0 }

  /** The stored bucket as HMGET sees it: an expired key is absent. */
  function Seen(c: Config, b: Option<Bucket>, now: int): Option<Bucket> {
    if b.Some? && c.ttl.Some? && now >= b.value.last + c.ttl.value then None else b
  }

  /** Tokens after refilling up to now; an absent key is a full bucket. */
  function Refilled(c: Config, b: Option<Bucket>, now: int): int {
    match Seen(c, b, now)
    case None => c.capacity * c.refill
    case Some(x) => Min(c.capacity * c.refill, x.tokens + (now - x.last) * c.capacity)
  }

  /** The Allow script: the decision and the bucket it stores. */
  function Step(c: Config, b: Option<Bucket>, now: int): (bool, Bucket) {
    var tokens := Refilled(c, b, now);
    if tokens < c.refill then (false, Bucket(tokens, now)) else (true, Bucket(tokens - c.refill, now))
  }

  /** The decisions on a sequence of calls. */
  function Decide(c: Config, b: Option<Bucket>, times: seq<int>): seq<bool>
    decreases |times|
  {
    if times == [] then [] else [Step(c, b, times[0]).0] + Decide(c, Some(Step(c, b, times[0]).1), times[1..])
  }

  /** A clock that never goes back, from the bucket's last call on. */
  predicate Monotone(b: Option<Bucket>, times: seq<int>)
    decreases |times|
  {
    times == [] || ((b.Some? ==> b.value.last <= times[0]) && Monotone(Some(Bucket(0, times[0])), times[1..]))
  }

  ghost predicate Full(c: Config, b: Option<Bucket>) {
    b.Some? ==> 0 <= b.value.tokens <= c.capacity * c.refill
  }

  function Count(ds: seq<bool>): nat { if ds == [] then 0 else (if ds[0] then 1 else 0) + Count(ds[1..]) }

  lemma RefilledRange(c: Config, b: Option<Bucket>, now: int)
    requires Usable(c) && Full(c, b) && (b.Some? ==> b.value.last <= now)
    ensures 0 <= Refilled(c, b, now) <= c.capacity * c.refill
    ensures Full(c, Some(Step(c, b, now).1))
  {
    assert c.capacity * c.refill >= 0;
    if b.Some? { assert (now - b.value.last) * c.capacity >= 0; }
  }

  lemma {:induction false} MonotoneFrom(b: Option<Bucket>, b': Option<Bucket>, times: seq<int>)
    requires Monotone(b, times) && (b.Some? == b'.Some?) && (b.Some? ==> b'.value.last == b.value.last)
    ensures Monotone(b', times)
  {
  }

  // ---------------------------------------------------------------- the window bound

  /** What one call spends and leaves was in the bucket or accrued since. */
  lemma StepPays(c: Config, b: Bucket, now: int)
    requires Usable(c) && Full(c, Some(b)) && b.last <= now && c.ttl.None?
    ensures var step := Step(c, Some(b), now);
      (if step.0 then c.refill else 0) + step.1.tokens <= b.tokens + (now - b.last) * c.capacity
  {
    AtLeast(now - b.last, 0, c.capacity);
  }

  lemma CountCons(d: bool, ds: seq<bool>, x: int)
    ensures Count([d] + ds) * x == (if d then x else 0) + Count(ds) * x
  {
    assert ([d] + ds)[1..] == ds;
    assert (1 + Count(ds)) * x == x + Count(ds) * x;
  }

  lemma AtLeast(x: int, y: int, rate: int)
    requires x >= y && rate >= 0
    ensures x * rate >= y * rate
  {
  }

  lemma Accrual(start: int, middle: int, end: int, rate: int)
    ensures (end - start) * rate == (end - middle) * rate + (middle - start) * rate
  {
  }

  /** Starting right after a call, admissions are paid for by what was in the bucket and what accrues. */
  lemma {:induction false} AdmittedFrom(c: Config, b: Bucket, times: seq<int>)
    requires Usable(c) && Full(c, Some(b)) && Monotone(Some(b), times) && times != []
    requires c.ttl.None?
    ensures Count(Decide(c, Some(b), times)) * c.refill <= b.tokens + (times[|times| - 1] - b.last) * c.capacity
    ensures b.last <= times[|times| - 1]
    decreases |times|
  {
    var step, rest := Step(c, Some(b), times[0]), times[1..];
    RefilledRange(c, Some(b), times[0]);
    StepPays(c, b, times[0]);
    MonotoneFrom(Some(Bucket(0, times[0])), Some(step.1), rest);
    CountCons(step.0, Decide(c, Some(step.1), rest), c.refill);
    if rest != [] {
      AdmittedFrom(c, step.1, rest);
      assert rest[|rest| - 1] == times[|times| - 1];
      Accrual(b.last, times[0], times[|times| - 1], c.capacity);
    }
  }

  /** Refilling twice at one instant is refilling once. */
  lemma RefilledOnce(c: Config, b: Option<Bucket>, now: int)
    requires Usable(c) && (c.ttl.Some? ==> c.ttl.value > 0)
    ensures Refilled(c, Some(Bucket(Refilled(c, b, now), now)), now) == Refilled(c, b, now)
  {
    assert (now - now) * c.capacity == 0;
  }

  /** Decisions depend on the bucket as refilled at the first call. */
  lemma FromRefilled(c: Config, b: Option<Bucket>, times: seq<int>)
    requires Usable(c) && times != [] && (c.ttl.Some? ==> c.ttl.value > 0)
    ensures Decide(c, b, times) == Decide(c, Some(Bucket(Refilled(c, b, times[0]), times[0])), times)
  {
    RefilledOnce(c, b, times[0]);
    assert Step(c, Some(Bucket(Refilled(c, b, times[0]), times[0])), times[0]) == Step(c, b, times[0]);
  }

  /** Over any calls, the admitted ones among them are at most the capacity plus what accrues between
      the first and the last: capacity + capacity * window / refill. */
  lemma WindowBound(c: Config, b: Option<Bucket>, times: seq<int>)
    requires Usable(c) && Full(c, b) && Monotone(b, times) && times != [] && c.ttl.None?
    ensures Count(Decide(c, b, times)) * c.refill <= c.capacity * c.refill
      + (times[|times| - 1] - times[0]) * c.capacity
  {
    RefilledRange(c, b, times[0]);
    var full := Bucket(Refilled(c, b, times[0]), times[0]);
    FromRefilled(c, b, times);
    StartMonotone(b, full, times);
    AdmittedFrom(c, full, times);
  }

  lemma StartMonotone(b: Option<Bucket>, x: Bucket, times: seq<int>)
    requires Monotone(b, times) && times != [] && x.last == times[0]
    ensures Monotone(Some(x), times)
  {
    MonotoneFrom(Some(Bucket(0, times[0])), Some(x), times[1..]);
  }

  /** The bound holds for every window of a longer run: it depends on the bucket found there only. */
  lemma {:induction false} AnyWindow(c: Config, b: Option<Bucket>, before: seq<int>, window: seq<int>)
    requires Usable(c) && Full(c, b) && Monotone(b, before + window) && window != [] && c.ttl.None?
    ensures var ds := Decide(c, b, before + window);
      && |ds| == |before| + |window|
      && Count(ds[|before|..]) * c.refill <= c.capacity * c.refill + (window[|window| - 1] - window[0]) * c.capacity
    decreases |before|
  {
    var ds := Decide(c, b, before + window);
    if before == [] {
      assert before + window == window;
      WindowBound(c, b, window);
      DecideLength(c, b, window);
      assert ds[0..] == ds;
    } else {
      var next := Some(Step(c, b, before[0]).1);
      RefilledRange(c, b, before[0]);
      assert (before + window)[1..] == before[1..] + window;
      MonotoneFrom(Some(Bucket(0, before[0])), next, before[1..] + window);
      AnyWindow(c, next, before[1..], window);
      assert ds[|before|..] == Decide(c, next, before[1..] + window)[|before[1..]|..];
    }
  }

  lemma {:induction false} DecideLength(c: Config, b: Option<Bucket>, times: seq<int>)
    ensures |Decide(c, b, times)| == |times|
    decreases |times|
  {
    if times != [] { DecideLength(c, Some(Step(c, b, times[0]).1), times[1..]); }
  }

  // ---------------------------------------------------------------- denials cost nothing

  lemma RefillAgain(c: Config, b: Option<Bucket>, now: int, t: int)
    requires Usable(c) && c.ttl.None? && Full(c, b) && now <= t && (b.Some? ==> b.value.last <= now)
    requires Refilled(c, b, now) < c.refill
    ensures Refilled(c, Some(Bucket(Refilled(c, b, now), now)), t) == Refilled(c, b, t)
  {
    AtLeast(t - now, 0, c.capacity);
    if b.Some? {
      Accrual(b.value.last, now, t, c.capacity);
    } else {
      assert c.capacity > 0 ==> c.capacity * c.refill >= c.refill;
      assert c.capacity == 0;
    }
  }

  /** A denied call leaves every later decision as if it had not been made. */
  lemma DenialLosesNothing(c: Config, b: Option<Bucket>, now: int, later: seq<int>)
    requires Usable(c) && c.ttl.None? && Full(c, b) && Monotone(b, [now] + later) && !Step(c, b, now).0
    ensures Decide(c, Some(Step(c, b, now).1), later) == Decide(c, b, later)
  {
    if later != [] {
      assert ([now] + later)[1..] == later;
      RefillAgain(c, b, now, later[0]);
    }
  }

  // ---------------------------------------------------------------- expiry

  function NoExpiry(c: Config): Config { c.(ttl := None) }

  lemma ExpiredIsFull(c: Config, b: Option<Bucket>, now: int)
    requires Usable(c) && c.ttl.Some? && (c.capacity == 0 || c.ttl.value >= c.refill) && Full(c, b)
    ensures Refilled(c, b, now) == Refilled(NoExpiry(c), b, now)
  {
    if b.Some? && now >= b.value.last + c.ttl.value && c.capacity > 0 {
      AtLeast(now - b.value.last, c.refill, c.capacity);
    }
  }

  lemma {:induction false} ExpiryUnseen(c: Config, b: Option<Bucket>, times: seq<int>)
    requires Usable(c) && c.ttl.Some? && (c.capacity == 0 || c.ttl.value >= c.refill) && Full(c, b)
      && Monotone(b, times)
    ensures Decide(c, b, times) == Decide(NoExpiry(c), b, times)
    decreases |times|
  {
    if times != [] {
      ExpiredIsFull(c, b, times[0]);
      RefilledRange(c, b, times[0]);
      MonotoneFrom(Some(Bucket(0, times[0])), Some(Step(c, b, times[0]).1), times[1..]);
      ExpiryUnseen(c, Some(Step(c, b, times[0]).1), times[1..]);
    }
  }

  function Repeat(t: int, n: nat): seq<int> { if n == 0 then [] else [t] + Repeat(t, n - 1) }

  /** `n` calls at one instant take `n` tokens, as long as they last. */
  lemma {:induction false} Burst(c: Config, x: Bucket, n: nat, later: seq<int>)
    requires Usable(c) && (c.ttl.Some? ==> c.ttl.value > 0)
    requires n * c.refill <= x.tokens <= c.capacity * c.refill
    ensures Decide(c, Some(x), Repeat(x.last, n) + later) ==
            seq(n, i => true) + Decide(c, Some(Bucket(x.tokens - n * c.refill, x.last)), later)
    decreases n
  {
    var times := Repeat(x.last, n) + later;
    if n == 0 {
      assert times == later;
      assert 0 * c.refill == 0;
    } else {
      assert n * c.refill == c.refill + (n - 1) * c.refill;
      assert (n - 1) * c.refill >= 0;
      assert (x.last - x.last) * c.capacity == 0;
      assert times[0] == x.last && times[1..] == Repeat(x.last, n - 1) + later;
      var y := Bucket(x.tokens - c.refill, x.last);
      assert Step(c, Some(x), x.last) == (true, y);
      Burst(c, y, n - 1, later);
      assert [true] + seq(n - 1, i => true) == seq(n, i => true);
    }
  }

  /** The probe that tells: empty the bucket at 0, then as many calls again when the key has expired. */
  function Probe(c: Config): seq<int>
    requires c.ttl.Some?
  {
    Repeat(0, c.capacity) + Repeat(c.ttl.value, c.capacity)
  }

  lemma {:induction false} RepeatMonotone(last: int, t: int, n: nat, x: int)
    requires last <= t
    ensures Monotone(Some(Bucket(x, last)), Repeat(t, n))
    decreases n
  {
    if n > 0 { RepeatMonotone(t, t, n - 1, 0); }
  }

  lemma {:induction false} ProbeMonotone(b: Option<Bucket>, t: int, n: nat, m: nat)
    requires t >= 0 && (b.Some? ==> b.value.last == 0)
    ensures Monotone(b, Repeat(0, n) + Repeat(t, m))
    decreases n
  {
    var times := Repeat(0, n) + Repeat(t, m);
    if n == 0 {
      assert times == Repeat(t, m);
      if b.Some? { RepeatMonotone(0, t, m, b.value.tokens); } else if m > 0 { RepeatMonotone(t, t, m - 1, 0); }
    } else {
      ProbeMonotone(Some(Bucket(0, 0)), t, n - 1, m);
      assert times[1..] == Repeat(0, n - 1) + Repeat(t, m);
    }
  }

  /** From an absent key a burst starts with a full bucket. */
  lemma AbsentIsFull(c: Config, times: seq<int>)
    requires Usable(c) && times != [] && (c.ttl.Some? ==> c.ttl.value > 0)
    ensures Decide(c, None, times) == Decide(c, Some(Bucket(c.capacity * c.refill, times[0])), times)
  {
    assert (times[0] - times[0]) * c.capacity == 0;
  }

  lemma {:induction false} CountTrue(n: nat, ds: seq<bool>)
    ensures Count(seq(n, i => true) + ds) == n + Count(ds)
    decreases n
  {
    var all := seq(n, i => true) + ds;
    if n == 0 {
      assert all == ds;
    } else {
      CountTrue(n - 1, ds);
      assert all[1..] == seq(n - 1, i => true) + ds;
    }
  }

  /** With expiry the probe is admitted throughout. */
  lemma ProbeWithExpiry(c: Config)
    requires Usable(c) && c.ttl.Some? && c.ttl.value > 0 && c.capacity > 0
    ensures Count(Decide(c, None, Probe(c))) == 2 * c.capacity
  {
    var n, full, t := c.capacity, c.capacity * c.refill, c.ttl.value;
    assert Repeat(0, n)[0] == 0 && Repeat(t, n)[0] == t;
    AbsentIsFull(c, Probe(c));
    Burst(c, Bucket(full, 0), n, Repeat(t, n));
    var second := Decide(c, Some(Bucket(0, 0)), Repeat(t, n));
    assert second == Decide(c, None, Repeat(t, n));
    AbsentIsFull(c, Repeat(t, n));
    assert Repeat(t, n) + [] == Repeat(t, n);
    Burst(c, Bucket(full, t), n, []);
    CountTrue(n, second);
    CountTrue(n, []);
  }

  /** The same decisions whether or not keys expire, on every sequence of calls. */
  ghost predicate ExpiryUnobservable(c: Config) {
    forall times :: Monotone(None, times) ==> Decide(c, None, times) == Decide(NoExpiry(c), None, times)
  }

  /** Without expiry the probe is not: twice the capacity is more than the window allows. */
  lemma ProbeWithoutExpiry(c: Config)
    requires Usable(c) && c.ttl.Some? && 0 < c.ttl.value < c.refill && c.capacity > 0
    ensures Monotone(None, Probe(c)) && Count(Decide(NoExpiry(c), None, Probe(c))) < 2 * c.capacity
  {
    ProbeMonotone(None, c.ttl.value, c.capacity, c.capacity);
    ProbeEnds(c);
    WindowBound(NoExpiry(c), None, Probe(c));
    TooMany(Count(Decide(NoExpiry(c), None, Probe(c))), c.capacity, c.refill, c.ttl.value);
  }

  lemma TooMany(n: nat, capacity: nat, refill: int, ttl: int)
    requires capacity > 0 && 0 < ttl < refill && n * refill <= capacity * refill + ttl * capacity
    ensures n < 2 * capacity
  {
    assert ttl * capacity < refill * capacity;
    assert n >= 2 * capacity ==> n * refill >= 2 * capacity * refill;
  }

  /** Expiry cannot be observed exactly when the refill period is no longer than the key lives (or
      nothing is ever admitted anyway). */
  lemma ExpiryUnobservableIff(c: Config)
    requires Usable(c) && c.ttl.Some? && c.ttl.value > 0
    ensures ExpiryUnobservable(c) <==> c.capacity == 0 || c.refill <= c.ttl.value
  {
    if c.capacity == 0 || c.refill <= c.ttl.value {
      forall times | Monotone(None, times) ensures Decide(c, None, times) == Decide(NoExpiry(c), None, times) {
        ExpiryUnseen(c, None, times);
      }
    } else {
      ProbeWithExpiry(c);
      ProbeWithoutExpiry(c);
      assert Decide(c, None, Probe(c)) != Decide(NoExpiry(c), None, Probe(c));
    }
  }

  /** The window bound, from a new key on. */
  ghost predicate WindowBounded(c: Config) {
    forall times :: Monotone(None, times) && times != [] ==>
      Count(Decide(c, None, times)) * c.refill <= c.capacity * c.refill + (times[|times| - 1] - times[0]) * c.capacity
  }

  /** Expiring keys keep the window bound exactly when the refill period is no longer than the key lives
      (or nothing is ever admitted anyway): otherwise the probe is too much for its window. */
  lemma WindowBoundedIff(c: Config)
    requires Usable(c) && c.ttl.Some? && c.ttl.value > 0
    ensures WindowBounded(c) <==> c.capacity == 0 || c.refill <= c.ttl.value
  {
    if c.capacity == 0 || c.refill <= c.ttl.value {
      forall times | Monotone(None, times) && times != []
        ensures Count(Decide(c, None, times)) * c.refill <= c.capacity * c.refill
          + (times[|times| - 1] - times[0]) * c.capacity
      {
        ExpiryUnseen(c, None, times);
        WindowBound(NoExpiry(c), None, times);
      }
    } else {
      var times := Probe(c);
      ProbeMonotone(None, c.ttl.value, c.capacity, c.capacity);
      ProbeEnds(c);
      ProbeWithExpiry(c);
      ProbeTooMany(c.capacity, c.refill, c.ttl.value);
      assert Count(Decide(c, None, times)) == 2 * c.capacity;
    }
  }

  lemma ProbeTooMany(capacity: nat, refill: int, ttl: int)
    requires capacity > 0 && 0 < ttl < refill
    ensures 2 * capacity * refill > capacity * refill + ttl * capacity
  {
    assert ttl * capacity < refill * capacity;
  }

  /** Denials cost nothing with expiring keys either, if expiry cannot be observed. */
  lemma DenialLosesNothingWithExpiry(c: Config, b: Option<Bucket>, now: int, later: seq<int>)
    requires Usable(c) && c.ttl.Some? && (c.capacity == 0 || c.refill <= c.ttl.value)
    requires Full(c, b) && Monotone(b, [now] + later) && !Step(c, b, now).0
    ensures Decide(c, Some(Step(c, b, now).1), later) == Decide(c, b, later)
  {
    var next := Some(Step(c, b, now).1);
    assert ([now] + later)[1..] == later;
    ExpiredIsFull(c, b, now);
    RefilledRange(c, b, now);
    MonotoneFrom(Some(Bucket(0, now)), next, later);
    LaterMonotone(b, now, later);
    DenialLosesNothing(NoExpiry(c), b, now, later);
    ExpiryUnseen(c, next, later);
    ExpiryUnseen(c, b, later);
  }

  lemma LaterMonotone(b: Option<Bucket>, now: int, later: seq<int>)
    requires Monotone(b, [now] + later)
    ensures Monotone(b, later)
  {
    assert ([now] + later)[1..] == later;
  }

  lemma {:induction false} RepeatAt(t: int, n: nat)
    ensures |Repeat(t, n)| == n && forall i :: 0 <= i < n ==> Repeat(t, n)[i] == t
    decreases n
  {
    if n > 0 { RepeatAt(t, n - 1); }
  }

  lemma ProbeEnds(c: Config)
    requires c.ttl.Some? && c.capacity > 0
    ensures var times := Probe(c); times != [] && times[0] == 0 && times[|times| - 1] == c.ttl.value
  {
    RepeatAt(0, c.capacity);
    RepeatAt(c.ttl.value, c.capacity);
  }

  /** The window bound for a limiter whose keys expire no sooner than a bucket refills, as configured
      (60 tokens a minute, keys living 60 seconds). */
  lemma AnyWindowWithExpiry(c: Config, b: Option<Bucket>, before: seq<int>, window: seq<int>)
    requires Usable(c) && c.ttl.Some? && c.refill <= c.ttl.value
    requires Full(c, b) && Monotone(b, before + window) && window != []
    ensures |Decide(c, b, before + window)| == |before| + |window|
    ensures Count(Decide(c, b, before + window)[|before|..]) * c.refill
            <= c.capacity * c.refill + (window[|window| - 1] - window[0]) * c.capacity
  {
    ExpiryUnseen(c, b, before + window);
    AnyWindow(NoExpiry(c), b, before, window);
  }

  // ---------------------------------------------------------------- remaining tokens

  /** The GetRemainingTokens script. */
  function Remaining(c: Config, b: Option<Bucket>, now: int): int
    requires Usable(c)
  {
    Refilled(c, b, now) / c.refill
  }

  lemma {:induction false} RepeatSplits(t: int, n: nat, m: nat)
    ensures Repeat(t, n + m) == Repeat(t, n) + Repeat(t, m)
    decreases n
  {
    if n > 0 { RepeatSplits(t, n - 1, m); }
  }

  /** Calls at one instant: as many succeed as there are whole tokens, then they are denied. */
  lemma BurstExactly(c: Config, b: Option<Bucket>, now: int, extra: nat)
    requires Usable(c) && Full(c, b) && (b.Some? ==> b.value.last <= now) && (c.ttl.Some? ==> c.ttl.value > 0)
      && extra > 0
    ensures Remaining(c, b, now) >= 0
    ensures var n, ds := Remaining(c, b, now), Decide(c, b, Repeat(now, Remaining(c, b, now) + extra));
      && |ds| == n + extra && ds[..n] == seq(n, i => true) && !ds[n]
  {
    var x, n := Bucket(Refilled(c, b, now), now), Remaining(c, b, now);
    WholeTokens(c, b, now);
    RepeatSplits(now, n, extra);
    RepeatAt(now, extra);
    RepeatAt(now, n + extra);
    FromRefilled(c, b, Repeat(now, n + extra));
    Burst(c, x, n, Repeat(now, extra));
    DecideLength(c, b, Repeat(now, n + extra));
    assert (now - now) * c.capacity == 0;
  }

  lemma WholeTokens(c: Config, b: Option<Bucket>, now: int)
    requires Usable(c) && Full(c, b) && (b.Some? ==> b.value.last <= now)
    ensures var n, tokens := Remaining(c, b, now), Refilled(c, b, now);
      0 <= n && n * c.refill <= tokens < n * c.refill + c.refill && tokens <= c.capacity * c.refill
  {
    RefilledRange(c, b, now);
    Quotient(Refilled(c, b, now), c.refill);
  }

  lemma Quotient(x: int, d: int)
    requires x >= 0 && d > 0
    ensures 0 <= x / d && x / d * d <= x < x / d * d + d
  {
  }

  /** GetRemainingTokens returns k exactly when the next k calls at that instant succeed and the one
      after is denied. */
  lemma RemainingIsExact(c: Config, b: Option<Bucket>, now: int, k: nat)
    requires Usable(c) && Full(c, b) && (b.Some? ==> b.value.last <= now) && (c.ttl.Some? ==> c.ttl.value > 0)
    ensures Remaining(c, b, now) == k <==> Decide(c, b, Repeat(now, k + 1)) == seq(k, i => true) + [false]
  {
    var n := Remaining(c, b, now);
    BurstExactly(c, b, now, 1);
    var expected := seq(k, i => true) + [false];
    if k > n {
      BurstExactly(c, b, now, k + 1 - n);
      assert expected[n];
    } else if k < n {
      EnoughTokens(c, b, now, k + 1);
      ShorterBurst(c, b, now, k + 1);
      assert !expected[k];
    } else {
      var ds := Decide(c, b, Repeat(now, n + 1));
      assert ds == ds[..n] + [ds[n]];
    }
  }

  lemma EnoughTokens(c: Config, b: Option<Bucket>, now: int, k: nat)
    requires Usable(c) && Full(c, b) && (b.Some? ==> b.value.last <= now) && k <= Remaining(c, b, now)
    ensures k * c.refill <= Refilled(c, b, now) <= c.capacity * c.refill
  {
    WholeTokens(c, b, now);
    FewerCost(k, Remaining(c, b, now), c.refill);
  }

  lemma FewerCost(k: nat, n: int, refill: int)
    requires refill > 0 && k <= n
    ensures k * refill <= n * refill
  {
  }

  lemma ShorterBurst(c: Config, b: Option<Bucket>, now: int, k: nat)
    requires Usable(c) && (c.ttl.Some? ==> c.ttl.value > 0)
    requires k > 0 && k * c.refill <= Refilled(c, b, now) <= c.capacity * c.refill
    ensures Decide(c, b, Repeat(now, k)) == seq(k, i => true)
  {
    RepeatAt(now, k);
    FromRefilled(c, b, Repeat(now, k));
    assert Repeat(now, k) + [] == Repeat(now, k);
    Burst(c, Bucket(Refilled(c, b, now), now), k, []);
  }

  // ---------------------------------------------------------------- the limiter over its keys

  class Limiter {
    const c: Config
    var keys: map<Id, Bucket>

    constructor (c: Config)
      requires Usable(c)
      ensures this.c == c && keys == map[]
    {
      this.c := c;
      keys := map[];
    }

    function Key(user: Id): Option<Bucket>
      reads this
    {
      if user in keys then Some(keys[user]) else None
    }

    /** The Allow script on one user's key; no other key is touched. */
    method Allow(user: Id, now: int) returns (allowed: bool)
      modifies this
      ensures user in keys && (allowed, keys[user]) == Step(c, old(Key(user)), now)
      ensures forall u :: u != user ==> Key(u) == old(Key(u))
    {
      var tokens, last := c.capacity * c.refill, now;
      if user in keys && !(c.ttl.Some? && now >= keys[user].last + c.ttl.value) {
        tokens, last := keys[user].tokens, keys[user].last;
      }
      var newTokens := Min(c.capacity * c.refill, tokens + (now - last) * c.capacity);
      assert (now - now) * c.capacity == 0;
      if newTokens < c.refill {
        keys := keys[user := Bucket(newTokens, now)];
        return false;
      }
      keys := keys[user := Bucket(newTokens - c.refill, now)];
      allowed := true;
    }

    method GetRemainingTokens(user: Id, now: int) returns (n: int)
      requires Usable(c)
      ensures n == Remaining(c, Key(user), now)
    {
      var tokens, last := c.capacity * c.refill, now;
      if user in keys && !(c.ttl.Some? && now >= keys[user].last + c.ttl.value) {
        tokens, last := keys[user].tokens, keys[user].last;
      }
      assert (now - now) * c.capacity == 0;
      n := Min(c.capacity * c.refill, tokens + (now - last) * c.capacity) / c.refill;
    }

    method Reset(user: Id)
      modifies this
      ensures keys == old(keys) - {user}
    {
      keys := keys - {user};
    }
  }
}
