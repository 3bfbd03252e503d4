/** The keyed limiter of internal/security/rate_limiter.go as a value: what one call of
    `allow`, `cleanup` or `SetIPRateLimit` does to the limits and the bucket map.
    Time is in seconds; the clock reading of a call is a parameter. */
module KeyedLimiter {
  import opened Flows

  /** RateLimitConfig. Rate and Burst are plain integers in the source. */
  datatype Limits = Limits(rate: int, burst: int, ttl: real) {
    predicate NonNegative() {
      0 <= rate && 0 <= burst && 0.0 <= ttl
    }

    /** An idle bucket refills completely before it may be forgotten. */
    predicate RefillsWithinTtl() {
      Flow(rate as real, ttl) >= burst as real
    }
  }

  datatype Bucket = Bucket(tokens: real, capacity: real, rate: real, lastRefill: real)

  datatype Limiter = Limiter(limits: Limits, buckets: map<string, Bucket>)

  datatype Op =
    | Allow(key: string, n: int, at: real)
    | Cleanup(at: real)
    | SetLimits(rate: int, burst: int, at: real)

  function NewBucket(limits: Limits, now: real): Bucket {
    Bucket(limits.burst as real, limits.burst as real, limits.rate as real, now)
  }

  /** The tokens a bucket would hold if it were refilled at `now`. */
  function LevelAt(b: Bucket, now: real): real {
    Lesser(b.tokens + Flow(b.rate, now - b.lastRefill), b.capacity)
  }

  function Refill(b: Bucket, now: real): Bucket {
    b.(tokens := LevelAt(b, now), lastRefill := now)
  }

  function Take(b: Bucket, n: int, now: real): (r: (bool, Bucket)) {
    var filled := Refill(b, now);
    if filled.tokens >= n as real
    then (true, filled.(tokens := filled.tokens - n as real))
    else (false, filled)
  }

  /** `allow`: find or create the bucket, then take from it. */
  function AllowStep(s: Limiter, key: string, n: int, now: real): (r: (bool, Limiter)) {
    var b := if key in s.buckets then s.buckets[key] else NewBucket(s.limits, now);
    var (granted, b') := Take(b, n, now);
    (granted, s.(buckets := s.buckets[key := b']))
  }

  predicate Expired(b: Bucket, limits: Limits, now: real) {
    now - b.lastRefill > limits.ttl
  }

  /** `cleanup`: drop every bucket that was not refilled for longer than the TTL. */
  function CleanupStep(s: Limiter, now: real): (r: Limiter) {
    s.(buckets := map key | key in s.buckets && !Expired(s.buckets[key], s.limits, now) :: s.buckets[key])
  }

  /** `SetIPRateLimit`: change the limits and start over with no buckets. */
  function SetLimitsStep(s: Limiter, rate: int, burst: int): (r: Limiter) {
    Limiter(s.limits.(rate := rate, burst := burst), map[])
  }

  /** One step; a call of `allow` also yields its verdict. `forgets` is false for the
      reference limiter, which never deletes a bucket. */
  function Step(s: Limiter, op: Op, forgets: bool): (r: (seq<bool>, Limiter)) {
    match op
    case Allow(key, n, at) =>
      var (granted, s') := AllowStep(s, key, n, at);
      ([granted], s')
    case Cleanup(at) => ([], if forgets then CleanupStep(s, at) else s)
    case SetLimits(rate, burst, _) => ([], SetLimitsStep(s, rate, burst))
  }

  /** The verdicts of a whole run, in order. */
  function Verdicts(s: Limiter, ops: seq<Op>, forgets: bool): seq<bool>
    decreases ops
  {
    if ops == [] then []
    else
      var (out, s') := Step(s, ops[0], forgets);
      out + Verdicts(s', ops[1..], forgets)
  }

  function Final(s: Limiter, ops: seq<Op>): Limiter
    decreases ops
  {
    if ops == [] then s else Final(Step(s, ops[0], true).1, ops[1..])
  }

  /** The clock never goes back. */
  predicate Monotone(from: real, ops: seq<Op>)
    decreases ops
  {
    ops == [] || (from <= ops[0].at && Monotone(ops[0].at, ops[1..]))
  }

  predicate KeepsLimits(ops: seq<Op>) {
    forall i :: 0 <= i < |ops| ==> !ops[i].SetLimits?
  }

  /** Every limit that is in force during the run satisfies the TTL condition. */
  predicate AlwaysRefills(limits: Limits, ops: seq<Op>)
    decreases ops
  {
    && limits.NonNegative()
    && limits.RefillsWithinTtl()
    && (ops != [] ==>
          AlwaysRefills(if ops[0].SetLimits? then limits.(rate := ops[0].rate, burst := ops[0].burst) else limits,
                        ops[1..]))
  }

  // ---------------------------------------------------------------------------
  // Invariant
  // ---------------------------------------------------------------------------

  ghost predicate GoodBucket(b: Bucket, limits: Limits, now: real) {
    && 0.0 <= b.tokens
    && b.capacity == limits.burst as real
    && b.rate == limits.rate as real
    && b.lastRefill <= now
  }

  /** Holds of a new limiter and is kept by every step under a monotone clock. */
  ghost predicate Good(s: Limiter, now: real) {
    && s.limits.NonNegative()
    && forall key :: key in s.buckets ==> GoodBucket(s.buckets[key], s.limits, now)
  }

  lemma LevelBounds(b: Bucket, now: real)
    requires 0.0 <= b.tokens && 0.0 <= b.rate && 0.0 <= b.capacity && b.lastRefill <= now
    ensures 0.0 <= LevelAt(b, now) <= b.capacity
  {
    hide Flow;
    FlowIsNonNegative(b.rate, now - b.lastRefill);
  }

  lemma GoodIsKept(s: Limiter, op: Op, now: real, forgets: bool)
    requires Good(s, now) && now <= op.at
    requires op.SetLimits? ==> 0 <= op.rate && 0 <= op.burst
    ensures Good(Step(s, op, forgets).1, op.at)
  {
    hide LevelAt, Flow;
    if op.Allow? {
      var b := if op.key in s.buckets then s.buckets[op.key] else NewBucket(s.limits, op.at);
      LevelBounds(b, op.at);
    }
  }

  /** A bucket that may be forgotten is full: it was idle for longer than the TTL. */
  lemma ExpiredIsFull(b: Bucket, limits: Limits, now: real)
    requires limits.NonNegative() && limits.RefillsWithinTtl()
    requires GoodBucket(b, limits, now) && Expired(b, limits, now)
    ensures LevelAt(b, now) == b.capacity
  {
    hide Flow;
    LongerFlowsMore(b.rate, limits.ttl, now - b.lastRefill);
  }

  lemma FullStaysFull(b: Bucket, limits: Limits, t: real, t': real)
    requires limits.NonNegative() && GoodBucket(b, limits, t) && t <= t'
    requires LevelAt(b, t) == b.capacity
    ensures LevelAt(b, t') == b.capacity
  {
    hide Flow;
    LongerFlowsMore(b.rate, t - b.lastRefill, t' - b.lastRefill);
  }

  /** A cleanup leaves exactly the buckets that were used within the TTL, as they are. */
  lemma CleanupLeavesExactly(s: Limiter, now: real, key: string)
    ensures var s' := CleanupStep(s, now);
            && (key in s'.buckets <==> key in s.buckets && now <= s.buckets[key].lastRefill + s.limits.ttl)
            && (key in s'.buckets ==> s'.buckets[key] == s.buckets[key])
            && s'.limits == s.limits
  {}

  // ---------------------------------------------------------------------------
  // Forgetting idle buckets is unobservable
  // ---------------------------------------------------------------------------

  /** `a` has forgotten only buckets that are full in `b`. */
  ghost predicate ForgotOnlyFull(a: Limiter, b: Limiter, now: real) {
    && a.limits == b.limits
    && (forall key :: key in a.buckets ==> key in b.buckets && a.buckets[key] == b.buckets[key])
    && (forall key :: key in b.buckets && key !in a.buckets ==> LevelAt(b.buckets[key], now) == b.buckets[key].capacity)
  }

  lemma ForgotOnlyFullIsKept(a: Limiter, b: Limiter, op: Op, now: real)
    requires Good(a, now) && Good(b, now) && now <= op.at
    requires a.limits.RefillsWithinTtl()
    requires ForgotOnlyFull(a, b, now)
    ensures Step(a, op, true).0 == Step(b, op, false).0
    ensures ForgotOnlyFull(Step(a, op, true).1, Step(b, op, false).1, op.at)
  {
    hide LevelAt, Flow;
    NewBucketIsFull(a.limits, op.at);
    forall key | key in b.buckets && key !in a.buckets
      ensures LevelAt(b.buckets[key], op.at) == b.buckets[key].capacity
    {
      FullStaysFull(b.buckets[key], b.limits, now, op.at);
    }
    if op.Cleanup? {
      forall key | key in a.buckets && Expired(a.buckets[key], a.limits, op.at)
        ensures LevelAt(b.buckets[key], op.at) == b.buckets[key].capacity
      {
        ExpiredIsFull(b.buckets[key], b.limits, op.at);
      }
    }
  }

  lemma {:induction false} SameVerdicts(a: Limiter, b: Limiter, ops: seq<Op>, now: real)
    requires Good(a, now) && Good(b, now) && Monotone(now, ops)
    requires AlwaysRefills(a.limits, ops)
    requires ForgotOnlyFull(a, b, now)
    ensures Verdicts(a, ops, true) == Verdicts(b, ops, false)
    decreases ops
  {
    if ops != [] {
      var op := ops[0];
      ForgotOnlyFullIsKept(a, b, op, now);
      assert op.SetLimits? ==> 0 <= op.rate && 0 <= op.burst;
      GoodIsKept(a, op, now, true);
      GoodIsKept(b, op, now, false);
      SameVerdicts(Step(a, op, true).1, Step(b, op, false).1, ops[1..], op.at);
    }
  }

  function NewLimiter(limits: Limits): Limiter {
    Limiter(limits, map[])
  }

  /** Main result: with TTL * Rate >= Burst under every limit in force, the limiter that
      forgets idle buckets grants and refuses exactly as one that never forgets. */
  lemma ForgettingIsUnobservable(limits: Limits, ops: seq<Op>, start: real)
    requires Monotone(start, ops) && AlwaysRefills(limits, ops)
    ensures Verdicts(NewLimiter(limits), ops, true) == Verdicts(NewLimiter(limits), ops, false)
  {
    SameVerdicts(NewLimiter(limits), NewLimiter(limits), ops, start);
  }

  /** An instant after the TTL at which the bucket is not yet full again. */
  function TooEarly(limits: Limits): (t: real)
    requires limits.NonNegative() && !limits.RefillsWithinTtl()
    ensures t > limits.ttl && Flow(limits.rate as real, t) < limits.burst as real
  {
    if limits.rate == 0 then limits.ttl + 1.0
    else
      var slack := (limits.burst as real - Flow(limits.rate as real, limits.ttl)) / (2.0 * limits.rate as real);
      FlowOfSlack(limits.rate as real, limits.burst as real - Flow(limits.rate as real, limits.ttl));
      FlowAddsUp(limits.rate as real, limits.ttl, slack);
      limits.ttl + slack
  }

  lemma FlowOfSlack(rate: real, missing: real)
    requires 0.0 < rate && 0.0 < missing
    ensures 0.0 < missing / (2.0 * rate) && Flow(rate, missing / (2.0 * rate)) == missing / 2.0
  {
    var slack := missing / (2.0 * rate);
    assert slack * (2.0 * rate) == missing;
  }

  /** Take the whole burst, wait past the TTL, clean up, take the whole burst again. */
  function ForgetfulRun(key: string, limits: Limits): seq<Op>
    requires limits.NonNegative() && !limits.RefillsWithinTtl()
  {
    var t := TooEarly(limits);
    [Allow(key, limits.burst, 0.0), Cleanup(t), Allow(key, limits.burst, t)]
  }

  lemma ForgetfulRunVerdicts(key: string, limits: Limits)
    requires limits.NonNegative() && !limits.RefillsWithinTtl()
    ensures var run := ForgetfulRun(key, limits);
            && Monotone(0.0, run) && KeepsLimits(run)
            && Verdicts(NewLimiter(limits), run, true) == [true, true]
            && Verdicts(NewLimiter(limits), run, false) == [true, false]
  {
    var run := ForgetfulRun(key, limits);
    var t := TooEarly(limits);
    var s0 := NewLimiter(limits);
    var b1 := Bucket(0.0, limits.burst as real, limits.rate as real, 0.0);
    var s1 := Limiter(limits, map[key := b1]);
    assert Step(s0, run[0], true) == ([true], s1) == Step(s0, run[0], false);
    assert Step(s1, run[1], true).1.buckets == map[];
    assert run[1..][0] == run[1] && run[1..][1..] == [run[2]] && [run[2]][1..] == [];
    assert Monotone(t, [run[2]]) && Monotone(0.0, run[1..]);
    calc {
      Verdicts(s0, run, true);
      [true] + Verdicts(s1, run[1..], true);
      [true] + ([] + Verdicts(s0, [run[2]], true));
      [true] + ([] + ([true] + Verdicts(Step(s0, run[2], true).1, [], true)));
      [true, true];
    }
    assert LevelAt(b1, t) == Flow(limits.rate as real, t);
    assert Flow(limits.rate as real, 0.0) == 0.0;
    calc {
      Verdicts(s0, run, false);
      [true] + Verdicts(s1, run[1..], false);
      [true] + ([] + Verdicts(s1, [run[2]], false));
      [true] + ([] + ([false] + Verdicts(Step(s1, run[2], false).1, [], false)));
      [true, false];
    }
  }

  lemma {:induction false} KeptLimitsAlwaysRefill(limits: Limits, ops: seq<Op>)
    requires limits.NonNegative() && limits.RefillsWithinTtl() && KeepsLimits(ops)
    ensures AlwaysRefills(limits, ops)
    decreases ops
  {
    if ops != [] {
      assert !ops[0].SetLimits?;
      KeptLimitsAlwaysRefill(limits, ops[1..]);
    }
  }

  /** The TTL condition is exactly what makes forgetting unobservable. */
  lemma UnobservableIff(limits: Limits)
    requires limits.NonNegative()
    ensures limits.RefillsWithinTtl() <==>
            forall ops :: Monotone(0.0, ops) && KeepsLimits(ops) ==>
                            Verdicts(NewLimiter(limits), ops, true) == Verdicts(NewLimiter(limits), ops, false)
  {
    if limits.RefillsWithinTtl() {
      forall ops | Monotone(0.0, ops) && KeepsLimits(ops)
        ensures Verdicts(NewLimiter(limits), ops, true) == Verdicts(NewLimiter(limits), ops, false)
      {
        KeptLimitsAlwaysRefill(limits, ops);
        ForgettingIsUnobservable(limits, ops, 0.0);
      }
    } else {
      ForgetfulRunVerdicts("k", limits);
      var run := ForgetfulRun("k", limits);
      assert Verdicts(NewLimiter(limits), run, true)[1] != Verdicts(NewLimiter(limits), run, false)[1];
    }
  }

  // ---------------------------------------------------------------------------
  // What one key is granted in a window
  // ---------------------------------------------------------------------------

  /** The tokens granted to `key` during a run. */
  function Granted(s: Limiter, ops: seq<Op>, key: string): int
    decreases ops
  {
    if ops == [] then 0
    else
      var (out, s') := Step(s, ops[0], true);
      Spent(ops[0], out, key) + Granted(s', ops[1..], key)
  }

  predicate Within(ops: seq<Op>, from: real, until: real) {
    Monotone(from, ops) && (ops == [] || ops[|ops| - 1].at <= until)
  }

  /** What `key` could take at `now`; a key without a bucket could take the whole burst. */
  function KeyLevel(s: Limiter, key: string, now: real): real {
    if key in s.buckets then LevelAt(s.buckets[key], now) else s.limits.burst as real
  }

  lemma LevelGrowth(s: Limiter, key: string, t: real, t': real)
    requires Good(s, t) && t <= t'
    ensures KeyLevel(s, key, t') <= KeyLevel(s, key, t) + Flow(s.limits.rate as real, t' - t)
  {
    hide Flow;
    var rate := s.limits.rate as real;
    FlowIsNonNegative(rate, t' - t);
    if key in s.buckets {
      FlowAddsUp(rate, t - s.buckets[key].lastRefill, t' - t);
      assert t - s.buckets[key].lastRefill + (t' - t) == t' - s.buckets[key].lastRefill;
    }
  }

  /** Taking from a bucket leaves at most its level less what was granted. */
  lemma TakeSpendsLevel(b: Bucket, n: int, now: real)
    requires 0.0 <= b.tokens && 0.0 <= b.rate && 0.0 <= b.capacity && b.lastRefill <= now
    ensures var (granted, b') := Take(b, n, now);
            0.0 <= LevelAt(b', now) <= LevelAt(b, now) - (if granted then n as real else 0.0)
  {
    LevelBounds(b, now);
    assert Flow(b.rate, 0.0) == 0.0;
    hide Flow;
    var b' := Take(b, n, now).1;
    assert now - b'.lastRefill == 0.0;
  }

  function Spent(op: Op, out: seq<bool>, key: string): int {
    if op.Allow? && op.key == key && out == [true] then op.n else 0
  }

  /** A step leaves at most the old level less what it granted; forgetting adds nothing. */
  lemma StepSpendsLevel(s: Limiter, op: Op, key: string, now: real)
    requires Good(s, now) && now <= op.at && !op.SetLimits?
    requires s.limits.RefillsWithinTtl()
    ensures var (out, s') := Step(s, op, true);
            KeyLevel(s', key, op.at) <= KeyLevel(s, key, op.at) - Spent(op, out, key) as real
  {
    if op.Allow? && op.key == key {
      var b := if op.key in s.buckets then s.buckets[op.key] else NewBucket(s.limits, op.at);
      TakeSpendsLevel(b, op.n, op.at);
      NewBucketIsFull(s.limits, op.at);
    } else if op.Cleanup? && key in s.buckets && Expired(s.buckets[key], s.limits, op.at) {
      ExpiredIsFull(s.buckets[key], s.limits, op.at);
    }
  }

  lemma NewBucketIsFull(limits: Limits, now: real)
    ensures LevelAt(NewBucket(limits, now), now) == limits.burst as real
  {
    assert Flow(limits.rate as real, 0.0) == 0.0;
  }

  lemma LevelIsNonNegative(s: Limiter, key: string, now: real)
    requires Good(s, now)
    ensures 0.0 <= KeyLevel(s, key, now) <= s.limits.burst as real
  {
    hide LevelAt, Flow;
    if key in s.buckets {
      LevelBounds(s.buckets[key], now);
    }
  }

  lemma {:induction false} GrantedBoundedByLevel(s: Limiter, ops: seq<Op>, key: string, from: real, until: real)
    requires Good(s, from) && s.limits.RefillsWithinTtl()
    requires Within(ops, from, until) && KeepsLimits(ops) && from <= until
    ensures Granted(s, ops, key) as real <= KeyLevel(s, key, from) + Flow(s.limits.rate as real, until - from)
    decreases ops
  {
    hide Flow;
    if ops == [] {
      FlowIsNonNegative(s.limits.rate as real, until - from);
      LevelIsNonNegative(s, key, from);
    } else {
      var op := ops[0];
      assert !op.SetLimits?;
      var s' := Step(s, op, true).1;
      GoodIsKept(s, op, from, true);
      LastIsNotBeforeFirst(ops, from);
      GrantedBoundedByLevel(s', ops[1..], key, op.at, until);
      StepSpendsLevel(s, op, key, from);
      LevelGrowth(s, key, from, op.at);
      FlowAddsUp(s.limits.rate as real, op.at - from, until - op.at);
      assert op.at - from + (until - op.at) == until - from;
    }
  }

  lemma {:induction false} LastIsNotBeforeFirst(ops: seq<Op>, from: real)
    requires ops != [] && Monotone(from, ops)
    ensures ops[0].at <= ops[|ops| - 1].at
    decreases ops
  {
    if |ops| > 1 {
      LastIsNotBeforeFirst(ops[1..], ops[0].at);
    }
  }

  lemma {:induction false} GoodAfterRun(s: Limiter, ops: seq<Op>, now: real, later: real)
    requires Good(s, now) && KeepsLimits(ops) && Within(ops, now, later) && now <= later
    ensures Good(Final(s, ops), later) && Final(s, ops).limits == s.limits
    decreases ops
  {
    if ops != [] {
      assert !ops[0].SetLimits?;
      GoodIsKept(s, ops[0], now, true);
      LastIsNotBeforeFirst(ops, now);
      GoodAfterRun(Step(s, ops[0], true).1, ops[1..], ops[0].at, later);
    }
  }

  /** Main result: whatever happened before (`past`), in every window [from, until] one key
      is granted at most Burst + Rate * (until - from) tokens. */
  lemma WindowBound(limits: Limits, past: seq<Op>, window: seq<Op>, key: string, start: real, from: real, until: real)
    requires limits.NonNegative() && limits.RefillsWithinTtl()
    requires KeepsLimits(past) && KeepsLimits(window)
    requires start <= from <= until && Within(past, start, from) && Within(window, from, until)
    ensures Granted(Final(NewLimiter(limits), past), window, key) as real
         <= limits.burst as real + Flow(limits.rate as real, until - from)
  {
    hide Flow;
    var s := Final(NewLimiter(limits), past);
    GoodAfterRun(NewLimiter(limits), past, start, from);
    GrantedBoundedByLevel(s, window, key, from, until);
    LevelIsNonNegative(s, key, from);
  }

  /** Without the TTL condition the bound fails: the forgetful run is granted two bursts. */
  lemma WindowBoundNeedsTtl(limits: Limits, key: string)
    requires limits.NonNegative() && !limits.RefillsWithinTtl()
    ensures var run := ForgetfulRun(key, limits);
            var until := TooEarly(limits);
            && Within(run, 0.0, until) && KeepsLimits(run)
            && Granted(NewLimiter(limits), run, key) as real
             > limits.burst as real + Flow(limits.rate as real, until - 0.0)
  {
    ForgetfulRunVerdicts(key, limits);
    var run := ForgetfulRun(key, limits);
    var s0 := NewLimiter(limits);
    var s1 := Step(s0, run[0], true).1;
    var s2 := Step(s1, run[1], true).1;
    assert s2.buckets == map[];
    assert run[1..][1..] == [run[2]] && [run[2]][1..] == [];
    assert Granted(s2, [run[2]], key) == limits.burst;
    assert Granted(s1, run[1..], key) == limits.burst;
  }

  // ---------------------------------------------------------------------------
  // Exactly when a request is granted
  // ---------------------------------------------------------------------------

  /** A request takes what it asks for if and only if its key holds that much. */
  lemma GrantedByLevel(s: Limiter, key: string, n: int, at: real)
    ensures AllowStep(s, key, n, at).0 <==> n as real <= KeyLevel(s, key, at)
  {
    hide Flow;
    NewBucketIsFull(s.limits, at);
  }

  /** Waiting lets the level grow by the flow, up to the burst. */
  lemma LevelAfterWait(s: Limiter, key: string, t: real, t': real)
    requires Good(s, t) && t <= t'
    ensures KeyLevel(s, key, t')
         == Lesser(KeyLevel(s, key, t) + Flow(s.limits.rate as real, t' - t), s.limits.burst as real)
  {
    hide Flow;
    var rate := s.limits.rate as real;
    FlowIsNonNegative(rate, t' - t);
    if key in s.buckets {
      FlowAddsUp(rate, t - s.buckets[key].lastRefill, t' - t);
      assert t - s.buckets[key].lastRefill + (t' - t) == t' - s.buckets[key].lastRefill;
    }
  }

  /** A step takes from the level of a key exactly what it grants to that key. */
  lemma StepTakesGranted(s: Limiter, op: Op, key: string, now: real)
    requires Good(s, now) && now <= op.at && !op.SetLimits?
    requires s.limits.RefillsWithinTtl()
    ensures var (out, s') := Step(s, op, true);
            KeyLevel(s', key, op.at) ==
            Lesser(KeyLevel(s, key, op.at) - Spent(op, out, key) as real, s.limits.burst as real)
  {
    assert Flow(s.limits.rate as real, 0.0) == 0.0;
    hide Flow;
    if op.Allow? && op.key == key {
      var b := if op.key in s.buckets then s.buckets[op.key] else NewBucket(s.limits, op.at);
      NewBucketIsFull(s.limits, op.at);
      assert op.at - Take(b, op.n, op.at).1.lastRefill == 0.0;
    } else if op.Cleanup? && key in s.buckets && Expired(s.buckets[key], s.limits, op.at) {
      ExpiredIsFull(s.buckets[key], s.limits, op.at);
    }
  }

  lemma {:induction false} RunThenStep(s: Limiter, ops: seq<Op>, op: Op, key: string)
    ensures var s' := Final(s, ops);
            && Final(s, ops + [op]) == Step(s', op, true).1
            && Granted(s, ops + [op], key) == Granted(s, ops, key) + Spent(op, Step(s', op, true).0, key)
    decreases ops
  {
    hide Step, Spent;
    if ops == [] {
      assert ops + [op] == [op] && [op][1..] == [];
      var s1 := Step(s, op, true).1;
      assert Final(s1, []) == s1 && Granted(s1, [], key) == 0;
    } else {
      assert (ops + [op])[1..] == ops[1..] + [op];
      RunThenStep(Step(s, ops[0], true).1, ops[1..], op, key);
    }
  }

  lemma {:induction false} RunsJoin(s: Limiter, ops: seq<Op>, more: seq<Op>)
    ensures Final(s, ops + more) == Final(Final(s, ops), more)
    decreases ops
  {
    hide Step;
    if ops == [] {
      assert ops + more == more;
    } else {
      assert (ops + more)[1..] == ops[1..] + more;
      RunsJoin(Step(s, ops[0], true).1, ops[1..], more);
    }
  }

  /** The tokens granted to `key` from operation `i` of a run on. */
  function GrantedFrom(limits: Limits, ops: seq<Op>, key: string, i: nat): int
    requires i <= |ops|
  {
    Granted(Final(NewLimiter(limits), ops[..i]), ops[i..], key)
  }

  lemma GrantedFromThenStep(limits: Limits, ops: seq<Op>, op: Op, key: string, i: nat)
    requires i <= |ops|
    ensures GrantedFrom(limits, ops + [op], key, i)
         == GrantedFrom(limits, ops, key, i) + Spent(op, Step(Final(NewLimiter(limits), ops), op, true).0, key)
  {
    hide Step, Spent, Granted, Final;
    var s := NewLimiter(limits);
    assert (ops + [op])[..i] == ops[..i] && (ops + [op])[i..] == ops[i..] + [op] && ops[..i] + ops[i..] == ops;
    RunsJoin(s, ops[..i], ops[i..]);
    RunThenStep(Final(s, ops[..i]), ops[i..], op, key);
  }

  lemma NothingGrantedYet(limits: Limits, ops: seq<Op>, key: string)
    ensures GrantedFrom(limits, ops, key, |ops|) == 0
  {}

  /** `x` more tokens fit into every window that starts with an operation of the run and ends at `at`. */
  ghost predicate Fits(limits: Limits, ops: seq<Op>, key: string, x: real, at: real) {
    && x <= limits.burst as real
    && forall i :: 0 <= i < |ops| ==>
         GrantedFrom(limits, ops, key, i) as real + x <= limits.burst as real + Flow(limits.rate as real, at - ops[i].at)
  }

  lemma FitsThenStep(limits: Limits, ops: seq<Op>, op: Op, key: string, x: real, at: real)
    ensures var spent := Spent(op, Step(Final(NewLimiter(limits), ops), op, true).0, key) as real;
            Fits(limits, ops + [op], key, x, at) <==>
            x <= limits.burst as real && Fits(limits, ops, key, x + spent - Flow(limits.rate as real, at - op.at), op.at)
  {
    hide Flow, Step, Spent, GrantedFrom;
    var all, rate, burst := ops + [op], limits.rate as real, limits.burst as real;
    var spent := Spent(op, Step(Final(NewLimiter(limits), ops), op, true).0, key);
    var y := x + spent as real - Flow(rate, at - op.at);
    assert all[|ops|] == op && forall i :: 0 <= i < |ops| ==> all[i] == ops[i];
    forall i | 0 <= i < |ops|
      ensures GrantedFrom(limits, all, key, i) as real + x <= burst + Flow(rate, at - all[i].at)
         <==> GrantedFrom(limits, ops, key, i) as real + y <= burst + Flow(rate, op.at - ops[i].at)
    {
      GrantedFromThenStep(limits, ops, op, key, i);
      FlowAddsUp(rate, op.at - ops[i].at, at - op.at);
      assert op.at - ops[i].at + (at - op.at) == at - ops[i].at;
    }
    GrantedFromThenStep(limits, ops, op, key, |ops|);
    NothingGrantedYet(limits, ops, key);
  }

  lemma {:induction false} SplitWithin(ops: seq<Op>, op: Op, from: real, until: real)
    requires Within(ops + [op], from, until)
    ensures Monotone(from, ops) && from <= op.at <= until && Within(ops, from, op.at)
    decreases ops
  {
    var all := ops + [op];
    if ops == [] {
      assert all == [op];
    } else {
      assert all[0] == ops[0] && all[1..] == ops[1..] + [op];
      SplitWithin(ops[1..], op, ops[0].at, until);
    }
  }

  /** After any run the level of a key reaches `x` exactly when `x` fits into every window. */
  lemma {:induction false} LevelReachesIff(limits: Limits, ops: seq<Op>, key: string, x: real, start: real, at: real)
    requires limits.NonNegative() && limits.RefillsWithinTtl() && KeepsLimits(ops)
    requires Within(ops, start, at) && start <= at
    ensures x <= KeyLevel(Final(NewLimiter(limits), ops), key, at) <==> Fits(limits, ops, key, x, at)
    decreases |ops|
  {
    hide Flow, GrantedFrom, Step, Spent, Within;
    if ops != [] {
      var init, op := ops[..|ops| - 1], ops[|ops| - 1];
      assert ops == init + [op] && !op.SetLimits?;
      SplitWithin(init, op, start, at);
      LevelReachesStep(limits, init, op, key, x, start, at);
      var spent := Spent(op, Step(Final(NewLimiter(limits), init), op, true).0, key) as real;
      LevelReachesIff(limits, init, key, x + spent - Flow(limits.rate as real, at - op.at), start, op.at);
      FitsThenStep(limits, init, op, key, x, at);
    }
  }

  lemma LevelReachesStep(limits: Limits, init: seq<Op>, op: Op, key: string, x: real, start: real, at: real)
    requires limits.NonNegative() && limits.RefillsWithinTtl() && KeepsLimits(init) && !op.SetLimits?
    requires Within(init, start, op.at) && start <= op.at <= at
    ensures var s := Final(NewLimiter(limits), init);
            var spent := Spent(op, Step(s, op, true).0, key) as real;
            x <= KeyLevel(Final(NewLimiter(limits), init + [op]), key, at) <==>
            && x <= limits.burst as real
            && x + spent - Flow(limits.rate as real, at - op.at) <= KeyLevel(s, key, op.at)
  {
    hide Flow, Step, Spent, KeyLevel, Within, Final;
    var s := Final(NewLimiter(limits), init);
    GoodAfterRun(NewLimiter(limits), init, start, op.at);
    RunThenStep(NewLimiter(limits), init, op, key);
    GoodIsKept(s, op, op.at, true);
    StepKeepsLimits(s, op);
    StepTakesGranted(s, op, key, op.at);
    LevelAfterWait(Step(s, op, true).1, key, op.at, at);
    FlowIsNonNegative(limits.rate as real, at - op.at);
  }

  lemma StepKeepsLimits(s: Limiter, op: Op)
    requires !op.SetLimits?
    ensures Step(s, op, true).1.limits == s.limits
  {}

  /** Main result, both directions of the window bound: a request for `n` is granted if and only
      if in every window that ends with it, from the request alone up to the whole run, the
      tokens granted and `n` together are at most Burst + Rate * length. */
  lemma GrantedIff(limits: Limits, past: seq<Op>, key: string, n: int, start: real, at: real)
    requires limits.NonNegative() && limits.RefillsWithinTtl() && KeepsLimits(past)
    requires Within(past, start, at) && start <= at
    ensures Step(Final(NewLimiter(limits), past), Allow(key, n, at), true).0 ==
            [ && n <= limits.burst
              && forall i :: 0 <= i < |past| ==>
                   GrantedFrom(limits, past, key, i) as real + n as real <=
                   limits.burst as real + Flow(limits.rate as real, at - past[i].at) ]
  {
    hide Flow, GrantedFrom, Within, KeyLevel, AllowStep;
    LevelReachesIff(limits, past, key, n as real, start, at);
    GrantedByLevel(Final(NewLimiter(limits), past), key, n, at);
  }

  /** Rate 1 and burst 10: ten requests in the first half second are all granted. */
  lemma BurstIsUsable(key: string, ttl: real)
    requires 10.0 <= ttl
    ensures Verdicts(NewLimiter(Limits(1, 10, ttl)), [Allow(key, 1, 0.0), Allow(key, 1, 0.5), Allow(key, 8, 0.5)], true)
         == [true, true, true]
  {
    var s0, run := NewLimiter(Limits(1, 10, ttl)), [Allow(key, 1, 0.0), Allow(key, 1, 0.5), Allow(key, 8, 0.5)];
    var s1 := Step(s0, run[0], true).1;
    var s2 := Step(s1, run[1], true).1;
    var s3 := Step(s2, run[2], true).1;
    assert run[1..] == [run[1], run[2]] && run[1..][1..] == [run[2]] && [run[2]][1..] == [];
    assert Step(s0, run[0], true).0 == [true] && Step(s1, run[1], true).0 == [true] && Step(s2, run[2], true).0 == [true];
    calc {
      Verdicts(s0, run, true);
      [true] + Verdicts(s1, run[1..], true);
      [true] + ([true] + Verdicts(s2, [run[2]], true));
      [true] + ([true] + ([true] + Verdicts(s3, [], true)));
      [true, true, true];
    }
  }
}
