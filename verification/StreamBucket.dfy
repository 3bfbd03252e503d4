/** The blocking bucket of internal/stream/token_bucket.go: integer tokens, a floor on refill
    and a wait that is as long as the missing tokens take to flow. */
module StreamBucket {
  import opened Options
  import opened Flows

  const DEFAULT_BURST_RATIO := 2
  const MIN_BURST_SIZE := 1024

  datatype Bucket = Bucket(capacity: int, rate: int, tokens: int, lastRefill: real)

  /** The burst is half the rate, at least MIN_BURST_SIZE where the rate allows it, and never
      more than the rate. */
  function BurstSize(rate: int): (burst: int)
    requires 0 < rate
    ensures 0 <= burst <= rate
    ensures rate >= MIN_BURST_SIZE ==> burst >= MIN_BURST_SIZE
    ensures rate >= 2 * MIN_BURST_SIZE ==> 2 * burst <= rate < 2 * burst + 2
  {
    var burst := rate / DEFAULT_BURST_RATIO;
    var burst' := if burst < MIN_BURST_SIZE && rate >= MIN_BURST_SIZE then MIN_BURST_SIZE else burst;
    if burst' > rate then rate else burst'
  }

  /** The burst in literal terms. */
  lemma BurstIs(rate: int)
    requires 0 < rate
    ensures BurstSize(rate) == if 1024 <= rate < 2048 then 1024 else rate / 2
  {}

  /** A bucket starts empty; a rate that is not positive is an error. */
  function NewBucket(rate: int, now: real): Option<Bucket> {
    if rate <= 0 then None else Some(Bucket(BurstSize(rate), rate, 0, now))
  }

  /** The tokens held once the time since the last refill has been credited. */
  function Credited(b: Bucket, now: real): int {
    var tokens := b.tokens + Flow(b.rate as real, now - b.lastRefill).Floor;
    if tokens > b.capacity then b.capacity else tokens
  }

  function WaitTime(b: Bucket, needed: nat, now: real): real
    requires 0 < b.rate
  {
    (needed - Credited(b, now)) as real / b.rate as real
  }

  /** One call: take tokens at `now`, or change the rate. A call that has to wait returns
      `late` seconds after its timer was due, or is cancelled while it waits. */
  datatype Call =
    | Wait(needed: nat, now: real, late: real, cancelled: bool)
    | SetRate(rate: int, now: real)

  /** Whether the tokens were granted, the bucket afterwards, and the clock on return. */
  datatype Reply = Reply(granted: bool, bucket: Bucket, clock: real)

  function WaitForTokens(b: Bucket, needed: nat, now: real, late: real, cancelled: bool): Reply
    requires 0 < b.rate
  {
    if Credited(b, now) < needed then
      if cancelled then Reply(false, b.(tokens := 0), now + late)
      else
        var woken := now + WaitTime(b, needed, now) + late;
        Reply(true, b.(tokens := 0, lastRefill := woken), woken)
    else
      Reply(true, b.(tokens := Credited(b, now) - needed, lastRefill := now + late), now + late)
  }

  function ChangeRate(b: Bucket, rate: int): Bucket {
    if rate <= 0 then b
    else Bucket(BurstSize(rate), rate, if b.tokens > BurstSize(rate) then BurstSize(rate) else b.tokens, b.lastRefill)
  }

  function Perform(b: Bucket, c: Call): Reply
    requires 0 < b.rate
  {
    match c
    case Wait(needed, now, late, cancelled) => WaitForTokens(b, needed, now, late, cancelled)
    case SetRate(rate, now) => Reply(false, ChangeRate(b, rate), now)
  }

  /** What holds of a bucket created at `created` that has granted `granted` tokens while its
      rate never exceeded `peak`. */
  ghost predicate Sound(b: Bucket, created: real, granted: nat, peak: int) {
    && 0 <= b.tokens <= b.capacity <= b.rate
    && 0 < b.rate <= peak
    && created <= b.lastRefill
    && (granted + b.tokens) as real <= Flow(peak as real, b.lastRefill - created)
  }

  predicate InOrder(clock: real, c: Call) {
    clock <= c.now && (c.Wait? ==> 0.0 <= c.late)
  }

  lemma CreditIsEarned(b: Bucket, created: real, granted: nat, peak: int, now: real)
    requires Sound(b, created, granted, peak) && b.lastRefill <= now
    ensures 0 <= Credited(b, now) <= b.capacity
    ensures (granted + Credited(b, now)) as real <= Flow(peak as real, now - created)
  {
    var dt := now - b.lastRefill;
    FlowIsNonNegative(b.rate as real, dt);
    FasterFlowsMore(b.rate as real, peak as real, dt);
    FlowAddsUp(peak as real, b.lastRefill - created, dt);
    assert b.lastRefill - created + dt == now - created;
    hide Flow;
  }

  lemma SoundIsKept(b: Bucket, created: real, granted: nat, peak: int, c: Call)
    requires Sound(b, created, granted, peak) && InOrder(b.lastRefill, c)
    requires c.SetRate? ==> c.rate <= peak
    ensures var r := Perform(b, c);
            && Sound(r.bucket, created, granted + if r.granted then c.needed else 0, peak)
            && r.bucket.lastRefill <= r.clock && c.now <= r.clock
  {
    if c.Wait? {
      var held := Credited(b, c.now);
      CreditIsEarned(b, created, granted, peak, c.now);
      if held < c.needed {
        var wait := WaitTime(b, c.needed, c.now);
        TimeToFlow(b.rate as real, (c.needed - held) as real);
        FasterFlowsMore(b.rate as real, peak as real, wait);
        FlowAddsUp(peak as real, c.now - created, wait);
        LongerFlowsMore(peak as real, c.now - created + wait, c.now + wait + c.late - created);
        if c.cancelled {
          FlowIsNonNegative(peak as real, b.lastRefill - created);
        }
        hide Flow, Credited;
      } else {
        LongerFlowsMore(peak as real, c.now - created, c.now + c.late - created);
        hide Flow, Credited;
      }
    }
  }

  /** The calls of a sequential user: the next one starts after the previous one returned. */
  predicate Sequential(b: Bucket, clock: real, calls: seq<Call>)
    requires 0 < b.rate
    decreases calls
  {
    calls == [] ||
    (var r := Perform(b, calls[0]);
     InOrder(clock, calls[0]) && Sequential(r.bucket, r.clock, calls[1..]))
  }

  function Finally(b: Bucket, calls: seq<Call>): Bucket
    requires 0 < b.rate
    ensures 0 < Finally(b, calls).rate
    decreases calls
  {
    if calls == [] then b else Finally(Perform(b, calls[0]).bucket, calls[1..])
  }

  function GrantedBy(b: Bucket, calls: seq<Call>): nat
    requires 0 < b.rate
    decreases calls
  {
    if calls == [] then 0
    else
      var r := Perform(b, calls[0]);
      (if r.granted then calls[0].needed else 0) + GrantedBy(r.bucket, calls[1..])
  }

  predicate RatesWithin(calls: seq<Call>, peak: int) {
    forall i :: 0 <= i < |calls| && calls[i].SetRate? ==> calls[i].rate <= peak
  }

  lemma {:induction false} SoundAfterCalls(b: Bucket, created: real, clock: real, granted: nat, peak: int, calls: seq<Call>)
    requires Sound(b, created, granted, peak) && b.lastRefill <= clock
    requires Sequential(b, clock, calls) && RatesWithin(calls, peak)
    ensures Sound(Finally(b, calls), created, granted + GrantedBy(b, calls), peak)
    decreases calls
  {
    if calls != [] {
      hide Flow, WaitForTokens;
      SoundIsKept(b, created, granted, peak, calls[0]);
      var r := Perform(b, calls[0]);
      var granted' := granted + if r.granted then calls[0].needed else 0;
      SoundAfterCalls(r.bucket, created, r.clock, granted', peak, calls[1..]);
    }
  }

  /** Main result: whatever a sequential user does, the tokens granted plus the tokens held
      never exceed the highest rate times the time since creation, and the tokens held stay
      between zero and the burst, which never exceeds the rate. */
  lemma ThroughputBound(rate: int, created: real, calls: seq<Call>, peak: int)
    requires 0 < rate <= peak && RatesWithin(calls, peak)
    requires Sequential(NewBucket(rate, created).value, created, calls)
    ensures var b0 := NewBucket(rate, created).value;
            var b := Finally(b0, calls);
            && 0 <= b.tokens <= b.capacity <= b.rate
            && created <= b.lastRefill
            && (GrantedBy(b0, calls) + b.tokens) as real <= Flow(peak as real, b.lastRefill - created)
  {
    var b0 := NewBucket(rate, created).value;
    SoundAfterCalls(b0, created, created, 0, peak, calls);
  }

  // ---------------------------------------------------------------------------
  // Nothing is held back
  // ---------------------------------------------------------------------------

  /** Credit is given: less than one token of what has flowed is left out, up to the burst. */
  lemma CreditIsGiven(b: Bucket, now: real)
    ensures var flowed := b.tokens as real + Flow(b.rate as real, now - b.lastRefill);
            && Credited(b, now) as real <= flowed
            && (Credited(b, now) == b.capacity || flowed < Credited(b, now) as real + 1.0)
    ensures Credited(b, now) <= b.capacity
  {
    hide Flow;
  }

  /** A wait that is not cancelled is granted: at once if and only if the tokens are there, and
      otherwise after exactly the time in which the missing ones flow. */
  lemma WaitIsAsLongAsNeeded(b: Bucket, needed: nat, now: real, late: real)
    requires 0 < b.rate
    ensures var r := WaitForTokens(b, needed, now, late, false);
            && r.granted && r.bucket.lastRefill == r.clock
            && r.bucket.capacity == b.capacity && r.bucket.rate == b.rate
            && (if needed <= Credited(b, now) then
                  r.clock == now + late && r.bucket.tokens == Credited(b, now) - needed
                else
                  && Flow(b.rate as real, r.clock - late - now) == (needed - Credited(b, now)) as real
                  && r.bucket.tokens == 0)
  {
    TimeToFlow(b.rate as real, (needed - Credited(b, now)) as real);
    var wait := WaitTime(b, needed, now);
    assert now + wait + late - late - now == wait;
    hide Flow, Credited;
  }

  /** A cancelled wait grants nothing and gives up the tokens held, but a call whose tokens are
      there is granted even if it is cancelled. A rate change keeps what fits into the new burst. */
  lemma CancelledAndChanged(b: Bucket, needed: nat, now: real, late: real, rate: int)
    requires 0 < b.rate
    ensures var r := WaitForTokens(b, needed, now, late, true);
            && (r.granted <==> needed <= Credited(b, now))
            && (r.granted ==> r == WaitForTokens(b, needed, now, late, false))
            && (!r.granted ==> r.bucket == b.(tokens := 0) && r.clock == now + late)
    ensures rate <= 0 ==> ChangeRate(b, rate) == b
    ensures rate > 0 ==>
              var b' := ChangeRate(b, rate);
              && b'.rate == rate && b'.capacity == BurstSize(rate) && b'.lastRefill == b.lastRefill
              && b'.tokens <= b.tokens && b'.tokens <= b'.capacity
              && (b'.tokens == b.tokens || b'.tokens == b'.capacity)
  {
    hide Credited, WaitTime;
  }

  /** The calls of a user who asks for `sizes` without a pause and is served without delay. */
  function Busy(b: Bucket, clock: real, sizes: seq<nat>): seq<Call>
    requires 0 < b.rate
    decreases sizes
  {
    if sizes == [] then []
    else
      var c := Wait(sizes[0], clock, 0.0, false);
      var r := Perform(b, c);
      [c] + Busy(r.bucket, r.clock, sizes[1..])
  }

  function Total(sizes: seq<nat>): nat {
    if sizes == [] then 0 else sizes[0] + Total(sizes[1..])
  }

  lemma BusyStep(b: Bucket, created: real, granted: nat, size: nat)
    requires 0 < b.rate && 0 <= b.tokens <= b.capacity
    requires (granted + b.tokens) as real == Flow(b.rate as real, b.lastRefill - created)
    ensures var r := Perform(b, Wait(size, b.lastRefill, 0.0, false));
            && r.granted && r.clock == r.bucket.lastRefill && r.bucket.rate == b.rate
            && 0 <= r.bucket.tokens <= r.bucket.capacity
            && (granted + size + r.bucket.tokens) as real == Flow(b.rate as real, r.bucket.lastRefill - created)
  {
    var now, rate := b.lastRefill, b.rate as real;
    assert Flow(rate, 0.0) == 0.0;
    assert now - b.lastRefill == 0.0;
    assert Credited(b, now) == b.tokens;
    WaitIsAsLongAsNeeded(b, size, now, 0.0);
    var r := WaitForTokens(b, size, now, 0.0, false);
    FlowAddsUp(rate, now - created, r.clock - now);
    assert now - created + (r.clock - now) == r.clock - created;
    hide Flow, Credited;
  }

  lemma {:induction false} BusyRun(b: Bucket, created: real, granted: nat, sizes: seq<nat>)
    requires 0 < b.rate && 0 <= b.tokens <= b.capacity
    requires (granted + b.tokens) as real == Flow(b.rate as real, b.lastRefill - created)
    ensures var calls := Busy(b, b.lastRefill, sizes);
            var b' := Finally(b, calls);
            && Sequential(b, b.lastRefill, calls) && GrantedBy(b, calls) == Total(sizes)
            && (granted + Total(sizes) + b'.tokens) as real == Flow(b.rate as real, b'.lastRefill - created)
    decreases sizes
  {
    hide Flow, Perform;
    if sizes != [] {
      BusyStep(b, created, granted, sizes[0]);
      var c := Wait(sizes[0], b.lastRefill, 0.0, false);
      var r := Perform(b, c);
      BusyRun(r.bucket, created, granted + sizes[0], sizes[1..]);
      var rest := Busy(r.bucket, r.clock, sizes[1..]);
      assert Busy(b, b.lastRefill, sizes) == [c] + rest && ([c] + rest)[1..] == rest;
    }
  }

  /** Main result, the other half of the throughput bound: a user who never pauses is granted
      everything, and gets the full rate: the tokens granted plus the tokens held are exactly the
      rate times the time since creation. */
  lemma BusyUserGetsTheRate(rate: int, created: real, sizes: seq<nat>)
    requires 0 < rate
    ensures var b0 := NewBucket(rate, created).value;
            var calls := Busy(b0, created, sizes);
            var b := Finally(b0, calls);
            && Sequential(b0, created, calls) && GrantedBy(b0, calls) == Total(sizes)
            && (Total(sizes) + b.tokens) as real == Flow(rate as real, b.lastRefill - created)
  {
    assert Flow(rate as real, 0.0) == 0.0 && created - created == 0.0;
    BusyRun(NewBucket(rate, created).value, created, 0, sizes);
  }
}
