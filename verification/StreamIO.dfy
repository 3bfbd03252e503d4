/** The world around a stream processor: a reader and a writer that may fail, and a clock. */
module StreamIO {
  import opened Bytes
  import opened Options
  import opened Flows
  import opened PacketFraming
  import Bucketing = StreamBucket

  /** An io.Reader over a Source; see PacketFraming.Read. */
  class ByteReader {
    var data: seq<byte>
    var script: seq<Delivery>

    function View(): Source
      reads this
    {
      Source(data, script)
    }

    /** Read into `buf[from..upto]`. */
    method ReadInto(buf: array<byte>, from: nat, upto: nat) returns (n: nat, fault: ReadFault)
      requires from <= upto <= buf.Length
      modifies this, buf
      ensures var r := Read(old(View()), upto - from);
              && View() == r.source && fault == r.fault && n == |r.bytes|
              && buf[from..from + n] == r.bytes
              && buf[..from] == old(buf[..from]) && buf[from + n..] == old(buf[from + n..])
    {
      ghost var before := View();
      n := Min(upto - from, |data|);
      if script == [] {
        fault := if data == [] then Eof else NoFault;
      } else {
        n := Min(script[0].n, n);
        fault := script[0].fault;
        script := script[1..];
      }
      var bytes := data[..n];
      data := data[n..];
      forall i | 0 <= i < n {
        buf[from + i] := bytes[i];
      }
      assert buf[from..from + n] == bytes;
      assert View() == Read(before, upto - from).source;
    }
  }

  /** What the writer does on one Write: take it all, or take some and fail. */
  datatype WriteOutcome = Accept | Fail(n: nat)

  /** An io.Writer: a short write always comes with an error. */
  class ByteWriter {
    var out: seq<byte>
    var outcomes: seq<WriteOutcome>

    /** No Write is going to fail. */
    predicate Reliable()
      reads this
    {
      forall i :: 0 <= i < |outcomes| ==> outcomes[i].Accept?
    }

    method Write(p: seq<byte>) returns (n: nat, ok: bool)
      modifies this
      ensures n <= |p| && out == old(out) + p[..n]
      ensures ok ==> n == |p|
      ensures old(Reliable()) ==> ok && Reliable()
    {
      n, ok := |p|, true;
      if outcomes != [] {
        if outcomes[0].Fail? {
          n, ok := Min(outcomes[0].n, |p|), false;
        }
        outcomes := outcomes[1..];
      }
      out := out + p[..n];
    }
  }

  /** Real time, and the instant at which the context is cancelled, if it is. */
  class Clock {
    var now: real
    const cancelledAt: Option<real>

    /** `time.Now()`: time has passed since the last reading. */
    method Now() returns (t: real)
      modifies this
      ensures t == now >= old(now)
    {
      var passed: real :| 0.0 <= passed;
      now := now + passed;
      return now;
    }

    /** Wait for a timer or for cancellation; the timer is never early. */
    method Sleep(d: real) returns (woken: bool)
      requires 0.0 <= d
      modifies this
      ensures now >= old(now) && (woken ==> now >= old(now) + d)
      ensures cancelledAt.None? ==> woken
    {
      var late: real :| 0.0 <= late;
      var wake := now + d + late;
      if cancelledAt.Some? && cancelledAt.value < wake {
        now := if now < cancelledAt.value then cancelledAt.value else now;
        return false;
      }
      now := wake;
      return true;
    }
  }

  /** The bucket of internal/stream/token_bucket.go with its fields updated in place. */
  class TokenBucket {
    var capacity: int
    var rate: int
    var tokens: int
    var lastRefill: real

    ghost const created: real
    ghost var granted: nat
    ghost var peak: int

    function View(): Bucketing.Bucket
      reads this
    {
      Bucketing.Bucket(capacity, rate, tokens, lastRefill)
    }

    /** What ThroughputBound says of every sequential run. */
    ghost predicate Valid()
      reads this
    {
      Bucketing.Sound(View(), created, granted, peak)
    }

    constructor (rate: int, now: real)
      requires 0 < rate
      ensures Valid() && View() == Bucketing.NewBucket(rate, now).value
      ensures created == now && granted == 0 && peak == rate
    {
      this.rate, capacity, tokens, lastRefill := rate, Bucketing.BurstSize(rate), 0, now;
      created, granted, peak := now, 0, rate;
      assert Flow(rate as real, 0.0) == 0.0;
    }

    /** Waits until `needed` tokens have flowed, or fails when the context is cancelled. */
    method WaitForTokens(needed: nat, clock: Clock) returns (ok: bool, ghost at: real, ghost late: real)
      requires Valid() && lastRefill <= clock.now
      modifies this, clock
      ensures Valid() && lastRefill <= clock.now && peak == old(peak)
      ensures old(clock.now) <= at <= clock.now && 0.0 <= late
      ensures Bucketing.Reply(ok, View(), clock.now) == Bucketing.WaitForTokens(old(View()), needed, at, late, !ok)
      ensures granted == old(granted) + if ok then needed else 0
      ensures clock.cancelledAt.None? ==> ok
    {
      ghost var before := View();
      var now := clock.Now();
      at := now;
      var elapsed := now - lastRefill;
      var tokensToAdd := Flow(rate as real, elapsed).Floor;
      tokens := tokens + tokensToAdd;
      if tokens > capacity {
        tokens := capacity;
      }
      assert tokens == Bucketing.Credited(before, now);
      if tokens < needed {
        var missing := needed - tokens;
        tokens := 0;
        var waitTime := missing as real / rate as real;
        assert waitTime == Bucketing.WaitTime(before, needed, now) >= 0.0;
        ok := clock.Sleep(waitTime);
        late := if ok then clock.now - (now + waitTime) else clock.now - now;
        if !ok {
          Bucketing.SoundIsKept(before, created, granted, peak, Bucketing.Wait(needed, at, late, true));
          return;
        }
      } else {
        tokens := tokens - needed;
        var later := clock.Now();
        ok, late := true, later - now;
      }
      lastRefill := clock.now;
      Bucketing.SoundIsKept(before, created, granted, peak, Bucketing.Wait(needed, at, late, false));
      granted := granted + needed;
    }

    method SetRate(newRate: int) returns (ok: bool)
      requires Valid()
      modifies this
      ensures Valid() && ok == (0 < newRate) && granted == old(granted) && lastRefill == old(lastRefill)
      ensures View() == Bucketing.ChangeRate(old(View()), newRate)
      ensures peak == if newRate > old(peak) then newRate else old(peak)
    {
      ghost var before := View();
      ghost var top := if newRate > peak then newRate else peak;
      FasterFlowsMore(peak as real, top as real, lastRefill - created);
      Bucketing.SoundIsKept(before, created, granted, top, Bucketing.SetRate(newRate, lastRefill));
      peak := top;
      if newRate <= 0 {
        return false;
      }
      rate := newRate;
      var burstSize := Bucketing.BurstSize(rate);
      capacity := burstSize;
      if tokens > burstSize {
        tokens := burstSize;
      }
      return true;
    }
  }

  const DEFAULT_CHUNK_SIZE := 1024

  /** A writer that pays for each chunk before it writes it. */
  class RateLimiterWriter {
    const writer: ByteWriter
    const tokenBucket: TokenBucket
    const clock: Clock
    var closed: bool

    constructor (writer: ByteWriter, tokenBucket: TokenBucket, clock: Clock)
      ensures this.writer == writer && this.tokenBucket == tokenBucket && this.clock == clock && !closed
    {
      this.writer, this.tokenBucket, this.clock, closed := writer, tokenBucket, clock, false;
    }

    /** Writes at most one chunk of `p`, and exactly as much as it has paid for when it succeeds. */
    method Write(p: seq<byte>) returns (n: nat, ok: bool)
      requires tokenBucket.Valid() && tokenBucket.lastRefill <= clock.now
      modifies writer, tokenBucket, clock
      ensures tokenBucket.Valid() && tokenBucket.lastRefill <= clock.now && clock.now >= old(clock.now)
      ensures tokenBucket.peak == old(tokenBucket.peak)
      ensures n <= |p| && writer.out == old(writer.out) + p[..n]
      ensures ok ==> n == Min(|p|, DEFAULT_CHUNK_SIZE) && tokenBucket.granted == old(tokenBucket.granted) + n
      ensures old(writer.Reliable()) ==> writer.Reliable()
      ensures old(writer.Reliable()) && clock.cancelledAt.None? && !closed ==> ok
    {
      if closed {
        return 0, false;
      }
      var chunkSize := Min(|p|, DEFAULT_CHUNK_SIZE);
      ghost var at, late;
      ok, at, late := tokenBucket.WaitForTokens(chunkSize, clock);
      if !ok {
        return 0, false;
      }
      n, ok := writer.Write(p[..chunkSize]);
      assert p[..chunkSize][..n] == p[..n];
    }

    method Close()
      modifies this
      ensures closed
    {
      closed := true;
    }
  }
}
