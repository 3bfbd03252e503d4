/** The limiter as the source writes it: bucket objects whose fields are updated in place,
    held in a map that `allow` inserts into and `cleanup` deletes from. Every method is
    proved to do what its counterpart in KeyedLimiter does. */
module RateLimiting {
  import opened Flows
  import opened KeyedLimiter

  class TokenBucket {
    var tokens: real
    const capacity: real
    const rate: real
    var lastRefill: real

    function View(): Bucket
      reads this
    {
      Bucket(tokens, capacity, rate, lastRefill)
    }

    constructor (rate: int, capacity: int, now: real)
      ensures View() == Bucket(capacity as real, capacity as real, rate as real, now)
    {
      this.tokens, this.capacity := capacity as real, capacity as real;
      this.rate, this.lastRefill := rate as real, now;
    }

    method RefillBucket(now: real)
      modifies this
      ensures View() == Refill(old(View()), now)
    {
      var elapsed := now - lastRefill;
      var tokensToAdd := Flow(rate, elapsed);
      tokens := Lesser(tokens + tokensToAdd, capacity);
      lastRefill := now;
    }

    method TakeTokens(n: int, now: real) returns (granted: bool)
      modifies this
      ensures (granted, View()) == Take(old(View()), n, now)
    {
      RefillBucket(now);
      if tokens >= n as real {
        tokens := tokens - n as real;
        return true;
      }
      return false;
    }
  }

  class RateLimiter {
    var limits: Limits
    var buckets: map<string, TokenBucket>

    /** No two keys share a bucket. */
    ghost predicate Valid()
      reads this
    {
      forall j, k :: j in buckets && k in buckets && buckets[j] == buckets[k] ==> j == k
    }

    ghost function View(): Limiter
      reads this, buckets.Values
    {
      Limiter(limits, map key | key in buckets :: buckets[key].View())
    }

    constructor (limits: Limits)
      ensures Valid() && View() == NewLimiter(limits)
    {
      this.limits := limits;
      buckets := map[];
    }

    /** `allow`: the verdict and the new state are those of AllowStep. */
    method AllowKey(key: string, n: int, now: real) returns (granted: bool)
      requires Valid()
      modifies this, buckets.Values
      ensures Valid() && fresh(buckets.Values - old(buckets.Values))
      ensures (granted, View()) == AllowStep(old(View()), key, n, now)
    {
      if key !in buckets {
        var created := new TokenBucket(limits.rate, limits.burst, now);
        buckets := buckets[key := created];
      }
      granted := buckets[key].TakeTokens(n, now);
      assert View().buckets == AllowStep(old(View()), key, n, now).1.buckets;
    }

    /** `cleanup`: visits every bucket once and deletes the idle ones. */
    method Cleanup(now: real)
      requires Valid()
      modifies this
      ensures Valid() && buckets.Values <= old(buckets.Values)
      ensures View() == CleanupStep(old(View()), now)
    {
      var pending := buckets.Keys;
      ghost var before := buckets;
      while pending != {}
        invariant pending <= buckets.Keys <= before.Keys
        invariant forall key :: key in buckets ==> buckets[key] == before[key]
        invariant forall key :: key in before && key !in pending ==>
                                  (key in buckets <==> !Expired(before[key].View(), limits, now))
        invariant limits == old(limits)
        decreases |pending|
      {
        var key :| key in pending;
        if now - buckets[key].lastRefill > limits.ttl {
          buckets := buckets - {key};
        }
        pending := pending - {key};
      }
    }

    method SetRateLimit(rate: int, burst: int)
      modifies this
      ensures Valid() && View() == SetLimitsStep(old(View()), rate, burst)
    {
      limits := limits.(rate := rate, burst := burst);
      buckets := map[];
    }
  }
}
