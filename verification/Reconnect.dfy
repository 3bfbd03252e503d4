/** The reconnect loop and its circuit breaker, internal/client/reconnect.go. Durations are
    seconds as reals; what the world does during one turn of the loop is a Turn. */
module Reconnect {
  import opened Flows
  import opened Options

  datatype BreakerState = Closed | Open | HalfOpen

  datatype Breaker = Breaker(failureCount: nat, lastFailure: real, state: BreakerState, threshold: int, timeout: real)

  datatype Config = Config(enabled: bool, initialDelay: real, maxDelay: real, maxAttempts: int, backoff: real,
                           jitterFactor: real, breakerEnabled: bool, threshold: int, timeout: real)

  /** One turn: whether a reconnect is still wanted when the turn begins and after the wait,
      whether the context ends the wait, the random number, how late the turn begins and the
      timer fires, how long Connect takes and whether it succeeds. */
  datatype Turn = Turn(wanted: bool, cancelled: bool, stillWanted: bool, random: real, pause: real, late: real,
                       took: real, connects: bool)

  datatype Status = Running | Stopped | Connected

  /** The variables of the loop, the clock, and when each attempt started. */
  datatype Loop = Loop(status: Status, breaker: Option<Breaker>, delay: real, attempts: nat, clock: real, starts: seq<real>)

  // ---------------------------------------------------------------------------
  // The breaker
  // ---------------------------------------------------------------------------

  function NewBreaker(threshold: int, timeout: real): Breaker {
    Breaker(0, 0.0, Closed, threshold, timeout)
  }

  function Succeed(b: Breaker): Breaker {
    b.(failureCount := 0, state := Closed)
  }

  function Fail(b: Breaker, now: real): Breaker {
    var count := b.failureCount + 1;
    b.(failureCount := count, lastFailure := now, state := if count >= b.threshold then Open else b.state)
  }

  /** `AllowRequest`: the verdict and the breaker after it. */
  function Allow(b: Breaker, now: real): (bool, Breaker) {
    if b.state == Open then
      if now - b.lastFailure > b.timeout then (true, b.(state := HalfOpen)) else (false, b)
    else (true, b)
  }

  function AtLeastOne(threshold: int): nat {
    if threshold < 1 then 1 else threshold
  }

  /** Closed exactly below the threshold. */
  predicate Consistent(b: Breaker) {
    b.state == Closed <==> b.failureCount < AtLeastOne(b.threshold)
  }

  lemma BreakerStaysConsistent(b: Breaker, now: real)
    ensures Consistent(NewBreaker(b.threshold, b.timeout))
    ensures Consistent(b) ==> Consistent(Succeed(b)) && Consistent(Fail(b, now)) && Consistent(Allow(b, now).1)
  {}

  // ---------------------------------------------------------------------------
  // The loop
  // ---------------------------------------------------------------------------

  function NonNegative(x: real): real {
    if x < 0.0 then 0.0 else x
  }

  function AddJitter(delay: real, factor: real, random: real): real {
    if factor <= 0.0 then delay else delay + delay * factor * (2.0 * random - 1.0)
  }

  function Backoff(config: Config, delay: real): real {
    if delay * config.backoff > config.maxDelay then config.maxDelay else delay * config.backoff
  }

  function Begin(config: Config): Loop {
    Loop(if config.enabled then Running else Stopped,
         if config.breakerEnabled then Some(NewBreaker(config.threshold, config.timeout)) else None,
         config.initialDelay, 0, 0.0, [])
  }

  predicate Blocked(s: Loop, now: real) {
    s.breaker.Some? && !Allow(s.breaker.value, now).0
  }

  /** The attempt itself, at the clock of `s`. */
  function Attempt(config: Config, s: Loop, turn: Turn): Loop {
    var now := s.clock + turn.took;
    var s' := s.(clock := now, starts := s.starts + [s.clock]);
    if turn.connects then
      s'.(status := Connected, breaker := if s.breaker.Some? then Some(Succeed(s.breaker.value)) else None)
    else
      s'.(breaker := if s.breaker.Some? then Some(Fail(s.breaker.value, now)) else None,
          delay := Backoff(config, s.delay), attempts := s.attempts + 1)
  }

  function Admit(s: Loop): Loop {
    s.(breaker := if s.breaker.Some? then Some(Allow(s.breaker.value, s.clock).1) else None)
  }

  /** One turn of the loop. */
  function Step(config: Config, s0: Loop, turn: Turn): Loop {
    if s0.status != Running then s0
    else
      var s := s0.(clock := s0.clock + turn.pause);
      if !turn.wanted || (config.maxAttempts > 0 && s.attempts >= config.maxAttempts) then s.(status := Stopped)
      else if Blocked(s, s.clock) then
        if turn.cancelled then s.(status := Stopped)
        else s.(clock := s.clock + NonNegative(config.timeout) + turn.late)
      else
        var s1 := Admit(s);
        if turn.cancelled then s1.(status := Stopped)
        else
          var wait := NonNegative(AddJitter(s1.delay, config.jitterFactor, turn.random));
          var s2 := s1.(clock := s1.clock + wait + turn.late);
          if !turn.stillWanted then s2.(status := Stopped) else Attempt(config, s2, turn)
  }

  function Run(config: Config, turns: seq<Turn>): Loop {
    if |turns| == 0 then Begin(config)
    else Step(config, Run(config, turns[..|turns| - 1]), turns[|turns| - 1])
  }

  /** Time does not go back. */
  predicate Forward(turn: Turn) {
    turn.pause >= 0.0 && turn.late >= 0.0 && turn.took >= 0.0
  }

  predicate AllForward(turns: seq<Turn>) {
    forall i :: 0 <= i < |turns| ==> Forward(turns[i])
  }

  // ---------------------------------------------------------------------------
  // How many attempts a run can start
  // ---------------------------------------------------------------------------

  function Product(x: real, y: real): real {
    x * y
  }

  lemma OneMore(n: nat, timeout: real)
    ensures Product(0.0, timeout) == 0.0
    ensures Product((n + 1) as real, timeout) == Product(n as real, timeout) + timeout
  {}

  /** The attempts start one after the other, and each one past the `m` free ones more than a
      timeout after the one before it. */
  predicate Spaced(starts: seq<real>, m: nat, timeout: real) {
    && (|starts| > 0 ==> starts[0] >= 0.0)
    && (forall k :: 0 < k < |starts| ==> starts[k] >= starts[k - 1])
    && (forall k :: 0 < k < |starts| && m <= k ==> starts[k] > starts[k - 1] + timeout)
  }

  /** What a turn keeps while the loop runs with a breaker. */
  predicate Paced(config: Config, s: Loop) {
    var m := AtLeastOne(config.threshold);
    && Spaced(s.starts, m, config.timeout)
    && s.clock >= 0.0 && (|s.starts| > 0 ==> s.clock >= s.starts[|s.starts| - 1])
    && s.breaker.Some?
    && (s.status == Running ==>
          var b := s.breaker.value;
          && Consistent(b) && b.threshold == config.threshold && b.timeout == config.timeout
          && b.failureCount == s.attempts == |s.starts|
          && b.lastFailure <= s.clock
          && (|s.starts| > 0 ==> b.lastFailure >= s.starts[|s.starts| - 1])
          && (b.state == HalfOpen ==> s.clock > b.lastFailure + config.timeout))
  }

  lemma BegunPaced(config: Config)
    requires config.breakerEnabled
    ensures Paced(config, Begin(config))
  {}

  /** A later clock keeps the pace. */
  lemma WaitKeepsPace(config: Config, s: Loop, clock: real)
    requires Paced(config, s) && clock >= s.clock
    ensures Paced(config, s.(clock := clock)) && Paced(config, s.(clock := clock, status := Stopped))
  {
    hide Spaced, Consistent;
  }

  lemma AdmissionKeepsPace(config: Config, s: Loop)
    requires Paced(config, s) && s.status == Running && !Blocked(s, s.clock)
    ensures Paced(config, Admit(s)) && Admit(s).breaker.value.state != Open
  {
    hide Spaced;
  }

  /** An attempt past the free ones starts more than a timeout after the last failure. */
  lemma NextIsSpaced(config: Config, s: Loop)
    requires Paced(config, s) && s.status == Running && s.breaker.value.state != Open
    ensures Spaced(s.starts + [s.clock], AtLeastOne(config.threshold), config.timeout)
    ensures AtLeastOne(config.threshold) <= |s.starts| ==> s.clock > s.breaker.value.lastFailure + config.timeout
  {
    var starts := s.starts + [s.clock];
    assert forall k :: 0 <= k < |s.starts| ==> starts[k] == s.starts[k];
  }

  lemma AttemptKeepsPace(config: Config, s: Loop, turn: Turn)
    requires Paced(config, s) && s.status == Running && s.breaker.value.state != Open && Forward(turn)
    ensures Paced(config, Attempt(config, s, turn))
  {
    hide Spaced, Backoff;
    NextIsSpaced(config, s);
  }

  lemma StepKeepsPace(config: Config, s: Loop, turn: Turn)
    requires Paced(config, s) && Forward(turn)
    ensures Paced(config, Step(config, s, turn))
  {
    hide Paced, Admit, Attempt, Blocked, AddJitter;
    if s.status == Running {
      var s0 := s.(clock := s.clock + turn.pause);
      WaitKeepsPace(config, s, s0.clock);
      if Blocked(s0, s0.clock) {
        WaitKeepsPace(config, s0, s0.clock + NonNegative(config.timeout) + turn.late);
      } else {
        AdmissionKeepsPace(config, s0);
        AdmissionKeepsStatus(s0);
        var s1 := Admit(s0);
        var s2 := s1.(clock := s1.clock + NonNegative(AddJitter(s1.delay, config.jitterFactor, turn.random)) + turn.late);
        WaitKeepsPace(config, s1, s1.clock);
        WaitKeepsPace(config, s1, s2.clock);
        AttemptKeepsPace(config, s2, turn);
      }
    }
  }

  lemma AdmissionKeepsStatus(s: Loop)
    ensures Admit(s) == s.(breaker := Admit(s).breaker)
    ensures s.breaker.Some? ==> Admit(s).breaker.Some?
  {}

  lemma PacedIsSpaced(config: Config, s: Loop)
    requires Paced(config, s)
    ensures Spaced(s.starts, AtLeastOne(config.threshold), config.timeout)
  {}

  /** In every run the attempts past the free ones start more than a timeout apart, and the
      failure that the breaker remembers lies between them. */
  lemma {:induction false} RunIsPaced(config: Config, turns: seq<Turn>)
    requires config.breakerEnabled && AllForward(turns)
    ensures Paced(config, Run(config, turns))
    ensures Spaced(Run(config, turns).starts, AtLeastOne(config.threshold), config.timeout)
    decreases |turns|
  {
    hide Paced, Step, Run, Spaced;
    if |turns| == 0 {
      RunBegins(config, turns);
      BegunPaced(config);
    } else {
      RunIsPaced(config, turns[..|turns| - 1]);
      StepKeepsPace(config, Run(config, turns[..|turns| - 1]), turns[|turns| - 1]);
      RunStep(config, turns, |turns| - 1);
      assert turns[..|turns|] == turns;
    }
    PacedIsSpaced(config, Run(config, turns));
  }

  /** How many attempts started in the window from `from` to `until`. */
  function StartedIn(starts: seq<real>, from: real, until: real): nat {
    if |starts| == 0 then 0
    else
      var last := starts[|starts| - 1];
      StartedIn(starts[..|starts| - 1], from, until) + if from <= last <= until then 1 else 0
  }

  lemma LastCounts(starts: seq<real>, from: real, until: real)
    requires |starts| > 0
    ensures var last := starts[|starts| - 1];
            StartedIn(starts, from, until) ==
            StartedIn(starts[..|starts| - 1], from, until) + if from <= last <= until then 1 else 0
  {}

  lemma {:induction false} CountIsSpaced(starts: seq<real>, m: nat, timeout: real, from: real, until: real)
    requires Spaced(starts, m, timeout) && m > 0 && timeout >= 0.0
    ensures var n := StartedIn(starts, from, until);
            && n <= |starts|
            && (n > 0 ==> from <= starts[|starts| - 1])
            && (n > m ==> Product((n - m) as real, timeout) <= Lesser(starts[|starts| - 1], until) - from)
    decreases |starts|
  {
    hide StartedIn, Product;
    if |starts| == 0 {
      NoStarts(from, until);
    } else {
      var init, last := starts[..|starts| - 1], starts[|starts| - 1];
      SpacedFront(starts, m, timeout);
      CountIsSpaced(init, m, timeout, from, until);
      LastCounts(starts, from, until);
      var n := StartedIn(init, from, until);
      OneMore(0, timeout);
      if n >= m {
        OneMore(n - m, timeout);
      }
      if |init| > 0 {
        assert starts[|init| - 1] == init[|init| - 1];
      }
    }
  }

  lemma NoStarts(from: real, until: real)
    ensures StartedIn([], from, until) == 0
  {}

  lemma SpacedFront(starts: seq<real>, m: nat, timeout: real)
    requires Spaced(starts, m, timeout) && |starts| > 0
    ensures Spaced(starts[..|starts| - 1], m, timeout)
    ensures var k := |starts| - 1;
            k > 0 ==> starts[k] >= starts[k - 1] && (m <= k ==> starts[k] > starts[k - 1] + timeout)
  {}

  /** Main result: whatever happens, at most max(1, threshold) attempts, and one more for each
      whole timeout in it, start in any window of a run. */
  lemma AttemptBound(config: Config, turns: seq<Turn>, from: real, until: real)
    requires config.breakerEnabled && AllForward(turns) && from <= until && config.timeout > 0.0
    ensures StartedIn(Run(config, turns).starts, from, until) as real
         <= AtLeastOne(config.threshold) as real + (until - from) / config.timeout
  {
    hide Run, Paced, StartedIn, Spaced;
    RunIsPaced(config, turns);
    var starts, m := Run(config, turns).starts, AtLeastOne(config.threshold);
    CountIsSpaced(starts, m, config.timeout, from, until);
    var n := StartedIn(starts, from, until);
    if n > m {
      Quotient((n - m) as real, until - from, config.timeout);
    } else {
      Quotient(0.0, until - from, config.timeout);
    }
  }

  lemma Quotient(x: real, t: real, timeout: real)
    requires timeout > 0.0 && Product(x, timeout) <= t
    ensures x <= t / timeout
  {
    var q := t / timeout;
    assert q * timeout == t;
    if x > q {
      assert (x - q) * timeout > 0.0;
    }
  }

  const UNBROKEN := Config(true, 0.0, 60.0, 0, 2.0, 0.0, false, 10, 300.0)

  const FAIL_AT_ONCE := Turn(true, false, true, 0.5, 0.0, 0.0, 0.0, false)

  /** `n` turns that fail at once. */
  function Failures(n: nat): seq<Turn> {
    if n == 0 then [] else Failures(n - 1) + [FAIL_AT_ONCE]
  }

  predicate AtOnce(s: Loop, n: nat) {
    s.status == Running && s.delay == 0.0 && s.breaker == None && s.clock == 0.0 && StartedIn(s.starts, 0.0, 0.0) == n
  }

  lemma OneMoreAtOnce(s: Loop, n: nat)
    requires AtOnce(s, n)
    ensures AtOnce(Step(UNBROKEN, s, FAIL_AT_ONCE), n + 1)
  {
    assert (s.starts + [0.0])[..|s.starts|] == s.starts;
  }

  lemma RunOfOneMore(config: Config, turns: seq<Turn>, turn: Turn)
    ensures Run(config, turns + [turn]) == Step(config, Run(config, turns), turn)
    ensures AllForward(turns) && Forward(turn) ==> AllForward(turns + [turn])
  {
    assert (turns + [turn])[..|turns|] == turns;
  }

  /** Without the breaker nothing but the delays holds the loop back: with no delay it starts any
      number of attempts at once. */
  lemma {:induction false} NoBoundWithoutBreaker(n: nat)
    ensures AllForward(Failures(n))
    ensures AtOnce(Run(UNBROKEN, Failures(n)), n)
  {
    hide Run, Step, StartedIn;
    if n == 0 {
      NothingAtOnce();
    } else {
      NoBoundWithoutBreaker(n - 1);
      OneMoreAtOnce(Run(UNBROKEN, Failures(n - 1)), n - 1);
      RunOfOneMore(UNBROKEN, Failures(n - 1), FAIL_AT_ONCE);
    }
  }

  lemma NothingAtOnce()
    ensures AtOnce(Run(UNBROKEN, Failures(0)), 0) && AllForward(Failures(0))
  {}

  // ---------------------------------------------------------------------------
  // The base delay
  // ---------------------------------------------------------------------------

  function Pow(x: real, k: nat): real {
    if k == 0 then 1.0 else x * Pow(x, k - 1)
  }

  /** The base delay before attempt k, counted from 0. */
  function BaseDelay(config: Config, k: nat): real {
    if k == 0 then config.initialDelay else Backoff(config, BaseDelay(config, k - 1))
  }

  lemma {:induction false} DelayInRun(config: Config, turns: seq<Turn>)
    ensures var s := Run(config, turns); s.delay == BaseDelay(config, s.attempts)
    decreases |turns|
  {
    hide Backoff, AddJitter, Blocked;
    if |turns| > 0 {
      DelayInRun(config, turns[..|turns| - 1]);
    }
  }

  predicate Capped(config: Config, k: nat) {
    BaseDelay(config, k) == Lesser(Product(config.initialDelay, Pow(config.backoff, k)), config.maxDelay)
  }

  lemma PowStep(x: real, b: real, k: nat)
    requires b > 0.0
    ensures Pow(b, k) > 0.0
    ensures Product(x, Pow(b, k + 1)) == Product(x, Pow(b, k)) * b
    decreases k
  {
    if k > 0 {
      PowStep(x, b, k - 1);
    }
  }

  lemma Scaled(x: real, y: real, b: real)
    requires b > 0.0
    ensures x <= y <==> x * b <= y * b
    ensures x < y <==> x * b < y * b
  {}

  lemma CappedStep(config: Config, k: nat)
    requires config.backoff >= 1.0 && config.initialDelay > 0.0 && config.maxDelay > 0.0
    requires k > 0 && Capped(config, k)
    ensures Capped(config, k + 1)
  {
    PowStep(config.initialDelay, config.backoff, k);
    Scaled(Product(config.initialDelay, Pow(config.backoff, k)), config.maxDelay, config.backoff);
    assert config.maxDelay * config.backoff >= config.maxDelay;
    hide Product, Pow;
  }

  lemma CappedFirst(config: Config)
    ensures Capped(config, 1)
  {
    assert Pow(config.backoff, 1) == config.backoff * Pow(config.backoff, 0);
  }

  lemma {:induction false} DelayIsCapped(config: Config, k: nat)
    requires config.backoff >= 1.0 && config.initialDelay > 0.0 && config.maxDelay > 0.0 && k > 0
    ensures Capped(config, k)
  {
    if k == 1 {
      CappedFirst(config);
    } else {
      DelayIsCapped(config, k - 1);
      CappedStep(config, k - 1);
    }
  }

  lemma {:induction false} DelayNeverCapped(config: Config, k: nat)
    requires 0.0 < config.backoff < 1.0 && config.initialDelay > 0.0 && k > 0
    requires config.initialDelay * config.backoff <= config.maxDelay
    ensures Capped(config, k) && Product(config.initialDelay, Pow(config.backoff, k)) <= config.maxDelay
  {
    if k == 1 {
      CappedFirst(config);
      PowStep(config.initialDelay, config.backoff, 0);
      assert Pow(config.backoff, 0) == 1.0;
    } else {
      DelayNeverCapped(config, k - 1);
      PowStep(config.initialDelay, config.backoff, k - 1);
      ShrinksBelow(Product(config.initialDelay, Pow(config.backoff, k - 1)), config.backoff, config.maxDelay,
                   config.initialDelay, Pow(config.backoff, k - 1));
      hide Product, Pow;
    }
  }

  lemma ShrinksBelow(x: real, b: real, m: real, i: real, p: real)
    requires 0.0 < b < 1.0 && x <= m && x == Product(i, p) && i > 0.0 && p > 0.0
    ensures x * b <= m
  {
    assert x > 0.0;
    assert x * b <= x;
  }

  lemma Uncapped(i: real, b: real, m: real)
    requires 0.0 < b < 1.0 && m > 0.0 && i * b > m
    ensures m * b < m && m * b < Product(i, Pow(b, 2)) && Product(i, Pow(b, 1)) == i * b
  {
    PowStep(i, b, 1);
    PowStep(i, b, 0);
    assert Product(i, Pow(b, 0)) == i;
    Scaled(m, i * b, b);
    hide Pow, Product;
    Scaled(b, 1.0, m);
  }

  lemma CapIsForgotten(config: Config)
    requires 0.0 < config.backoff < 1.0 && config.initialDelay > 0.0 && config.maxDelay > 0.0
    requires config.initialDelay * config.backoff > config.maxDelay
    ensures !Capped(config, 2)
  {
    hide Pow, Product;
    var b, m := config.backoff, config.maxDelay;
    Uncapped(config.initialDelay, b, m);
    assert BaseDelay(config, 1) == Backoff(config, BaseDelay(config, 0)) == m;
    assert BaseDelay(config, 2) == m * b;
  }

  /** Main result: before attempt k > 0 the base delay is min(InitialDelay * Backoff^k, MaxDelay),
      for every k, if and only if Backoff is at least 1 or the first step is already below the
      cap. */
  lemma DelayIsCappedIff(config: Config)
    requires config.backoff > 0.0 && config.initialDelay > 0.0 && config.maxDelay > 0.0
    ensures (forall k :: k > 0 ==> Capped(config, k)) <==>
            config.backoff >= 1.0 || config.initialDelay * config.backoff <= config.maxDelay
  {
    if config.backoff >= 1.0 {
      forall k: nat | k > 0 ensures Capped(config, k) {
        DelayIsCapped(config, k);
      }
    } else if config.initialDelay * config.backoff <= config.maxDelay {
      forall k: nat | k > 0 ensures Capped(config, k) {
        DelayNeverCapped(config, k);
      }
    } else {
      CapIsForgotten(config);
    }
  }

  /** With k = 0 included the condition is simply that the first delay is within the cap. */
  lemma DelayIsAlwaysCappedIff(config: Config)
    requires config.backoff > 0.0 && config.initialDelay > 0.0 && config.maxDelay > 0.0
    ensures (forall k :: Capped(config, k)) <==> config.initialDelay <= config.maxDelay
  {
    hide Capped;
    CappedAtZeroIff(config);
    DelayIsCappedIff(config);
    if config.initialDelay <= config.maxDelay && config.backoff < 1.0 {
      FirstStepBelow(config.initialDelay, config.backoff, config.maxDelay);
    }
  }

  lemma FirstStepBelow(i: real, b: real, m: real)
    requires 0.0 < b < 1.0 && 0.0 < i <= m
    ensures i * b <= m
  {
    assert i * b <= i;
  }

  lemma CappedAtZeroIff(config: Config)
    ensures Capped(config, 0) <==> config.initialDelay <= config.maxDelay
  {
    assert Pow(config.backoff, 0) == 1.0;
  }

  // ---------------------------------------------------------------------------
  // Exactly when an attempt starts
  // ---------------------------------------------------------------------------

  /** A breaker lets a request through unless it is open and its timeout has not passed since the
      last failure. */
  lemma AllowIff(b: Breaker, now: real)
    ensures Allow(b, now).0 <==> b.state != Open || now > b.lastFailure + b.timeout
    ensures Allow(b, now).1 == b.(state := if b.state == Open && now > b.lastFailure + b.timeout then HalfOpen else b.state)
  {}

  /** The jitter moves a delay by at most its share. */
  lemma JitterIsBounded(delay: real, factor: real, random: real)
    requires 0.0 <= delay && 0.0 <= factor && 0.0 <= random <= 1.0
    ensures delay - Product(delay, factor) <= AddJitter(delay, factor, random) <= delay + Product(delay, factor)
    ensures random == 0.5 ==> AddJitter(delay, factor, random) == delay
  {
    hide AddJitter, Product;
    JitterIs(delay, factor, random);
    Share(Product(delay, factor), 2.0 * random - 1.0);
  }

  lemma JitterIs(delay: real, factor: real, random: real)
    requires 0.0 <= delay && 0.0 <= factor
    ensures 0.0 <= Product(delay, factor)
    ensures AddJitter(delay, factor, random) == delay + Product(Product(delay, factor), 2.0 * random - 1.0)
  {
    if factor == 0.0 {
      assert Product(delay, 0.0) == 0.0;
    }
  }

  /** A share between -1 and 1 of `most` is between -most and most. */
  lemma Share(most: real, share: real)
    requires 0.0 <= most && -1.0 <= share <= 1.0
    ensures -most <= Product(most, share) <= most
    ensures share == 0.0 ==> Product(most, share) == 0.0
  {
    hide Product;
    Units(most);
    Grows(most, -1.0, share);
    Grows(most, share, 1.0);
  }

  lemma Units(x: real)
    ensures Product(x, -1.0) == -x && Product(x, 0.0) == 0.0 && Product(x, 1.0) == x
  {}

  lemma Grows(x: real, y: real, z: real)
    requires 0.0 <= x && y <= z
    ensures Product(x, y) <= Product(x, z)
  {
    var more := z - y;
    assert x * z == x * y + x * more;
    NonNegativeProduct(x, more);
  }

  lemma NonNegativeProduct(x: real, y: real)
    requires 0.0 <= x && 0.0 <= y
    ensures 0.0 <= x * y
  {}

  /** When the last attempt that failed was over. */
  function FailedAt(config: Config, turns: seq<Turn>): Option<real> {
    if |turns| == 0 then None
    else
      var before, now := Run(config, turns[..|turns| - 1]), Run(config, turns);
      if |now.starts| > |before.starts| && now.status == Running then Some(now.clock)
      else FailedAt(config, turns[..|turns| - 1])
  }

  /** What the variables of a loop that goes on say of the attempts so far. */
  predicate Informed(config: Config, s: Loop, failedAt: Option<real>) {
    && s.attempts == |s.starts|
    && (s.attempts > 0 ==> failedAt.Some?)
    && (s.breaker.Some? <==> config.breakerEnabled)
    && (s.breaker.Some? ==>
          var b := s.breaker.value;
          && b.threshold == config.threshold && b.timeout == config.timeout && b.failureCount == |s.starts|
          && b.state == (if |s.starts| < AtLeastOne(config.threshold) then Closed else Open)
          && (|s.starts| > 0 ==> b.lastFailure == failedAt.value))
  }

  /** What one turn does, in terms of the attempts before it. */
  predicate TurnIs(config: Config, s: Loop, turn: Turn, failedAt: Option<real>, s': Loop)
    requires |s.starts| > 0 ==> failedAt.Some?
  {
    var now := s.clock + turn.pause;
    var goesOn := turn.wanted && !(config.maxAttempts > 0 && |s.starts| >= config.maxAttempts);
    var tripped := && config.breakerEnabled && |s.starts| >= AtLeastOne(config.threshold)
                   && now <= failedAt.value + config.timeout;
    var wait := NonNegative(AddJitter(s.delay, config.jitterFactor, turn.random));
    var starts := goesOn && !tripped && !turn.cancelled && turn.stillWanted;
    && s'.starts == (if starts then s.starts + [now + wait + turn.late] else s.starts)
    && (starts ==> s'.clock == now + wait + turn.late + turn.took)
    && (s'.status == Connected <==> starts && turn.connects)
    && (s'.status == Running <==> (starts && !turn.connects) || (goesOn && tripped && !turn.cancelled))
    && (goesOn && tripped && !turn.cancelled ==> s'.clock == now + NonNegative(config.timeout) + turn.late)
  }

  lemma InformedTurn(config: Config, s: Loop, turn: Turn, failedAt: Option<real>)
    requires Informed(config, s, failedAt) && s.status == Running
    ensures var s' := Step(config, s, turn);
            && TurnIs(config, s, turn, failedAt, s')
            && (s'.status == Running ==>
                  Informed(config, s', if |s'.starts| > |s.starts| then Some(s'.clock) else failedAt))
            && |s'.starts| <= |s.starts| + 1
            && (config.maxAttempts > 0 && |s.starts| >= config.maxAttempts ==> s'.starts == s.starts)
  {
    hide AddJitter, Backoff;
  }

  lemma {:induction false} LoopIsInformed(config: Config, turns: seq<Turn>)
    ensures var s := Run(config, turns); s.status == Running ==> Informed(config, s, FailedAt(config, turns))
    decreases |turns|
  {
    hide Step, Informed, Run;
    if |turns| == 0 {
      RunBegins(config, turns);
      BegunInformed(config);
    } else {
      var init, last := turns[..|turns| - 1], turns[|turns| - 1];
      LoopIsInformed(config, init);
      assert turns == init + [last];
      RunOfOneMore(config, init, last);
      if Run(config, init).status == Running {
        InformedTurn(config, Run(config, init), last, FailedAt(config, init));
      } else {
        EndedStep(config, Run(config, init), last);
      }
    }
  }

  lemma EndedStep(config: Config, s: Loop, turn: Turn)
    requires s.status != Running
    ensures Step(config, s, turn) == s
  {}

  lemma BegunInformed(config: Config)
    ensures Begin(config).status == Running ==> Informed(config, Begin(config), None)
    ensures FailedAt(config, []) == None
  {}

  /** Main result: while the loop runs, a turn starts an attempt if and only if a reconnect is
      wanted before and after the wait, the context is alive, the attempts are not used up, and
      the breaker has not seen max(1, threshold) failures or its timeout has passed since the last
      one; and it starts after the jittered base delay. The loop ends as connected exactly when
      that attempt succeeds. */
  lemma AttemptStartsIff(config: Config, turns: seq<Turn>, turn: Turn)
    requires Run(config, turns).status == Running
    ensures var s, s', failedAt := Run(config, turns), Run(config, turns + [turn]), FailedAt(config, turns);
            && s.delay == BaseDelay(config, |s.starts|)
            && (|s.starts| > 0 ==> failedAt.Some?)
            && TurnIs(config, s, turn, failedAt, s')
  {
    hide Run, Step, TurnIs, AddJitter;
    LoopIsInformed(config, turns);
    DelayInRun(config, turns);
    RunOfOneMore(config, turns, turn);
    InformedTurn(config, Run(config, turns), turn, FailedAt(config, turns));
  }

  /** A limit on the attempts is kept. */
  lemma {:induction false} AttemptsAreCapped(config: Config, turns: seq<Turn>)
    requires config.maxAttempts > 0
    ensures |Run(config, turns).starts| <= config.maxAttempts
    decreases |turns|
  {
    hide Step, Run, Informed, TurnIs;
    if |turns| == 0 {
      RunBegins(config, turns);
    } else {
      var init, last := turns[..|turns| - 1], turns[|turns| - 1];
      AttemptsAreCapped(config, init);
      assert turns == init + [last];
      RunOfOneMore(config, init, last);
      if Run(config, init).status == Running {
        LoopIsInformed(config, init);
        InformedTurn(config, Run(config, init), last, FailedAt(config, init));
      } else {
        EndedStep(config, Run(config, init), last);
      }
    }
  }

  // ---------------------------------------------------------------------------
  // As the source writes it
  // ---------------------------------------------------------------------------

  class CircuitBreaker {
    var failureCount: nat
    var lastFailureTime: real
    var state: BreakerState
    const threshold: int
    const timeout: real

    function View(): Breaker
      reads this
    {
      Breaker(failureCount, lastFailureTime, state, threshold, timeout)
    }

    constructor (threshold: int, timeout: real)
      ensures View() == NewBreaker(threshold, timeout)
    {
      this.threshold, this.timeout := threshold, timeout;
      failureCount, lastFailureTime, state := 0, 0.0, Closed;
    }

    method RecordSuccess()
      modifies this
      ensures View() == Succeed(old(View()))
    {
      failureCount := 0;
      state := Closed;
    }

    method RecordFailure(now: real)
      modifies this
      ensures View() == Fail(old(View()), now)
    {
      failureCount := failureCount + 1;
      lastFailureTime := now;
      if failureCount >= threshold {
        state := Open;
      }
    }

    method AllowRequest(now: real) returns (allowed: bool)
      modifies this
      ensures (allowed, View()) == Allow(old(View()), now)
    {
      match state
      case Closed => return true;
      case Open =>
        if now - lastFailureTime > timeout {
          state := HalfOpen;
          return true;
        }
        return false;
      case HalfOpen => return true;
    }
  }

  lemma RunStep(config: Config, turns: seq<Turn>, i: nat)
    requires i < |turns|
    ensures Run(config, turns[..i + 1]) == Step(config, Run(config, turns[..i]), turns[i])
  {
    assert turns[..i + 1][..i] == turns[..i];
  }

  lemma {:induction false} EndedStaysEnded(config: Config, turns: seq<Turn>, i: nat)
    requires i <= |turns| && Run(config, turns[..i]).status != Running
    ensures Run(config, turns) == Run(config, turns[..i])
    decreases |turns| - i
  {
    if i == |turns| {
      assert turns[..i] == turns;
    } else {
      hide Run;
      RunStep(config, turns, i);
      EndedStaysEnded(config, turns, i + 1);
    }
  }

  /** One turn on the breaker object: the loop variables after it. */
  method TakeTurn(config: Config, breaker: CircuitBreaker?, ghost s: Loop, turn: Turn, delay: real, attempts: nat,
                  clock: real, starts: seq<real>)
    returns (status: Status, delay': real, attempts': nat, clock': real, starts': seq<real>)
    requires s == Loop(Running, if breaker == null then None else Some(breaker.View()), delay, attempts, clock, starts)
    modifies breaker
    ensures Step(config, s, turn)
         == Loop(status, if breaker == null then None else Some(breaker.View()), delay', attempts', clock', starts')
  {
    hide AddJitter;
    status, delay', attempts', starts' := Stopped, delay, attempts, starts;
    clock' := clock + turn.pause;
    if !turn.wanted {
      return;
    }
    if config.maxAttempts > 0 && attempts >= config.maxAttempts {
      return;
    }
    if breaker != null {
      var allowed := breaker.AllowRequest(clock');
      if !allowed {
        if turn.cancelled {
          return;
        }
        clock' := clock' + NonNegative(config.timeout) + turn.late;
        status := Running;
        return;
      }
    }
    var actualDelay := AddJitter(delay, config.jitterFactor, turn.random);
    if turn.cancelled {
      return;
    }
    clock' := clock' + NonNegative(actualDelay) + turn.late;
    if !turn.stillWanted {
      return;
    }
    starts' := starts + [clock'];
    clock' := clock' + turn.took;
    if !turn.connects {
      if breaker != null {
        breaker.RecordFailure(clock');
      }
      delay' := delay * config.backoff;
      if delay' > config.maxDelay {
        delay' := config.maxDelay;
      }
      attempts' := attempts + 1;
      status := Running;
      return;
    }
    if breaker != null {
      breaker.RecordSuccess();
    }
    status := Connected;
  }

  /** The loop of `reconnect`, for as many turns as the world gives it. */
  method ReconnectLoop(config: Config, turns: seq<Turn>) returns (status: Status, starts: seq<real>)
    ensures var s := Run(config, turns); status == s.status && starts == s.starts
  {
    hide Run, Step;
    var delay, attempts, clock := config.initialDelay, 0, 0.0;
    var breaker: CircuitBreaker? := null;
    if config.breakerEnabled {
      breaker := new CircuitBreaker(config.threshold, config.timeout);
    }
    status, starts := if config.enabled then Running else Stopped, [];
    var i := 0;
    RunBegins(config, turns[..0]);
    while i < |turns| && status == Running
      invariant 0 <= i <= |turns|
      invariant breaker != null ==> fresh(breaker)
      invariant Run(config, turns[..i])
             == Loop(status, if breaker == null then None else Some(breaker.View()), delay, attempts, clock, starts)
    {
      RunStep(config, turns, i);
      status, delay, attempts, clock, starts :=
        TakeTurn(config, breaker, Run(config, turns[..i]), turns[i], delay, attempts, clock, starts);
      i := i + 1;
    }
    if status != Running {
      EndedStaysEnded(config, turns, i);
    } else {
      assert turns[..i] == turns;
    }
  }

  class TunnoxClient {
    var reconnecting: bool

    /** `reconnect`: a second call while a loop runs does nothing, and the mark is taken back when
        the loop ends. */
    method Reconnect(config: Config, turns: seq<Turn>) returns (status: Status, starts: seq<real>)
      modifies this
      ensures var s := Run(config, turns);
              if old(reconnecting) then status == Stopped && starts == [] && reconnecting
              else status == s.status && starts == s.starts && (reconnecting <==> status == Running)
    {
      if reconnecting {
        return Stopped, [];
      }
      reconnecting := true;
      status, starts := ReconnectLoop(config, turns);
      if status != Running {
        reconnecting := false;
      }
    }
  }

  lemma RunBegins(config: Config, turns: seq<Turn>)
    requires |turns| == 0
    ensures Run(config, turns) == Begin(config)
  {}
}
