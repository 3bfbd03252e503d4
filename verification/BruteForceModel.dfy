/** The brute-force protector of internal/security/brute_force_protector.go as a value.
    Times are seconds; every reading of the clock inside a call is a parameter of the step. */
module BruteForceModel {
  import opened Options

  datatype Config = Config(maxFailures: int, timeWindow: real, banDuration: real, permanentBanAt: int)

  datatype FailureRecord = FailureRecord(failures: seq<real>, totalCount: nat, firstFailure: real, lastFailure: real)

  /** `expiresAt` is None for a permanent ban. */
  datatype BanRecord = BanRecord(bannedAt: real, expiresAt: Option<real>, count: nat)

  datatype Protector = Protector(failures: map<string, FailureRecord>, banned: map<string, BanRecord>)

  const NO_RECORDS := Protector(map[], map[])

  datatype Op =
    | Failure(ip: string, at: real, prunedAt: real, bannedAt: real)
    | Success(ip: string)
    | Check(ip: string, at: real)
    | Ban(ip: string, duration: real, at: real)
    | Unban(ip: string)
    | Cleanup(at: real, cleanedAt: string -> real, until: real)
    | Reset

  /** A history of calls: the clock reading it starts from, then the calls in order. */
  datatype History = Start(at: real) | Then(before: History, op: Op)

  // ---------------------------------------------------------------------------
  // Steps
  // ---------------------------------------------------------------------------

  /** The times strictly after the cutoff, in order. */
  function StrictlyAfter(times: seq<real>, cutoff: real): seq<real> {
    if times == [] then []
    else
      var last := times[|times| - 1];
      StrictlyAfter(times[..|times| - 1], cutoff) + if last > cutoff then [last] else []
  }

  function Prune(r: FailureRecord, config: Config, prunedAt: real): FailureRecord {
    r.(failures := StrictlyAfter(r.failures, prunedAt - config.timeWindow))
  }

  function NewBan(duration: real, count: nat, now: real): BanRecord {
    BanRecord(now, if duration > 0.0 then Some(now + duration) else None, count)
  }

  /** The record of `ip` after the failure was stamped at `at` and the list was pruned. */
  function Recorded(p: Protector, config: Config, ip: string, at: real, prunedAt: real): FailureRecord {
    var r := if ip in p.failures then p.failures[ip] else FailureRecord([], 0, at, at);
    Prune(FailureRecord(r.failures + [at], r.totalCount + 1, r.firstFailure, at), config, prunedAt)
  }

  /** `RecordFailure`: the verdict "banned now" and the new state. */
  function FailureStep(p: Protector, config: Config, ip: string, at: real, prunedAt: real, bannedAt: real)
    : (bool, Protector)
  {
    var r := Recorded(p, config, ip, at, prunedAt);
    var p' := p.(failures := p.failures[ip := r]);
    if r.totalCount >= config.permanentBanAt then
      (true, p'.(banned := p'.banned[ip := NewBan(0.0, r.totalCount, bannedAt)]))
    else if |r.failures| >= config.maxFailures then
      (true, p'.(banned := p'.banned[ip := NewBan(config.banDuration, r.totalCount, bannedAt)]))
    else
      (false, p')
  }

  predicate Expired(b: BanRecord, now: real) {
    b.expiresAt.Some? && now > b.expiresAt.value
  }

  predicate IsBanned(p: Protector, ip: string, now: real) {
    ip in p.banned && !Expired(p.banned[ip], now)
  }

  /** `IsBanned` followed by the lazy unban it starts for an expired entry. */
  function CheckStep(p: Protector, ip: string, now: real): Protector {
    if ip in p.banned && Expired(p.banned[ip], now) then p.(banned := p.banned - {ip}) else p
  }

  function BanStep(p: Protector, ip: string, duration: real, now: real): Protector {
    var count := if ip in p.failures then p.failures[ip].totalCount else 0;
    p.(banned := p.banned[ip := NewBan(duration, count, now)])
  }

  /** `cleanup`: prune every record, drop the empty ones, drop the expired bans. The clock is read
      again for each record. */
  function CleanupStep(p: Protector, config: Config, now: real, cleanedAt: string -> real): Protector {
    Protector(
      map ip | ip in p.failures && Prune(p.failures[ip], config, cleanedAt(ip)).failures != []
        :: Prune(p.failures[ip], config, cleanedAt(ip)),
      map ip | ip in p.banned && !Expired(p.banned[ip], now) :: p.banned[ip])
  }

  function Step(p: Protector, config: Config, op: Op): Protector {
    match op
    case Failure(ip, at, prunedAt, bannedAt) => FailureStep(p, config, ip, at, prunedAt, bannedAt).1
    case Success(ip) => p.(failures := p.failures - {ip})
    case Check(ip, at) => CheckStep(p, ip, at)
    case Ban(ip, duration, at) => BanStep(p, ip, duration, at)
    case Unban(ip) => p.(banned := p.banned - {ip})
    case Cleanup(at, cleanedAt, _) => CleanupStep(p, config, at, cleanedAt)
    case Reset => NO_RECORDS
  }

  /** The state after a history of calls. */
  function Run(config: Config, h: History): Protector {
    match h
    case Start(_) => NO_RECORDS
    case Then(before, op) => Step(Run(config, before), config, op)
  }

  /** The last clock reading of a history. */
  function Clock(h: History): real {
    match h
    case Start(at) => at
    case Then(before, op) =>
      match op
      case Failure(_, _, _, bannedAt) => bannedAt
      case Check(_, at) => at
      case Ban(_, _, at) => at
      case Cleanup(_, _, until) => until
      case _ => Clock(before)
  }

  /** The readings a call takes never go back, nor before `now`. */
  ghost predicate InOrder(now: real, op: Op) {
    match op
    case Failure(_, at, prunedAt, bannedAt) => now <= at <= prunedAt <= bannedAt
    case Check(_, at) => now <= at
    case Ban(_, _, at) => now <= at
    case Cleanup(at, cleanedAt, until) => now <= at <= until && forall ip :: at <= cleanedAt(ip) <= until
    case _ => true
  }

  ghost predicate Monotone(h: History) {
    h.Then? ==> Monotone(h.before) && InOrder(Clock(h.before), h.op)
  }

  // ---------------------------------------------------------------------------
  // The simple specification: failures since the last success
  // ---------------------------------------------------------------------------

  /** Every failure of `ip` since its last success or the last reset. */
  function FailuresSince(h: History, ip: string): seq<real> {
    match h
    case Start(_) => []
    case Then(before, Failure(who, at, _, _)) =>
      if who == ip then FailuresSince(before, ip) + [at] else FailuresSince(before, ip)
    case Then(before, Success(who)) => if who == ip then [] else FailuresSince(before, ip)
    case Then(_, Reset) => []
    case Then(before, _) => FailuresSince(before, ip)
  }

  /** How many of those failures a cleanup has forgotten: a cleanup that finds none of them
      inside the window deletes the record, and the running total with it. */
  function Forgotten(config: Config, h: History, ip: string): nat {
    match h
    case Start(_) => 0
    case Then(before, Success(who)) => if who == ip then 0 else Forgotten(config, before, ip)
    case Then(_, Reset) => 0
    case Then(before, Cleanup(_, cleanedAt, _)) =>
      if StrictlyAfter(FailuresSince(before, ip), cleanedAt(ip) - config.timeWindow) == []
      then |FailuresSince(before, ip)| else Forgotten(config, before, ip)
    case Then(before, _) => Forgotten(config, before, ip)
  }

  function Stored(p: Protector, ip: string): seq<real> {
    if ip in p.failures then p.failures[ip].failures else []
  }

  function Total(p: Protector, ip: string): nat {
    if ip in p.failures then p.failures[ip].totalCount else 0
  }

  /** StrictlyAfter is the filter by `t > cutoff`: it decides each time on its own, in order. */
  lemma {:induction false} PruneAppend(a: seq<real>, b: seq<real>, cutoff: real)
    ensures StrictlyAfter(a + b, cutoff) == StrictlyAfter(a, cutoff) + StrictlyAfter(b, cutoff)
    decreases |b|
  {
    if |b| == 0 {
      assert a + b == a;
    } else {
      var init, last := b[..|b| - 1], b[|b| - 1];
      PruneAppend(a, init, cutoff);
      assert (a + b)[..|a + b| - 1] == a + init;
    }
  }

  lemma {:induction false} PruneTwice(times: seq<real>, cutoff: real, cutoff': real)
    requires cutoff <= cutoff'
    ensures StrictlyAfter(StrictlyAfter(times, cutoff), cutoff') == StrictlyAfter(times, cutoff')
  {
    if times != [] {
      var init, last := times[..|times| - 1], times[|times| - 1];
      PruneTwice(init, cutoff, cutoff');
      if last > cutoff {
        assert (StrictlyAfter(init, cutoff) + [last])[..|StrictlyAfter(init, cutoff)|] == StrictlyAfter(init, cutoff);
      } else {
        assert StrictlyAfter(init, cutoff) + [] == StrictlyAfter(init, cutoff);
      }
    }
  }

  lemma AppendThenPrune(a: seq<real>, b: seq<real>, at: real, cutoff: real)
    requires StrictlyAfter(a, cutoff) == StrictlyAfter(b, cutoff)
    ensures StrictlyAfter(a + [at], cutoff) == StrictlyAfter(b + [at], cutoff)
  {
    assert (a + [at])[..|a|] == a && (b + [at])[..|b|] == b;
  }

  /** What one step does to the stored list of `ip`. */
  lemma StoredAfterStep(p: Protector, config: Config, op: Op, ip: string)
    ensures op.Failure? && op.ip == ip ==>
              Stored(Step(p, config, op), ip) == StrictlyAfter(Stored(p, ip) + [op.at], op.prunedAt - config.timeWindow)
    ensures op.Cleanup? ==>
              Stored(Step(p, config, op), ip) == StrictlyAfter(Stored(p, ip), op.cleanedAt(ip) - config.timeWindow)
    ensures (op.Success? && op.ip == ip) || op.Reset? ==> Stored(Step(p, config, op), ip) == []
    ensures !op.Cleanup? && !op.Reset? && (op.Failure? || op.Success? ==> op.ip != ip) ==>
              Stored(Step(p, config, op), ip) == Stored(p, ip)
  {
    hide StrictlyAfter;
    if op.Cleanup? {
      NothingToPrune(op.cleanedAt(ip) - config.timeWindow);
    }
  }

  lemma StoredAfterStart(ip: string)
    ensures Stored(NO_RECORDS, ip) == []
  {}

  lemma NothingToPrune(cutoff: real)
    ensures StrictlyAfter([], cutoff) == []
  {}

  /** The pruned list and the full history agree on every window that can still be asked for. */
  lemma {:induction false} StoredRefinesHistory(config: Config, h: History, ip: string, cutoff: real)
    requires Monotone(h) && cutoff >= Clock(h) - config.timeWindow
    ensures StrictlyAfter(Stored(Run(config, h), ip), cutoff) == StrictlyAfter(FailuresSince(h, ip), cutoff)
  {
    hide StrictlyAfter, Step, Stored;
    if h.Start? {
      StoredAfterStart(ip);
    } else {
      var op, p := h.op, Run(config, h.before);
      StoredRefinesHistory(config, h.before, ip, cutoff);
      StoredAfterStep(p, config, op, ip);
      if op.Failure? && op.ip == ip {
        AppendThenPrune(Stored(p, ip), FailuresSince(h.before, ip), op.at, cutoff);
        PruneTwice(Stored(p, ip) + [op.at], op.prunedAt - config.timeWindow, cutoff);
      } else if op.Cleanup? {
        PruneTwice(Stored(p, ip), op.cleanedAt(ip) - config.timeWindow, cutoff);
      }
    }
  }

  /** Main result: after a failure is recorded, the list that is compared with MaxFailures
      holds exactly the failures since the last success that lie strictly inside the window. */
  lemma CountIsWindowCount(config: Config, h: History, f: Op)
    requires f.Failure? && Monotone(Then(h, f))
    ensures Stored(Run(config, Then(h, f)), f.ip)
         == StrictlyAfter(FailuresSince(h, f.ip) + [f.at], f.prunedAt - config.timeWindow)
  {
    hide StrictlyAfter, Step, Stored;
    StoredRefinesHistory(config, h, f.ip, f.prunedAt - config.timeWindow);
    StoredAfterStep(Run(config, h), config, f, f.ip);
    AppendThenPrune(Stored(Run(config, h), f.ip), FailuresSince(h, f.ip), f.at, f.prunedAt - config.timeWindow);
  }

  /** The history without its background cleanups. */
  function WithoutCleanups(h: History): History {
    match h
    case Start(_) => h
    case Then(before, Cleanup(_, _, _)) => WithoutCleanups(before)
    case Then(before, op) => Then(WithoutCleanups(before), op)
  }

  lemma {:induction false} CleanupsLeaveFailures(h: History, ip: string)
    requires Monotone(h)
    ensures FailuresSince(WithoutCleanups(h), ip) == FailuresSince(h, ip)
    ensures Monotone(WithoutCleanups(h)) && Clock(WithoutCleanups(h)) <= Clock(h)
  {
    if h.Then? {
      CleanupsLeaveFailures(h.before, ip);
    }
  }

  /** Background cleanup never changes the window count that a failure is judged by. */
  lemma CleanupKeepsCount(config: Config, h: History, f: Op)
    requires f.Failure? && Monotone(Then(h, f))
    ensures Stored(Run(config, Then(h, f)), f.ip) == Stored(Run(config, Then(WithoutCleanups(h), f)), f.ip)
  {
    CleanupsLeaveFailures(h, f.ip);
    CountIsWindowCount(config, h, f);
    CountIsWindowCount(config, WithoutCleanups(h), f);
  }

  lemma TotalAfterStep(p: Protector, config: Config, op: Op, ip: string)
    ensures op.Failure? && op.ip == ip ==> Total(Step(p, config, op), ip) == Total(p, ip) + 1
    ensures op.Cleanup? ==>
              Total(Step(p, config, op), ip) ==
              if StrictlyAfter(Stored(p, ip), op.cleanedAt(ip) - config.timeWindow) == [] then 0 else Total(p, ip)
    ensures (op.Success? && op.ip == ip) || op.Reset? ==> Total(Step(p, config, op), ip) == 0
    ensures !op.Cleanup? && !op.Reset? && (op.Failure? || op.Success? ==> op.ip != ip) ==>
              Total(Step(p, config, op), ip) == Total(p, ip)
  {
    hide StrictlyAfter;
    if op.Cleanup? {
      NothingToPrune(op.cleanedAt(ip) - config.timeWindow);
    }
  }

  /** The cumulative counter misses exactly the failures that a cleanup has forgotten. */
  lemma {:induction false} TotalIsSinceForgotten(config: Config, h: History, ip: string)
    requires Monotone(h)
    ensures Total(Run(config, h), ip) == |FailuresSince(h, ip)| - Forgotten(config, h, ip)
  {
    hide StrictlyAfter, Step, Stored;
    if h.Then? {
      TotalIsSinceForgotten(config, h.before, ip);
      TotalAfterStep(Run(config, h.before), config, h.op, ip);
      if h.op.Cleanup? {
        StoredRefinesHistory(config, h.before, ip, h.op.cleanedAt(ip) - config.timeWindow);
      }
    }
  }

  lemma DecisionStep(p: Protector, config: Config, f: Op)
    requires f.Failure?
    ensures var p' := Step(p, config, f);
            p'.banned ==
            if Total(p', f.ip) >= config.permanentBanAt then
              p.banned[f.ip := BanRecord(f.bannedAt, None, Total(p', f.ip))]
            else if |Stored(p', f.ip)| >= config.maxFailures then
              p.banned[f.ip := NewBan(config.banDuration, Total(p', f.ip), f.bannedAt)]
            else p.banned
  {
    hide StrictlyAfter;
  }

  /** How many failures count for a permanent ban, and how many for a temporary one. */
  function Cumulative(config: Config, h: History, f: Op): int
    requires f.Failure?
  {
    |FailuresSince(h, f.ip)| + 1 - Forgotten(config, h, f.ip)
  }

  function Recent(config: Config, h: History, f: Op): nat
    requires f.Failure?
  {
    |StrictlyAfter(FailuresSince(h, f.ip) + [f.at], f.prunedAt - config.timeWindow)|
  }

  /** When a failure bans permanently: PermanentBanAt failures since the last success, not
      counting the forgotten ones. Otherwise MaxFailures inside the window ban for a time. */
  lemma BanDecision(config: Config, h: History, f: Op)
    requires f.Failure? && Monotone(Then(h, f))
    ensures Cumulative(config, h, f) > 0
    ensures Run(config, Then(h, f)).banned ==
            if Cumulative(config, h, f) >= config.permanentBanAt then
              Run(config, h).banned[f.ip := BanRecord(f.bannedAt, None, Cumulative(config, h, f))]
            else if Recent(config, h, f) >= config.maxFailures then
              Run(config, h).banned[f.ip := NewBan(config.banDuration, Cumulative(config, h, f), f.bannedAt)]
            else Run(config, h).banned
  {
    hide StrictlyAfter, Step, Stored;
    TotalIsSinceForgotten(config, h, f.ip);
    TotalAfterStep(Run(config, h), config, f, f.ip);
    CountIsWindowCount(config, h, f);
    DecisionStep(Run(config, h), config, f);
  }

  /** RecordFailure says "banned now" exactly when one of the two counts is reached. */
  lemma VerdictIff(config: Config, h: History, f: Op)
    requires f.Failure? && Monotone(Then(h, f))
    ensures FailureStep(Run(config, h), config, f.ip, f.at, f.prunedAt, f.bannedAt).0 <==>
            Cumulative(config, h, f) >= config.permanentBanAt || Recent(config, h, f) >= config.maxFailures
  {
    hide StrictlyAfter, Step, Stored;
    TotalIsSinceForgotten(config, h, f.ip);
    TotalAfterStep(Run(config, h), config, f, f.ip);
    CountIsWindowCount(config, h, f);
    VerdictStep(Run(config, h), config, f);
  }

  lemma VerdictStep(p: Protector, config: Config, f: Op)
    requires f.Failure?
    ensures var p' := Step(p, config, f);
            FailureStep(p, config, f.ip, f.at, f.prunedAt, f.bannedAt).0 <==>
            Total(p', f.ip) >= config.permanentBanAt || |Stored(p', f.ip)| >= config.maxFailures
  {
    hide StrictlyAfter;
  }

  // ---------------------------------------------------------------------------
  // Exactly when an IP is banned
  // ---------------------------------------------------------------------------

  /** When a ban began, the last moment at which it holds (None for ever), and the failures it
      was given for. */
  datatype Sentence = Sentence(bannedAt: real, until: Option<real>, count: int)

  function NewSentence(at: real, duration: real, count: int): Sentence {
    Sentence(at, if duration > 0.0 then Some(at + duration) else None, count)
  }

  /** The last ban of `ip` that was not lifted by an unban or a reset, whether it has expired or
      not, read off the calls alone. */
  function LastBan(config: Config, h: History, ip: string): Option<Sentence> {
    match h
    case Start(_) => None
    case Then(before, op) =>
      match op
      case Failure(who, _, _, bannedAt) =>
        if who != ip then LastBan(config, before, ip)
        else if Cumulative(config, before, op) >= config.permanentBanAt then
          Some(Sentence(bannedAt, None, Cumulative(config, before, op)))
        else if Recent(config, before, op) >= config.maxFailures then
          Some(NewSentence(bannedAt, config.banDuration, Cumulative(config, before, op)))
        else LastBan(config, before, ip)
      case Ban(who, duration, at) =>
        if who != ip then LastBan(config, before, ip)
        else Some(NewSentence(at, duration, |FailuresSince(before, ip)| - Forgotten(config, before, ip)))
      case Unban(who) => if who == ip then None else LastBan(config, before, ip)
      case Reset => None
      case _ => LastBan(config, before, ip)
  }

  /** A ban holds through its last moment, or for ever. */
  predicate InForce(ban: Option<Sentence>, now: real) {
    ban.Some? && (ban.value.until.Some? ==> now <= ban.value.until.value)
  }

  /** The stored ban is the last one, unless that has expired by the time of the last call. */
  predicate StoredIsLast(p: Protector, ip: string, last: Option<Sentence>, clock: real) {
    if ip in p.banned then last == Some(Sentence(p.banned[ip].bannedAt, p.banned[ip].expiresAt, p.banned[ip].count))
    else !InForce(last, clock)
  }

  lemma OtherStepsKeepLast(p: Protector, config: Config, op: Op, ip: string, last: Option<Sentence>, clock: real, later: real)
    requires StoredIsLast(p, ip, last, clock) && clock <= later
    requires op.Check? || op.Success? || op.Cleanup? || ((op.Ban? || op.Unban?) && op.ip != ip)
    requires op.Check? || op.Cleanup? ==> op.at <= later
    ensures StoredIsLast(Step(p, config, op), ip, last, later)
  {
    hide StrictlyAfter;
  }

  lemma BanStepIsLast(p: Protector, config: Config, op: Op)
    requires op.Ban?
    ensures StoredIsLast(Step(p, config, op), op.ip, Some(NewSentence(op.at, op.duration, Total(p, op.ip))), op.at)
  {}

  lemma LiftedIsNotStored(p: Protector, config: Config, op: Op, ip: string)
    requires op.Reset? || (op.Unban? && op.ip == ip)
    ensures ip !in Step(p, config, op).banned
  {}

  lemma {:induction false} LastBanIsStored(config: Config, h: History, ip: string)
    requires Monotone(h)
    ensures StoredIsLast(Run(config, h), ip, LastBan(config, h, ip), Clock(h))
  {
    hide StrictlyAfter, Step, Cumulative, Recent;
    if h.Then? {
      LastBanIsStored(config, h.before, ip);
      var p, op := Run(config, h.before), h.op;
      if op.Failure? {
        BanDecision(config, h.before, op);
      } else if op.Ban? && op.ip == ip {
        TotalIsSinceForgotten(config, h.before, ip);
        BanStepIsLast(p, config, op);
      } else if op.Reset? || (op.Unban? && op.ip == ip) {
        LiftedIsNotStored(p, config, op, ip);
      } else {
        OtherStepsKeepLast(p, config, op, ip, LastBan(config, h.before, ip), Clock(h.before), Clock(h));
      }
    }
  }

  /** Main result: after any calls an IP is refused at `now` if and only if its last ban that was
      not lifted is permanent or has not expired by then. */
  lemma BannedIff(config: Config, h: History, ip: string, now: real)
    requires Monotone(h) && Clock(h) <= now
    ensures IsBanned(Run(config, h), ip, now) <==> InForce(LastBan(config, h, ip), now)
  {
    hide Run, LastBan;
    LastBanIsStored(config, h, ip);
  }

  /** A cleanup leaves exactly the bans in force when it began, and the records that still have a
      failure inside the window. */
  lemma CleanupLeavesExactly(config: Config, h: History, c: Op, ip: string)
    requires c.Cleanup? && Monotone(Then(h, c))
    ensures var p := Run(config, Then(h, c));
            && (ip in p.banned <==> InForce(LastBan(config, h, ip), c.at))
            && (ip in p.failures <==> StrictlyAfter(FailuresSince(h, ip), c.cleanedAt(ip) - config.timeWindow) != [])
  {
    hide StrictlyAfter, LastBan;
    LastBanIsStored(config, h, ip);
    StoredRefinesHistory(config, h, ip, c.cleanedAt(ip) - config.timeWindow);
    NothingToPrune(c.cleanedAt(ip) - config.timeWindow);
  }

  const TWO_FOREVER := Config(5, 300.0, 1800.0, 2)

  /** One failure, and a cleanup an hour later. */
  function FailedAndCleaned(): History {
    Then(Then(Start(0.0), Failure("ip", 0.0, 0.0, 0.0)), Cleanup(3600.0, _ => 3600.0, 3600.0))
  }

  lemma OneIsForgotten()
    ensures var h := FailedAndCleaned();
            && Monotone(h) && Clock(h) == 3600.0
            && FailuresSince(h, "ip") == [0.0] && Forgotten(TWO_FOREVER, h, "ip") == 1
            && Run(TWO_FOREVER, h).banned == map[]
  {
    var h0 := Then(Start(0.0), Failure("ip", 0.0, 0.0, 0.0));
    assert Monotone(Start(0.0)) && Monotone(h0);
    assert FailuresSince(Start(0.0), "ip") + [0.0] == [0.0];
    assert FailuresSince(h0, "ip") == [0.0];
    PruneOne(0.0, -300.0);
    PruneOne(0.0, 3300.0);
    hide StrictlyAfter, Step;
    BanDecision(TWO_FOREVER, Start(0.0), h0.op);
    CleanupOfNoBans(Run(TWO_FOREVER, h0), TWO_FOREVER, FailedAndCleaned().op);
  }

  lemma CleanupOfNoBans(p: Protector, config: Config, op: Op)
    requires p.banned == map[] && op.Cleanup?
    ensures Step(p, config, op).banned == map[]
  {
    hide Prune;
  }

  /** The counter is documented as cumulative, including cleaned failures. It is not: two
      failures an hour apart with a cleanup between them count as one. */
  lemma CumulativeCountIsLost()
    ensures var h := Then(FailedAndCleaned(), Failure("ip", 3600.0, 3600.0, 3600.0));
            && Monotone(h)
            && |FailuresSince(h, "ip")| == TWO_FOREVER.permanentBanAt
            && !IsBanned(Run(TWO_FOREVER, h), "ip", 3600.0)
  {
    hide StrictlyAfter, Step, Forgotten, Run;
    var h, f := FailedAndCleaned(), Failure("ip", 3600.0, 3600.0, 3600.0);
    OneIsForgotten();
    PruneTwo(0.0, 3600.0, 3300.0);
    assert FailuresSince(h, "ip") + [3600.0] == [0.0, 3600.0];
    BanDecision(TWO_FOREVER, h, f);
  }

  lemma PruneTwo(t: real, t': real, cutoff: real)
    requires t <= cutoff < t'
    ensures StrictlyAfter([t, t'], cutoff) == [t']
  {
    PruneOne(t, cutoff);
    assert [t, t'][..1] == [t];
  }

  lemma PruneOne(t: real, cutoff: real)
    ensures StrictlyAfter([t], cutoff) == if t > cutoff then [t] else []
  {
    assert [t][..0] == [];
  }

  // ---------------------------------------------------------------------------
  // Bans persist when failures are recorded only behind the IsBanned gate
  // ---------------------------------------------------------------------------

  /** Each failure directly follows an IsBanned call for the same IP that answered "no". */
  predicate Guarded(config: Config, h: History) {
    h.Then? ==>
      && Guarded(config, h.before)
      && (h.op.Failure? ==>
            && h.before.Then? && h.before.op.Check? && h.before.op.ip == h.op.ip
            && !IsBanned(Run(config, h.before.before), h.op.ip, h.before.op.at))
  }

  /** `h` continues `h0`, with no explicit unban, ban or reset of `ip` after it. */
  ghost predicate ContinuesLeavingBan(h0: History, h: History, ip: string) {
    h == h0 ||
    (h.Then? && ContinuesLeavingBan(h0, h.before, ip) && !h.op.Reset? && (h.op.Ban? || h.op.Unban? ==> h.op.ip != ip))
  }

  lemma StepLeavesBan(p: Protector, config: Config, op: Op, ip: string, now: real)
    requires ip in p.banned && (p.banned[ip].expiresAt.Some? ==> now <= p.banned[ip].expiresAt.value)
    requires !op.Reset? && (op.Ban? || op.Unban? || op.Failure? ==> op.ip != ip)
    requires op.Check? || op.Cleanup? ==> op.at <= now
    ensures var p' := Step(p, config, op); ip in p'.banned && p'.banned[ip] == p.banned[ip]
  {
    hide StrictlyAfter;
  }

  /** Main result: a ban stays exactly as it was recorded until an explicit unban, ban or
      reset: a permanent one for ever, a temporary one through its expiry. */
  lemma {:induction false} BanPersists(config: Config, h0: History, h: History, ip: string)
    requires Monotone(h) && Guarded(config, h)
    requires ip in Run(config, h0).banned && ContinuesLeavingBan(h0, h, ip)
    requires var expiry := Run(config, h0).banned[ip].expiresAt;
             expiry.Some? ==> Clock(h) <= expiry.value
    ensures var p := Run(config, h);
            ip in p.banned && p.banned[ip] == Run(config, h0).banned[ip]
    decreases h
  {
    if h != h0 {
      BanPersists(config, h0, h.before, ip);
      StepLeavesBan(Run(config, h.before), config, h.op, ip, Clock(h));
    }
  }

  /** While the ban holds, the gate refuses. */
  lemma BannedIsRefused(config: Config, h0: History, h: History, ip: string, now: real)
    requires Monotone(h) && Guarded(config, h) && Clock(h) <= now
    requires ip in Run(config, h0).banned && ContinuesLeavingBan(h0, h, ip)
    requires var expiry := Run(config, h0).banned[ip].expiresAt; expiry.Some? ==> now <= expiry.value
    ensures IsBanned(Run(config, h), ip, now)
  {
    BanPersists(config, h0, h, ip);
  }

  /** Why the gate is needed: an unguarded failure replaces a permanent ban by a temporary
      one exactly when the total stays below PermanentBanAt, the window count reaches
      MaxFailures and temporary bans are switched on. */
  lemma UnguardedFailureKeepsPermanentIff(config: Config, h: History, f: Op)
    requires f.Failure? && Monotone(Then(h, f))
    requires f.ip in Run(config, h).banned && Run(config, h).banned[f.ip].expiresAt.None?
    ensures var p := Run(config, Then(h, f));
            && f.ip in p.banned
            && (p.banned[f.ip].expiresAt.None? <==>
                !(&& Cumulative(config, h, f) < config.permanentBanAt
                  && Recent(config, h, f) >= config.maxFailures
                  && config.banDuration > 0.0))
  {
    hide StrictlyAfter, Step;
    BanDecision(config, h, f);
  }

  /** Such a history exists: a manual permanent ban and one unguarded failure. */
  lemma UnguardedFailureReplacesPermanent()
    ensures var config := Config(1, 300.0, 1800.0, 20);
            var h := Then(Start(0.0), Ban("ip", 0.0, 0.0));
            var f := Failure("ip", 1.0, 1.0, 1.0);
            && Monotone(Then(h, f)) && "ip" in Run(config, h).banned && "ip" in Run(config, Then(h, f)).banned
            && Run(config, h).banned["ip"].expiresAt == None
            && Run(config, Then(h, f)).banned["ip"].expiresAt == Some(1801.0)
  {
    var h := Then(Start(0.0), Ban("ip", 0.0, 0.0));
    assert Monotone(Start(0.0)) && Monotone(h);
    assert Run(Config(1, 300.0, 1800.0, 20), h).banned == map["ip" := BanRecord(0.0, None, 0)];
    assert FailuresSince(h, "ip") == [] && FailuresSince(h, "ip") + [1.0] == [1.0];
    PruneOne(1.0, -299.0);
    BanDecision(Config(1, 300.0, 1800.0, 20), h, Failure("ip", 1.0, 1.0, 1.0));
  }
}
