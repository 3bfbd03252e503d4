/** The tunnel pool of internal/client/tunnel_pool.go for one mapping, as a machine whose steps
    are the atomic actions of concurrent Get, Put, Close, cleanup and Shutdown calls. */
module TunnelPoolModel {
  import opened Options

  datatype Config = Config(enabled: bool, maxIdle: nat, maxActive: nat)

  // ---------------------------------------------------------------------------
  // The shared state and the atomic actions on it
  // ---------------------------------------------------------------------------

  /** The fields of MappingPool, and the connections whose inUse flag is set. */
  datatype Core<C> = Core(idle: seq<C>, inUse: set<C>, active: int, token: bool, closed: bool)

  /** `getIdle`: pop from the end until a connection is found whose flag can be set. */
  function Pop<C(==)>(s: Core<C>): (Option<C>, Core<C>)
    decreases |s.idle|
  {
    if s.idle == [] then (None, s)
    else
      var last := |s.idle| - 1;
      var c := s.idle[last];
      if c in s.inUse then Pop(s.(idle := s.idle[..last]))
      else (Some(c), s.(idle := s.idle[..last], inUse := s.inUse + {c}))
  }

  function Keep<C(==)>(idle: seq<C>, stale: set<C>): seq<C> {
    if idle == [] then []
    else
      var rest := Keep(idle[..|idle| - 1], stale);
      if idle[|idle| - 1] in stale then rest else rest + [idle[|idle| - 1]]
  }

  /** `cleanupIdleConns`: close the stale idle connections, keep the others in order. */
  function Sweep<C(==)>(s: Core<C>, stale: set<C>): Core<C> {
    var kept := Keep(s.idle, stale);
    s.(idle := kept, active := s.active - (|s.idle| - |kept|))
  }

  /** `MappingPool.close`: the idle connections are closed, but the counter is left alone. */
  function Shut<C(==)>(s: Core<C>): Core<C> {
    s.(closed := true, idle := [])
  }

  // ---------------------------------------------------------------------------
  // Calls in progress
  // ---------------------------------------------------------------------------

  /** Where every connection and every running call is. A Get first looks for an idle
      connection, is `missed` when there is none, may be `waiting` at the cap, looks again when
      `woken`, is `committed` once it will create, and `dialing` once it is counted. */
  datatype Pool<C> = Pool(
    core: Core<C>,
    held: set<C>, probing: set<C>, reprobing: set<C>, returning: set<C>,
    looking: nat, missed: nat, waiting: nat, woken: nat, committed: nat, dialing: nat,
    notifying: nat, accepted: nat, consumed: nat)

  datatype Step<C> =
    | BeginGet
    | Look                  // a first-time looker runs getIdle
    | LookAgain             // a woken waiter runs getIdle
    | ProbeOk(c: C)         // the health check passed: Get returns
    | ProbeBad(c: C)        // it failed: closeConn, and look on
    | CheckCap
    | TakeToken
    | GiveUp                // timeout or cancellation while waiting
    | Count                 // active.Add(1)
    | DialOk(c: C)
    | DialFail
    | BeginPut(c: C)        // inUse.Store(false)
    | Reject(c: C)          // pool closed, connection invalid or pool full: closeConn
    | Accept(c: C)          // append to idle
    | Notify                // non-blocking send on idleCh
    | CloseHeld(c: C)
    | Cleanup(stale: set<C>)
    | Shutdown

  function NewPool<C(==)>(): Pool<C> {
    Pool(Core([], {}, 0, false, false), {}, {}, {}, {}, 0, 0, 0, 0, 0, 0, 0, 0, 0)
  }

  /** Every connection that has ever been in the pool's hands and is not closed. */
  function Live<C(==)>(s: Pool<C>): set<C> {
    s.held + s.probing + s.reprobing + s.returning + (set c | c in s.core.idle)
  }

  /** Get calls in progress. */
  function Gets<C(==)>(s: Pool<C>): nat {
    s.looking + |s.probing| + s.missed + s.waiting + s.woken + |s.reprobing| + s.committed + s.dialing
  }

  predicate Enabled<C(==)>(cfg: Config, s: Pool<C>, step: Step<C>) {
    match step
    case BeginGet => true
    case Look => s.looking > 0
    case LookAgain => s.woken > 0
    case ProbeOk(c) => c in s.probing + s.reprobing
    case ProbeBad(c) => c in s.probing + s.reprobing
    case CheckCap => s.missed > 0
    case TakeToken => s.waiting > 0 && s.core.token
    case GiveUp => s.waiting > 0
    case Count => s.committed > 0
    case DialOk(c) => s.dialing > 0 && c !in Live(s) && c !in s.core.inUse
    case DialFail => s.dialing > 0
    case BeginPut(c) => c in s.held
    case Reject(c) => c in s.returning
    case Accept(c) => c in s.returning && |s.core.idle| < cfg.maxIdle
    case Notify => s.notifying > 0
    case CloseHeld(c) => c in s.held
    case Cleanup(_) => true
    case Shutdown => true
  }

  /** Get hands out a connection that passed the health check. */
  function Return<C(==)>(s: Pool<C>, c: C): Pool<C> {
    if c in s.probing then s.(probing := s.probing - {c}, held := s.held + {c})
    else s.(reprobing := s.reprobing - {c}, held := s.held + {c})
  }

  /** closeConn of a connection that failed it; the Get looks on. */
  function Discard<C(==)>(s: Pool<C>, c: C): Pool<C> {
    var core' := s.core.(active := s.core.active - 1);
    if c in s.probing then s.(core := core', probing := s.probing - {c}, looking := s.looking + 1)
    else s.(core := core', reprobing := s.reprobing - {c}, woken := s.woken + 1)
  }

  function Apply<C(==)>(cfg: Config, s: Pool<C>, step: Step<C>): Pool<C>
    requires Enabled(cfg, s, step)
  {
    var core := s.core;
    match step
    case BeginGet => if cfg.enabled then s.(looking := s.looking + 1) else s.(committed := s.committed + 1)
    case Look =>
      (match Pop(core)
       case (None, core') => s.(core := core', looking := s.looking - 1, missed := s.missed + 1)
       case (Some(c), core') => s.(core := core', looking := s.looking - 1, probing := s.probing + {c}))
    case LookAgain =>
      (match Pop(core)
       case (None, core') => s.(core := core', woken := s.woken - 1, committed := s.committed + 1)
       case (Some(c), core') => s.(core := core', woken := s.woken - 1, reprobing := s.reprobing + {c}))
    case ProbeOk(c) => Return(s, c)
    case ProbeBad(c) => Discard(s, c)
    case CheckCap =>
      if core.active >= cfg.maxActive then s.(missed := s.missed - 1, waiting := s.waiting + 1)
      else s.(missed := s.missed - 1, committed := s.committed + 1)
    case TakeToken =>
      s.(core := core.(token := false), waiting := s.waiting - 1, woken := s.woken + 1, consumed := s.consumed + 1)
    case GiveUp => s.(waiting := s.waiting - 1)
    case Count => s.(core := core.(active := core.active + 1), committed := s.committed - 1, dialing := s.dialing + 1)
    case DialOk(c) =>
      s.(core := core.(inUse := core.inUse + {c}), dialing := s.dialing - 1, held := s.held + {c})
    case DialFail => s.(core := core.(active := core.active - 1), dialing := s.dialing - 1)
    case BeginPut(c) =>
      s.(core := core.(inUse := core.inUse - {c}), held := s.held - {c}, returning := s.returning + {c})
    case Reject(c) => s.(core := core.(active := core.active - 1), returning := s.returning - {c})
    case Accept(c) =>
      s.(core := core.(idle := core.idle + [c]), returning := s.returning - {c},
         notifying := s.notifying + 1, accepted := s.accepted + 1)
    case Notify => s.(core := core.(token := true), notifying := s.notifying - 1)
    case CloseHeld(c) => s.(core := core.(active := core.active - 1), held := s.held - {c})
    case Cleanup(stale) => s.(core := Sweep(core, stale))
    case Shutdown => s.(core := Shut(core))
  }

  /** A run: the steps taken so far, each enabled where it was taken. A Reject stands for a full
      pool, a closed pool or a connection that is no longer valid, and may happen in any state. */
  datatype History<C> = Start | Then(before: History<C>, step: Step<C>)

  /** The state a run leads to, or None if one of its steps was not possible. */
  function Reached<C(==)>(cfg: Config, h: History<C>): Option<Pool<C>> {
    match h
    case Start => Some(NewPool())
    case Then(before, step) =>
      match Reached(cfg, before)
      case None => None
      case Some(s) => if Enabled(cfg, s, step) then Some(Apply(cfg, s, step)) else None
  }

  predicate BeforeShutdown<C>(h: History<C>) {
    h.Then? ==> BeforeShutdown(h.before) && !h.step.Shutdown?
  }

  // ---------------------------------------------------------------------------
  // Conservation
  // ---------------------------------------------------------------------------

  predicate NoDuplicates<C(==)>(idle: seq<C>) {
    forall i, j :: 0 <= i < j < |idle| ==> idle[i] != idle[j]
  }

  /** Each connection is in one place, and only the held and probed ones are in use. */
  ghost predicate OnePlaceEach<C>(cfg: Config, s: Pool<C>) {
    && NoDuplicates(s.core.idle)
    && |s.core.idle| <= cfg.maxIdle
    && s.held !! s.probing && s.held !! s.reprobing && s.probing !! s.reprobing
    && s.held <= s.core.inUse && s.probing <= s.core.inUse && s.reprobing <= s.core.inUse
    && s.returning !! s.core.inUse
    && (forall c :: c in s.core.idle ==> c !in s.core.inUse && c !in s.returning)
  }

  /** The active counter is the number of connections in use, on their way back or idle, plus
      the number being dialled. */
  ghost predicate Balanced<C>(s: Pool<C>) {
    Surplus(s) == 0
  }

  /** By how much the active counter is too high. */
  function Surplus<C(==)>(s: Pool<C>): int {
    s.core.active - (|s.held| + |s.probing| + |s.reprobing| + |s.returning| + |s.core.idle| + s.dialing)
  }

  ghost predicate Sound<C>(cfg: Config, s: Pool<C>) {
    OnePlaceEach(cfg, s) && Balanced(s)
  }

  /** In a sound pool getIdle takes the most recently returned connection. */
  lemma PopTakesLast<C>(cfg: Config, s: Pool<C>)
    requires OnePlaceEach(cfg, s)
    ensures var idle := s.core.idle;
            Pop(s.core) == if idle == [] then (None, s.core)
                           else (Some(idle[|idle| - 1]),
                                 s.core.(idle := idle[..|idle| - 1], inUse := s.core.inUse + {idle[|idle| - 1]}))
  {}

  /** The sweep treats every idle connection on its own: it keeps a connection that is not stale,
      and the order of those it keeps. */
  lemma {:induction false} KeepJoins<C>(a: seq<C>, b: seq<C>, stale: set<C>)
    ensures Keep(a + b, stale) == Keep(a, stale) + Keep(b, stale)
    ensures |a| == 1 ==> Keep(a, stale) == if a[0] in stale then [] else a
    decreases |b|
  {
    if b == [] {
      assert a + b == a;
    } else {
      var front := b[..|b| - 1];
      assert (a + b)[..|a + b| - 1] == a + front;
      KeepJoins(a, front, stale);
    }
  }

  /** What a cleanup leaves: the idle connections that are not stale, and a counter lowered by
      the number of the others. */
  lemma SweepLeavesExactly<C>(s: Core<C>, stale: set<C>)
    requires NoDuplicates(s.idle)
    ensures var s' := Sweep(s, stale);
            && (forall c :: c in s'.idle <==> c in s.idle && c !in stale)
            && NoDuplicates(s'.idle) && s'.active - |s'.idle| == s.active - |s.idle|
            && s'.inUse == s.inUse && s'.token == s.token && s'.closed == s.closed
  {
    hide Keep, NoDuplicates;
    KeepProperties(s.idle, stale);
  }

  lemma {:induction false} KeepProperties<C>(idle: seq<C>, stale: set<C>)
    requires NoDuplicates(idle)
    ensures NoDuplicates(Keep(idle, stale)) && |Keep(idle, stale)| <= |idle|
    ensures forall c :: c in Keep(idle, stale) <==> c in idle && c !in stale
    decreases |idle|
  {
    if idle != [] {
      var init, last := idle[..|idle| - 1], idle[|idle| - 1];
      assert idle == init + [last];
      KeepProperties(init, stale);
    }
  }

  lemma LookKeepsPlaces<C>(cfg: Config, s: Pool<C>, step: Step<C>)
    requires OnePlaceEach(cfg, s) && Enabled(cfg, s, step) && (step.Look? || step.LookAgain?)
    ensures OnePlaceEach(cfg, Apply(cfg, s, step))
  {
    PopTakesLast(cfg, s);
    hide Pop, Surplus;
  }

  lemma IdleIsNotProbed<C>(cfg: Config, s: Pool<C>, c: C)
    requires OnePlaceEach(cfg, s) && c in s.core.idle
    ensures c !in s.probing && c !in s.reprobing
  {}

  lemma LookKeepsBalance<C>(cfg: Config, s: Pool<C>, step: Step<C>)
    requires OnePlaceEach(cfg, s) && Enabled(cfg, s, step) && (step.Look? || step.LookAgain?)
    ensures Surplus(Apply(cfg, s, step)) == Surplus(s)
  {
    hide Pop, OnePlaceEach;
    PopTakesLast(cfg, s);
    if s.core.idle != [] {
      IdleIsNotProbed(cfg, s, s.core.idle[|s.core.idle| - 1]);
    }
  }

  lemma ReturnKeepsPlaces<C>(cfg: Config, s: Pool<C>, c: C)
    requires OnePlaceEach(cfg, s) && c in s.probing + s.reprobing
    ensures OnePlaceEach(cfg, Return(s, c)) && c !in s.held
  {
    hide NoDuplicates;
  }

  lemma ReturnKeepsBalance<C>(s: Pool<C>, c: C)
    requires c in s.probing + s.reprobing && c !in s.held
    ensures Surplus(Return(s, c)) == Surplus(s)
  {}

  lemma DiscardKeepsPlaces<C>(cfg: Config, s: Pool<C>, c: C)
    requires OnePlaceEach(cfg, s) && c in s.probing + s.reprobing
    ensures OnePlaceEach(cfg, Discard(s, c))
  {
    hide NoDuplicates;
  }

  lemma DiscardKeepsBalance<C>(s: Pool<C>, c: C)
    requires c in s.probing + s.reprobing
    ensures Surplus(Discard(s, c)) == Surplus(s)
  {}

  lemma CountersKeepSound<C>(cfg: Config, s: Pool<C>, step: Step<C>)
    requires OnePlaceEach(cfg, s) && Enabled(cfg, s, step)
    requires step.BeginGet? || step.CheckCap? || step.TakeToken? || step.GiveUp? || step.Count? || step.DialFail? || step.Notify?
    ensures OnePlaceEach(cfg, Apply(cfg, s, step)) && Surplus(Apply(cfg, s, step)) == Surplus(s)
  {
    hide NoDuplicates;
  }

  lemma DialKeepsPlaces<C>(cfg: Config, s: Pool<C>, c: C)
    requires OnePlaceEach(cfg, s) && Enabled(cfg, s, DialOk(c))
    ensures OnePlaceEach(cfg, Apply(cfg, s, DialOk(c)))
  {
    hide Surplus, NoDuplicates;
  }

  lemma DialKeepsBalance<C>(cfg: Config, s: Pool<C>, c: C)
    requires Enabled(cfg, s, DialOk(c))
    ensures Surplus(Apply(cfg, s, DialOk(c))) == Surplus(s)
  {
    hide OnePlaceEach;
  }

  lemma PutKeepsPlaces<C>(cfg: Config, s: Pool<C>, step: Step<C>)
    requires OnePlaceEach(cfg, s) && Enabled(cfg, s, step)
    requires step.BeginPut? || step.Reject? || step.Accept? || step.CloseHeld?
    ensures OnePlaceEach(cfg, Apply(cfg, s, step))
  {
    hide Surplus;
  }

  lemma HeldIsNotReturning<C>(cfg: Config, s: Pool<C>, c: C)
    requires OnePlaceEach(cfg, s) && c in s.held
    ensures c !in s.returning
  {}

  lemma PutKeepsBalance<C>(cfg: Config, s: Pool<C>, step: Step<C>)
    requires OnePlaceEach(cfg, s) && Enabled(cfg, s, step)
    requires step.BeginPut? || step.Reject? || step.Accept? || step.CloseHeld?
    ensures Surplus(Apply(cfg, s, step)) == Surplus(s)
  {
    hide OnePlaceEach;
    if step.BeginPut? {
      HeldIsNotReturning(cfg, s, step.c);
    }
  }

  lemma CleanupKeepsSound<C>(cfg: Config, s: Pool<C>, stale: set<C>)
    requires OnePlaceEach(cfg, s)
    ensures OnePlaceEach(cfg, Apply(cfg, s, Cleanup(stale))) && Surplus(Apply(cfg, s, Cleanup(stale))) == Surplus(s)
  {
    KeepProperties(s.core.idle, stale);
    hide Pop, Keep;
  }

  lemma ProbeKeepsSound<C>(cfg: Config, s: Pool<C>, step: Step<C>)
    requires OnePlaceEach(cfg, s) && Enabled(cfg, s, step) && (step.ProbeOk? || step.ProbeBad?)
    ensures OnePlaceEach(cfg, Apply(cfg, s, step)) && Surplus(Apply(cfg, s, step)) == Surplus(s)
  {
    hide OnePlaceEach, Surplus, Return, Discard;
    if step.ProbeOk? {
      ReturnKeepsPlaces(cfg, s, step.c);
      ReturnKeepsBalance(s, step.c);
    } else {
      DiscardKeepsPlaces(cfg, s, step.c);
      DiscardKeepsBalance(s, step.c);
    }
  }

  /** Every step but Shutdown keeps each connection in one place, and the counter as far off as
      it was. */
  lemma PlacesAreKept<C>(cfg: Config, s: Pool<C>, step: Step<C>)
    requires OnePlaceEach(cfg, s) && Enabled(cfg, s, step) && !step.Shutdown?
    ensures OnePlaceEach(cfg, Apply(cfg, s, step)) && Surplus(Apply(cfg, s, step)) == Surplus(s)
  {
    hide OnePlaceEach, Surplus, Enabled, Apply;
    if step.Look? || step.LookAgain? {
      LookKeepsPlaces(cfg, s, step);
      LookKeepsBalance(cfg, s, step);
    } else if step.ProbeOk? || step.ProbeBad? {
      ProbeKeepsSound(cfg, s, step);
    } else if step.DialOk? {
      DialKeepsPlaces(cfg, s, step.c);
      DialKeepsBalance(cfg, s, step.c);
    } else if step.BeginPut? || step.Reject? || step.Accept? || step.CloseHeld? {
      PutKeepsPlaces(cfg, s, step);
      PutKeepsBalance(cfg, s, step);
    } else if step.Cleanup? {
      CleanupKeepsSound(cfg, s, step.stale);
    } else {
      CountersKeepSound(cfg, s, step);
    }
  }

  lemma SoundIsKept<C>(cfg: Config, s: Pool<C>, step: Step<C>)
    requires Sound(cfg, s) && Enabled(cfg, s, step) && !step.Shutdown?
    ensures Sound(cfg, Apply(cfg, s, step))
  {
    hide OnePlaceEach, Surplus, Enabled, Apply;
    PlacesAreKept(cfg, s, step);
  }

  /** Shutdown closes the idle connections without counting them out. */
  lemma ShutdownOvercounts<C>(cfg: Config, s: Pool<C>)
    requires OnePlaceEach(cfg, s)
    ensures OnePlaceEach(cfg, Apply(cfg, s, Shutdown))
    ensures Surplus(Apply(cfg, s, Shutdown)) == Surplus(s) + |s.core.idle|
  {}

  /** How many connections were idle at the Shutdown steps of a run. */
  function IdleAtShutdown<C(==)>(cfg: Config, h: History<C>): nat {
    match h
    case Start => 0
    case Then(before, step) =>
      IdleAtShutdown(cfg, before) +
      if step.Shutdown? && Reached(cfg, before).Some? then |Reached(cfg, before).value.core.idle| else 0
  }

  /** Main result, past shutdown: in every reachable state, whatever calls are interleaved, each
      connection is in one place and the active counter is too high by exactly the number of
      connections that were idle at a Shutdown. */
  lemma {:induction false} SurplusIsShutDown<C>(cfg: Config, h: History<C>)
    requires Reached(cfg, h).Some?
    ensures OnePlaceEach(cfg, Reached(cfg, h).value)
    ensures Surplus(Reached(cfg, h).value) == IdleAtShutdown(cfg, h)
    ensures Balanced(Reached(cfg, h).value) <==> IdleAtShutdown(cfg, h) == 0
  {
    hide OnePlaceEach, Surplus, Enabled, Apply;
    if h.Then? {
      SurplusIsShutDown(cfg, h.before);
      if h.step.Shutdown? {
        ShutdownOvercounts(cfg, Reached(cfg, h.before).value);
        ShutdownIsEnabled(cfg, Reached(cfg, h.before).value);
      } else {
        PlacesAreKept(cfg, Reached(cfg, h.before).value, h.step);
      }
    } else {
      NewPoolIsSound<C>(cfg);
    }
  }

  lemma ShutdownIsEnabled<C>(cfg: Config, s: Pool<C>)
    ensures Enabled(cfg, s, Shutdown)
  {}

  lemma NewPoolIsSound<C>(cfg: Config)
    ensures Sound(cfg, NewPool<C>())
  {}

  lemma {:induction false} NoneIdleAtShutdown<C>(cfg: Config, h: History<C>)
    requires BeforeShutdown(h)
    ensures IdleAtShutdown(cfg, h) == 0
  {
    hide Reached;
    if h.Then? {
      NoneIdleAtShutdown(cfg, h.before);
    }
  }

  /** Main result: in every state reached before shutdown, whatever calls are interleaved, the
      active counter equals the connections in use, on their way back or idle plus the dials in
      progress; the idle list has no duplicates, holds only connections that are not in use and
      is never longer than maxIdle; and every connection is in one place. */
  lemma Conservation<C>(cfg: Config, h: History<C>)
    requires Reached(cfg, h).Some? && BeforeShutdown(h)
    ensures Sound(cfg, Reached(cfg, h).value)
  {
    hide OnePlaceEach, Surplus, Reached;
    SurplusIsShutDown(cfg, h);
    NoneIdleAtShutdown(cfg, h);
  }

  /** No connection gets a second holder: whatever a Get returns was not held. */
  lemma GetReturnsUnheld<C>(cfg: Config, h: History<C>, step: Step<C>)
    requires Reached(cfg, Then(h, step)).Some? && BeforeShutdown(h) && (step.ProbeOk? || step.DialOk?)
    ensures var s, s' := Reached(cfg, h).value, Reached(cfg, Then(h, step)).value;
            step.c !in s.held && s'.held == s.held + {step.c}
  {
    hide Reached, Sound, Enabled, Apply;
    LastStep(cfg, h, step);
    Conservation(cfg, h);
    UnheldIsReturned(cfg, Reached(cfg, h).value, step);
  }

  lemma LastStep<C>(cfg: Config, h: History<C>, step: Step<C>)
    requires Reached(cfg, Then(h, step)).Some?
    ensures Reached(cfg, h).Some? && Enabled(cfg, Reached(cfg, h).value, step)
    ensures Reached(cfg, Then(h, step)).value == Apply(cfg, Reached(cfg, h).value, step)
  {
    hide Enabled, Apply;
  }

  lemma UnheldIsReturned<C>(cfg: Config, s: Pool<C>, step: Step<C>)
    requires Sound(cfg, s) && Enabled(cfg, s, step) && (step.ProbeOk? || step.DialOk?)
    ensures step.c !in s.held && Apply(cfg, s, step).held == s.held + {step.c}
  {
    hide Surplus, NoDuplicates;
    if step.DialOk? {
      assert step.c !in Live(s);
    }
  }

  // ---------------------------------------------------------------------------
  // The cap
  // ---------------------------------------------------------------------------

  /** `n` bounds the Gets in progress in every state of the run. */
  predicate AtMostGets<C(==)>(cfg: Config, h: History<C>, n: nat) {
    && Reached(cfg, h).Some? && Gets(Reached(cfg, h).value) <= n
    && (h.Then? ==> AtMostGets(cfg, h.before, n))
  }

  /** A creation at the cap has to be paid for with a wake-up token, and every token comes from
      an accepted Put; beyond that only Gets that run at the same time can overshoot. */
  ghost predicate Capped<C>(cfg: Config, s: Pool<C>, n: nat) {
    && s.core.active + s.committed + s.woken + |s.reprobing| <= cfg.maxActive + s.consumed + n - 1
    && s.consumed + s.notifying + (if s.core.token then 1 else 0) <= s.accepted
  }

  lemma LookKeepsCapped<C>(cfg: Config, s: Pool<C>, step: Step<C>, n: nat)
    requires Capped(cfg, s, n) && Enabled(cfg, s, step) && (step.Look? || step.LookAgain?)
    ensures Capped(cfg, Apply(cfg, s, step), n)
  {
    hide Pop, Live, Gets;
    PopChangesIdle(s.core);
  }

  lemma CountersKeepCapped<C>(cfg: Config, s: Pool<C>, step: Step<C>, n: nat)
    requires Capped(cfg, s, n) && Enabled(cfg, s, step) && cfg.enabled && Gets(s) <= n
    requires step.BeginGet? || step.CheckCap? || step.TakeToken? || step.GiveUp? || step.Count? || step.DialFail? || step.Notify?
    ensures Capped(cfg, Apply(cfg, s, step), n)
  {
    hide Live;
  }

  lemma ConnectionsKeepCapped<C>(cfg: Config, s: Pool<C>, step: Step<C>, n: nat)
    requires Capped(cfg, s, n) && Enabled(cfg, s, step)
    requires step.ProbeOk? || step.ProbeBad? || step.DialOk? || step.BeginPut? || step.Reject? || step.Accept? || step.CloseHeld?
    ensures Capped(cfg, Apply(cfg, s, step), n)
  {
    hide Live, Gets;
  }

  lemma SweepKeepsCapped<C>(cfg: Config, s: Pool<C>, step: Step<C>, n: nat)
    requires Capped(cfg, s, n) && Enabled(cfg, s, step) && (step.Cleanup? || step.Shutdown?)
    ensures Capped(cfg, Apply(cfg, s, step), n)
  {
    hide Keep, Live, Gets;
    if step.Cleanup? {
      KeepIsShorter(s.core.idle, step.stale);
    }
  }

  lemma CappedIsKept<C>(cfg: Config, s: Pool<C>, step: Step<C>, n: nat)
    requires Capped(cfg, s, n) && Enabled(cfg, s, step)
    requires cfg.enabled && Gets(s) <= n
    ensures Capped(cfg, Apply(cfg, s, step), n)
  {
    hide Capped, Enabled, Apply, Gets;
    if step.Look? || step.LookAgain? {
      LookKeepsCapped(cfg, s, step, n);
    } else if step.Cleanup? || step.Shutdown? {
      SweepKeepsCapped(cfg, s, step, n);
    } else if step.BeginGet? || step.CheckCap? || step.TakeToken? || step.GiveUp? || step.Count? || step.DialFail? || step.Notify? {
      CountersKeepCapped(cfg, s, step, n);
    } else {
      ConnectionsKeepCapped(cfg, s, step, n);
    }
  }

  lemma {:induction false} PopChangesIdle<C>(core: Core<C>)
    ensures var (_, core') := Pop(core);
            core'.active == core.active && core'.token == core.token && core'.closed == core.closed
    decreases |core.idle|
  {
    if core.idle != [] && core.idle[|core.idle| - 1] in core.inUse {
      PopChangesIdle(core.(idle := core.idle[..|core.idle| - 1]));
    }
  }

  lemma {:induction false} KeepIsShorter<C>(idle: seq<C>, stale: set<C>)
    ensures |Keep(idle, stale)| <= |idle|
    decreases |idle|
  {
    if idle != [] {
      KeepIsShorter(idle[..|idle| - 1], stale);
    }
  }

  lemma {:induction false} CappedWhenReached<C>(cfg: Config, h: History<C>, n: nat)
    requires cfg.enabled && 1 <= n && AtMostGets(cfg, h, n)
    ensures Capped(cfg, Reached(cfg, h).value, n)
  {
    if h.Then? {
      hide Capped, Enabled, Apply, Gets;
      CappedWhenReached(cfg, h.before, n);
      CappedIsKept(cfg, Reached(cfg, h.before).value, h.step, n);
    }
  }

  /** Main result: with at most `n` Gets in progress at a time, the counter never exceeds
      maxActive by more than the accepted Puts and the n - 1 overlapping Gets. When Gets do not
      overlap (n == 1) that is maxActive plus the number of accepted Puts. */
  lemma CapBound<C>(cfg: Config, h: History<C>, n: nat)
    requires cfg.enabled && 1 <= n && AtMostGets(cfg, h, n)
    ensures var s := Reached(cfg, h).value; s.core.active <= cfg.maxActive + s.accepted + n - 1
  {
    CappedWhenReached(cfg, h, n);
  }

  // ---------------------------------------------------------------------------
  // The bound is the best possible
  // ---------------------------------------------------------------------------

  // First n Gets that overlap pass the cap check together when only one connection is missing;
  // then, again and again, the token of a Put whose connection was taken straight from the idle
  // list pays for one connection too many.

  /** A run without a shutdown and with at most `n` Gets at a time that leads to `s`. */
  ghost predicate Leads(cfg: Config, n: nat, h: History<nat>, s: Pool<nat>) {
    AtMostGets(cfg, h, n) && Reached(cfg, h) == Some(s) && BeforeShutdown(h)
  }

  lemma StepLeads(cfg: Config, n: nat, h: History<nat>, s: Pool<nat>, step: Step<nat>, s': Pool<nat>)
    requires Leads(cfg, n, h, s) && Enabled(cfg, s, step) && Apply(cfg, s, step) == s' && Gets(s') <= n
    requires !step.Shutdown?
    ensures Leads(cfg, n, Then(h, step), s')
  {
    hide Enabled, Apply, Gets;
  }

  function First(n: nat): (f: set<nat>)
    ensures forall c: nat :: c in f <==> c < n
  {
    if n == 0 then {} else First(n - 1) + {n - 1}
  }

  /** Connections 0 to `made` - 1 are in use, `committed` Gets are about to be counted and
      `dialing` are dialling, and `puts` tokens were consumed. */
  function Busy(made: nat, committed: nat, dialing: nat, puts: nat): Pool<nat> {
    Pool(Core([], First(made), made + dialing, false, false), First(made), {}, {}, {},
         0, 0, 0, 0, committed, dialing, 0, puts, puts)
  }

  lemma NothingLeads(cfg: Config, n: nat)
    ensures Leads(cfg, n, Start, Busy(0, 0, 0, 0))
  {
    assert First(0) == {};
  }

  /** One more Get passes the cap check. */
  lemma CommitLeads(cfg: Config, n: nat, h: History<nat>, made: nat, committed: nat)
    requires Leads(cfg, n, h, Busy(made, committed, 0, 0))
    requires cfg.enabled && made < cfg.maxActive && committed < n
    ensures Leads(cfg, n, Then(Then(Then(h, BeginGet), Look), CheckCap), Busy(made, committed + 1, 0, 0))
  {
    hide Leads, First, Live;
    var s := Busy(made, committed, 0, 0);
    StepLeads(cfg, n, h, s, BeginGet, s.(looking := 1));
    StepLeads(cfg, n, Then(h, BeginGet), s.(looking := 1), Look, s.(missed := 1));
    StepLeads(cfg, n, Then(Then(h, BeginGet), Look), s.(missed := 1), CheckCap, Busy(made, committed + 1, 0, 0));
  }

  lemma {:induction false} CommitsLead(cfg: Config, n: nat, h: History<nat>, made: nat, committed: nat) returns (h': History<nat>)
    requires Leads(cfg, n, h, Busy(made, 0, 0, 0)) && cfg.enabled && made < cfg.maxActive && committed <= n
    ensures Leads(cfg, n, h', Busy(made, committed, 0, 0))
  {
    hide Leads, Busy;
    if committed == 0 {
      h' := h;
    } else {
      h' := CommitsLead(cfg, n, h, made, committed - 1);
      CommitLeads(cfg, n, h', made, committed - 1);
      h' := Then(Then(Then(h', BeginGet), Look), CheckCap);
    }
  }

  /** One committed Get is counted, dials and returns. */
  lemma DialLeads(cfg: Config, n: nat, h: History<nat>, made: nat, committed: nat, puts: nat)
    requires Leads(cfg, n, h, Busy(made, committed, 0, puts)) && 0 < committed <= n
    ensures Leads(cfg, n, Then(Then(h, Count), DialOk(made)), Busy(made + 1, committed - 1, 0, puts))
  {
    hide Leads, First, Pop;
    StepLeads(cfg, n, h, Busy(made, committed, 0, puts), Count, Busy(made, committed - 1, 1, puts));
    NewcomerIsNew(made);
    StepLeads(cfg, n, Then(h, Count), Busy(made, committed - 1, 1, puts), DialOk(made), Busy(made + 1, committed - 1, 0, puts));
  }

  lemma NewcomerIsNew(made: nat)
    ensures made !in First(made) && First(made) + {made} == First(made + 1)
  {}

  lemma {:induction false} DialsLead(cfg: Config, n: nat, h: History<nat>, made: nat, committed: nat, puts: nat)
    returns (h': History<nat>)
    requires Leads(cfg, n, h, Busy(made, committed, 0, puts)) && committed <= n
    ensures Leads(cfg, n, h', Busy(made + committed, 0, 0, puts))
    decreases committed
  {
    hide Leads, Busy;
    if committed == 0 {
      h' := h;
    } else {
      DialLeads(cfg, n, h, made, committed, puts);
      h' := DialsLead(cfg, n, Then(Then(h, Count), DialOk(made)), made + 1, committed - 1, puts);
    }
  }

  /** Gets one after the other, up to just below the cap. */
  lemma {:induction false} FillLeads(cfg: Config, n: nat, made: nat) returns (h: History<nat>)
    requires cfg.enabled && 1 <= n && made <= cfg.maxActive
    ensures Leads(cfg, n, h, Busy(made, 0, 0, 0))
  {
    hide Leads, Busy;
    if made == 0 {
      h := Start;
      NothingLeads(cfg, n);
    } else {
      h := FillLeads(cfg, n, made - 1);
      CommitLeads(cfg, n, h, made - 1, 0);
      h := Then(Then(Then(h, BeginGet), Look), CheckCap);
      DialLeads(cfg, n, h, made - 1, 1, 0);
      h := Then(Then(h, Count), DialOk(made - 1));
    }
  }

  /** Connection 0 is put back and its token waits. */
  function Spare(made: nat, puts: nat): Pool<nat>
    requires made > 0
  {
    Pool(Core([0], First(made) - {0}, made, true, false), First(made) - {0}, {}, {}, {},
         0, 0, 0, 0, 0, 0, 0, puts + 1, puts)
  }

  lemma PutLeads(cfg: Config, n: nat, h: History<nat>, made: nat, puts: nat)
    requires Leads(cfg, n, h, Busy(made, 0, 0, puts)) && made > 0 && cfg.maxIdle > 0
    ensures Leads(cfg, n, Then(Then(Then(h, BeginPut(0)), Accept(0)), Notify), Spare(made, puts))
  {
    hide Leads, First, Live, Pop;
    assert 0 in First(made) by { ZeroIsFirst(made); }
    var s := Busy(made, 0, 0, puts);
    var rest := First(made) - {0};
    var s1 := s.(core := s.core.(inUse := rest), held := rest, returning := {0});
    assert {} + {0} == {0} && {0} - {0} == {};
    StepLeads(cfg, n, h, s, BeginPut(0), s1);
    var s2 := Spare(made, puts).(core := Spare(made, puts).core.(token := false), notifying := 1);
    StepLeads(cfg, n, Then(h, BeginPut(0)), s1, Accept(0), s2);
    StepLeads(cfg, n, Then(Then(h, BeginPut(0)), Accept(0)), s2, Notify, Spare(made, puts));
  }

  lemma ZeroIsFirst(made: nat)
    requires made > 0
    ensures 0 in First(made) && First(made) - {0} + {0} == First(made)
  {}

  /** Everything is in use again, and the token is left over. */
  function Rich(made: nat, puts: nat): Pool<nat> {
    Busy(made, 0, 0, puts).(core := Core([], First(made), made, true, false), accepted := puts + 1)
  }

  lemma ReuseLeads(cfg: Config, n: nat, h: History<nat>, made: nat, puts: nat)
    requires made > 0 && Leads(cfg, n, h, Spare(made, puts)) && cfg.enabled && 1 <= n
    ensures Leads(cfg, n, Then(Then(Then(h, BeginGet), Look), ProbeOk(0)), Rich(made, puts))
  {
    hide Leads, First, Live;
    ZeroIsFirst(made);
    var s := Spare(made, puts);
    var s2 := s.(core := Core([], First(made), made, true, false), probing := {0});
    assert {} + {0} == {0} && {0} - {0} == {};
    assert Pop(s.core) == (Some(0), s2.core);
    StepLeads(cfg, n, h, s, BeginGet, s.(looking := 1));
    StepLeads(cfg, n, Then(h, BeginGet), s.(looking := 1), Look, s2);
    StepLeads(cfg, n, Then(Then(h, BeginGet), Look), s2, ProbeOk(0), Rich(made, puts));
  }

  lemma WaitLeads(cfg: Config, n: nat, h: History<nat>, made: nat, puts: nat)
    requires Leads(cfg, n, h, Rich(made, puts)) && cfg.enabled && cfg.maxActive <= made && 1 <= n
    ensures Leads(cfg, n, Then(Then(Then(h, BeginGet), Look), CheckCap), Rich(made, puts).(waiting := 1))
  {
    hide Leads, First, Live;
    var s := Rich(made, puts);
    StepLeads(cfg, n, h, s, BeginGet, s.(looking := 1));
    StepLeads(cfg, n, Then(h, BeginGet), s.(looking := 1), Look, s.(missed := 1));
    StepLeads(cfg, n, Then(Then(h, BeginGet), Look), s.(missed := 1), CheckCap, s.(waiting := 1));
  }

  lemma TokenLeads(cfg: Config, n: nat, h: History<nat>, made: nat, puts: nat)
    requires Leads(cfg, n, h, Rich(made, puts).(waiting := 1)) && 1 <= n
    ensures Leads(cfg, n, Then(Then(h, TakeToken), LookAgain), Busy(made, 1, 0, puts + 1))
  {
    hide Leads, First, Live;
    var s := Rich(made, puts).(waiting := 1);
    var s1 := Busy(made, 0, 0, puts + 1).(woken := 1);
    StepLeads(cfg, n, h, s, TakeToken, s1);
    StepLeads(cfg, n, Then(h, TakeToken), s1, LookAgain, Busy(made, 1, 0, puts + 1));
  }

  /** One accepted Put raises a full pool by one connection. */
  lemma RoundLeads(cfg: Config, n: nat, h: History<nat>, made: nat, puts: nat) returns (h': History<nat>)
    requires Leads(cfg, n, h, Busy(made, 0, 0, puts)) && cfg.enabled && 1 <= n && cfg.maxIdle > 0
    requires 0 < made && cfg.maxActive <= made
    ensures Leads(cfg, n, h', Busy(made + 1, 0, 0, puts + 1))
  {
    hide Leads, Busy, Spare, Rich;
    PutLeads(cfg, n, h, made, puts);
    h' := Then(Then(Then(h, BeginPut(0)), Accept(0)), Notify);
    ReuseLeads(cfg, n, h', made, puts);
    h' := Then(Then(Then(h', BeginGet), Look), ProbeOk(0));
    WaitLeads(cfg, n, h', made, puts);
    h' := Then(Then(Then(h', BeginGet), Look), CheckCap);
    TokenLeads(cfg, n, h', made, puts);
    h' := Then(Then(h', TakeToken), LookAgain);
    DialLeads(cfg, n, h', made, 1, puts + 1);
    h' := Then(Then(h', Count), DialOk(made));
  }

  lemma {:induction false} RoundsLead(cfg: Config, n: nat, h: History<nat>, made: nat, k: nat) returns (h': History<nat>)
    requires Leads(cfg, n, h, Busy(made, 0, 0, 0)) && cfg.enabled && 1 <= n && cfg.maxIdle > 0
    requires 0 < made && cfg.maxActive <= made
    ensures Leads(cfg, n, h', Busy(made + k, 0, 0, k))
  {
    hide Leads, Busy;
    if k == 0 {
      h' := h;
    } else {
      h' := RoundsLead(cfg, n, h, made, k - 1);
      h' := RoundLeads(cfg, n, h', made + k - 1, k - 1);
    }
  }

  /** Main result: no smaller bound holds. For every pool that can hold an idle connection and
      every `n` and `k` there is a run before shutdown, with at most `n` Gets at a time and
      exactly `k` accepted Puts, in which the bound of CapBound is reached. */
  lemma CapBoundIsReached(cfg: Config, n: nat, k: nat) returns (h: History<nat>)
    requires cfg.enabled && 1 <= cfg.maxActive && 1 <= cfg.maxIdle && 1 <= n
    ensures AtMostGets(cfg, h, n) && BeforeShutdown(h)
    ensures var s := Reached(cfg, h).value; s.accepted == k && s.core.active == cfg.maxActive + k + n - 1
  {
    hide Leads, Busy;
    h := FillLeads(cfg, n, cfg.maxActive - 1);
    h := CommitsLead(cfg, n, h, cfg.maxActive - 1, n);
    h := DialsLead(cfg, n, h, cfg.maxActive - 1, n, 0);
    h := RoundsLead(cfg, n, h, cfg.maxActive - 1 + n, k);
    LeadsTo(cfg, n, h, cfg.maxActive - 1 + n + k, k);
  }

  lemma LeadsTo(cfg: Config, n: nat, h: History<nat>, made: nat, puts: nat)
    requires Leads(cfg, n, h, Busy(made, 0, 0, puts))
    ensures AtMostGets(cfg, h, n) && BeforeShutdown(h) && Reached(cfg, h).value.accepted == puts && Reached(cfg, h).value.core.active == made
  {}

  /** So the cap itself is exceeded, by any number, even when Gets do not overlap. */
  lemma CapIsExceeded(cfg: Config, k: nat) returns (h: History<nat>)
    requires cfg.enabled && 1 <= cfg.maxActive && 1 <= cfg.maxIdle
    ensures AtMostGets(cfg, h, 1) && BeforeShutdown(h) && Reached(cfg, h).value.core.active == cfg.maxActive + k
  {
    h := CapBoundIsReached(cfg, 1, k);
  }
}
