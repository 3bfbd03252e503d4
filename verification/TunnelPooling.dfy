/** The pool of one mapping as the source writes it: a mutable idle slice of connection objects,
    an atomic counter and a one-slot wake-up channel. Each method is proved to do to the shared
    state what the atomic actions of TunnelPoolModel do. */
module TunnelPooling {
  import opened Options
  import opened TunnelPoolModel

  // ---------------------------------------------------------------------------
  // Whole calls as functions on the shared state
  // ---------------------------------------------------------------------------

  /** `getHealthyIdleConn`: pop until a healthy connection is found, closing the others. */
  function PopHealthy<C(==)>(s: Core<C>, healthy: set<C>): (Option<C>, Core<C>)
    decreases |s.idle|
  {
    PopShrinks(s);
    match Pop(s)
    case (None, s') => (None, s')
    case (Some(c), s') => if c in healthy then (Some(c), s') else PopHealthy(s'.(active := s'.active - 1), healthy)
  }

  lemma {:induction false} PopShrinks<C>(s: Core<C>)
    ensures var (c, s') := Pop(s); |s'.idle| <= |s.idle| && (c.Some? ==> |s'.idle| < |s.idle|)
    ensures var (c, s') := Pop(s); forall x :: x in s'.idle ==> x in s.idle
    ensures Pop(s).0.Some? ==> Pop(s).0.value in s.idle
    decreases |s.idle|
  {
    if s.idle != [] && s.idle[|s.idle| - 1] in s.inUse {
      PopShrinks(s.(idle := s.idle[..|s.idle| - 1]));
    }
  }

  /** `Put` of a connection that is still valid, or not. */
  function PutBack<C(==)>(s: Core<C>, c: C, valid: bool, maxIdle: nat): Core<C> {
    var released := s.(inUse := s.inUse - {c});
    if s.closed || !valid || |s.idle| >= maxIdle then released.(active := s.active - 1)
    else released.(idle := s.idle + [c], token := true)
  }

  /** `createNewConn`; `made` is the connection the dial gave, if it succeeded. */
  function Create<C(==)>(s: Core<C>, made: Option<C>): (Option<C>, Core<C>) {
    match made
    case None => (None, s)
    case Some(c) => (made, s.(active := s.active + 1, inUse := s.inUse + {c}))
  }

  /** `Get` with nothing else going on: without a token a caller at the cap times out. */
  function GetConn<C(==)>(s: Core<C>, cfg: Config, healthy: set<C>, made: Option<C>): (Option<C>, Core<C>) {
    if !cfg.enabled then Create(s, made)
    else
      match PopHealthy(s, healthy)
      case (Some(c), s') => (Some(c), s')
      case (None, s') => Missing(s', cfg, healthy, made)
  }

  /** The rest of `Get` when no idle connection was found: create below the cap, or take a token
      and look again. */
  function Missing<C(==)>(s: Core<C>, cfg: Config, healthy: set<C>, made: Option<C>): (Option<C>, Core<C>) {
    if s.active < cfg.maxActive then Create(s, made)
    else if !s.token then (None, s)
    else SearchOrCreate(s.(token := false), healthy, made)
  }

  function SearchOrCreate<C(==)>(s: Core<C>, healthy: set<C>, made: Option<C>): (Option<C>, Core<C>) {
    match PopHealthy(s, healthy)
    case (Some(c), s') => (Some(c), s')
    case (None, s') => Create(s', made)
  }

  /** Whether a Get with nothing else going on dials. */
  predicate Creates<C(==)>(s: Core<C>, cfg: Config, healthy: set<C>) {
    !cfg.enabled || (
      var (r, s') := PopHealthy(s, healthy);
      && r.None?
      && (s'.active < cfg.maxActive || (s'.token && PopHealthy(s'.(token := false), healthy).0.None?)))
  }

  lemma NoDuplicatesInFront<C>(idle: seq<C>)
    requires NoDuplicates(idle) && idle != []
    ensures NoDuplicates(idle[..|idle| - 1]) && idle[|idle| - 1] !in idle[..|idle| - 1]
  {}

  /** One search step: pop the last idle connection, and go on without it if it is unhealthy. */
  lemma SearchStep<C>(s: Core<C>, healthy: set<C>)
    requires s.idle != [] && s.idle[|s.idle| - 1] !in s.inUse
    ensures var last := |s.idle| - 1;
            var c, taken := s.idle[last], s.(idle := s.idle[..last], inUse := s.inUse + {s.idle[last]});
            PopHealthy(s, healthy) ==
            if c in healthy then (Some(c), taken) else PopHealthy(taken.(active := taken.active - 1), healthy)
  {
    var last := |s.idle| - 1;
    assert Pop(s) == (Some(s.idle[last]), s.(idle := s.idle[..last], inUse := s.inUse + {s.idle[last]}));
  }

  /** In a pool whose idle connections are not in use, Get reuses the most recently returned
      healthy connection; the unhealthy ones after it are closed and counted out. */
  lemma {:induction false} TakesLastHealthy<C>(s: Core<C>, healthy: set<C>)
    requires NoDuplicates(s.idle) && forall c :: c in s.idle ==> c !in s.inUse
    ensures var (r, s') := PopHealthy(s, healthy);
            && |s'.idle| <= |s.idle| && s'.idle == s.idle[..|s'.idle|]
            && s'.token == s.token && s'.closed == s.closed
            && (r.None? ==> s'.idle == [] && s'.active == s.active - |s.idle| && forall c :: c in s.idle ==> c !in healthy)
            && (r.Some? ==>
                  && |s'.idle| < |s.idle| && r.value == s.idle[|s'.idle|] && r.value in healthy && r.value in s'.inUse
                  && s'.active == s.active - (|s.idle| - |s'.idle| - 1)
                  && forall i :: |s'.idle| < i < |s.idle| ==> s.idle[i] !in healthy)
    decreases |s.idle|
  {
    hide PopHealthy, Pop, NoDuplicates;
    if s.idle == [] {
      EmptySearch(s, healthy);
    } else {
      var last := |s.idle| - 1;
      var c := s.idle[last];
      SearchStep(s, healthy);
      NoDuplicatesInFront(s.idle);
      if c !in healthy {
        var next := Core(s.idle[..last], s.inUse + {c}, s.active - 1, s.token, s.closed);
        TakesLastHealthy(next, healthy);
        assert forall i :: 0 <= i < last ==> next.idle[i] == s.idle[i];
        forall x | x in s.idle && PopHealthy(next, healthy).0.None? ensures x !in healthy {
          var i :| 0 <= i < |s.idle| && s.idle[i] == x;
          assert i < last ==> next.idle[i] in next.idle;
        }
      }
    }
  }

  /** The place of the last idle connection that is healthy; -1 if there is none. */
  function LastHealthy<C(==)>(idle: seq<C>, healthy: set<C>): (k: int)
    ensures -1 <= k < |idle| && (k >= 0 ==> idle[k] in healthy)
    ensures forall i :: k < i < |idle| ==> idle[i] !in healthy
  {
    if idle == [] then -1
    else if idle[|idle| - 1] in healthy then |idle| - 1
    else LastHealthy(idle[..|idle| - 1], healthy)
  }

  /** Everything the search takes from the idle list is marked as in use. */
  lemma {:induction false} SearchMarksTaken<C>(s: Core<C>, healthy: set<C>)
    requires NoDuplicates(s.idle) && forall c :: c in s.idle ==> c !in s.inUse
    ensures var left := PopHealthy(s, healthy).1;
            |left.idle| <= |s.idle| && left.inUse == s.inUse + Taken(s, |left.idle|)
    decreases |s.idle|
  {
    hide PopHealthy, Pop, NoDuplicates, Taken;
    TakesLastHealthy(s, healthy);
    if s.idle == [] {
      EmptySearch(s, healthy);
      TakenNothing(s);
    } else {
      var last := |s.idle| - 1;
      var c := s.idle[last];
      SearchStep(s, healthy);
      NoDuplicatesInFront(s.idle);
      TakenGrows(s, last);
      if c !in healthy {
        var next := Core(s.idle[..last], s.inUse + {c}, s.active - 1, s.token, s.closed);
        FrontNotInUse(s);
        SearchMarksTaken(next, healthy);
        TakenGrows(s, |PopHealthy(next, healthy).1.idle|);
      }
    }
  }

  /** The idle connections from place `left` on. */
  function Taken<C(==)>(s: Core<C>, left: nat): set<C>
    requires left <= |s.idle|
  {
    set c | c in s.idle[left..]
  }

  lemma TakenNothing<C>(s: Core<C>)
    ensures Taken(s, |s.idle|) == {}
  {}

  lemma TakenGrows<C>(s: Core<C>, left: nat)
    requires left < |s.idle|
    ensures var last := |s.idle| - 1;
            var front := Core(s.idle[..last], s.inUse + {s.idle[last]}, s.active - 1, s.token, s.closed);
            && s.inUse + Taken(s, left) == front.inUse + Taken(front, left)
            && (left == last ==> s.inUse + Taken(s, left) == front.inUse)
  {
    assert s.idle[left..] == s.idle[..|s.idle| - 1][left..] + [s.idle[|s.idle| - 1]];
  }

  lemma FrontNotInUse<C>(s: Core<C>)
    requires s.idle != [] && NoDuplicates(s.idle) && forall c :: c in s.idle ==> c !in s.inUse
    ensures var last := |s.idle| - 1; forall c :: c in s.idle[..last] ==> c !in s.inUse + {s.idle[last]}
  {
    NoDuplicatesInFront(s.idle);
  }

  lemma LastHealthyIs<C>(idle: seq<C>, healthy: set<C>, k: int)
    requires -1 <= k < |idle| && (k >= 0 ==> idle[k] in healthy)
    requires forall i :: k < i < |idle| ==> idle[i] !in healthy
    ensures LastHealthy(idle, healthy) == k
  {
    hide LastHealthy;
  }

  lemma SearchReturns<C>(s: Core<C>, healthy: set<C>)
    requires NoDuplicates(s.idle) && forall c :: c in s.idle ==> c !in s.inUse
    ensures var k := LastHealthy(s.idle, healthy);
            var left := if k < 0 then 0 else k;
            PopHealthy(s, healthy) ==
            (if k < 0 then None else Some(s.idle[k]),
             Core(s.idle[..left], s.inUse + Taken(s, left), s.active - (|s.idle| - k - 1), s.token, s.closed))
  {
    hide PopHealthy, NoDuplicates, LastHealthy, Taken;
    TakesLastHealthy(s, healthy);
    SearchMarksTaken(s, healthy);
    var (r, s') := PopHealthy(s, healthy);
    assert r.None? ==> forall i :: 0 <= i < |s.idle| ==> s.idle[i] in s.idle;
    LastHealthyIs(s.idle, healthy, if r.None? then -1 else |s'.idle|);
  }

  /** Main result: what a Get with nothing else going on returns, and when it fails. The last
      healthy idle connection, if there is one; otherwise a new connection, if the counter less
      the discarded ones is below the cap or a token waits, and if the dial succeeds; nothing in
      every other case. Without pooling it always dials. */
  lemma GetReturns<C>(s: Core<C>, cfg: Config, healthy: set<C>, made: Option<C>)
    requires NoDuplicates(s.idle) && forall c :: c in s.idle ==> c !in s.inUse
    ensures var k := LastHealthy(s.idle, healthy);
            var (r, s') := GetConn(s, cfg, healthy, made);
            var dials := !cfg.enabled || (k < 0 && (s.active - |s.idle| < cfg.maxActive || s.token));
            var discarded := if !cfg.enabled then 0 else |s.idle| - k - 1;
            && (Creates(s, cfg, healthy) <==> dials)
            && r == (if dials then made else if k >= 0 then Some(s.idle[k]) else None)
            && s'.active == s.active - discarded + (if dials && made.Some? then 1 else 0)
            && s'.idle == (if !cfg.enabled then s.idle else if k < 0 then [] else s.idle[..k])
            && (r.Some? ==> r.value in s'.inUse)
            && s'.token == (s.token && (!dials || !cfg.enabled || s.active - |s.idle| < cfg.maxActive))
            && s'.closed == s.closed
  {
    hide PopHealthy, NoDuplicates, LastHealthy, Taken;
    SearchReturns(s, healthy);
    TakesLastHealthy(s, healthy);
    if cfg.enabled && LastHealthy(s.idle, healthy) < 0 {
      EmptySearch(PopHealthy(s, healthy).1.(token := false), healthy);
    }
  }

  lemma EmptySearch<C>(s: Core<C>, healthy: set<C>)
    requires s.idle == []
    ensures PopHealthy(s, healthy) == (None, s)
  {}

  /** A Get on an empty pool below its cap returns the connection it dials. */
  lemma EmptyPoolIsFilled<C>(s: Core<C>, cfg: Config, healthy: set<C>, c: C)
    requires s.idle == [] && s.active < cfg.maxActive
    ensures GetConn(s, cfg, healthy, Some(c)) == (Some(c), s.(active := s.active + 1, inUse := s.inUse + {c}))
  {
    EmptySearch(s, healthy);
  }

  /** A whole Put is its atomic steps in a row, taken when the shared state allows them. */
  lemma PutIsItsSteps<C>(cfg: Config, s: Pool<C>, c: C, valid: bool)
    requires c in s.held && s.returning == {}
    ensures var accepts := !s.core.closed && valid && |s.core.idle| < cfg.maxIdle;
            var s1 := Apply(cfg, s, BeginPut(c));
            && Enabled(cfg, s, BeginPut(c))
            && Enabled(cfg, s1, Reject(c)) && (accepts ==> Enabled(cfg, s1, Accept(c)))
            && PutBack(s.core, c, valid, cfg.maxIdle) ==
               if accepts then Apply(cfg, Apply(cfg, s1, Accept(c)), Notify).core
               else Apply(cfg, s1, Reject(c)).core
  {
    hide Pop, Keep;
  }

  // ---------------------------------------------------------------------------
  // A whole Get is its atomic steps in a row
  // ---------------------------------------------------------------------------

  /** The steps lead from `s` to `s'`, each enabled where it is taken. */
  ghost predicate Path<C>(cfg: Config, s: Pool<C>, steps: seq<Step<C>>, s': Pool<C>)
    decreases |steps|
  {
    if |steps| == 0 then s == s'
    else Enabled(cfg, s, steps[0]) && Path(cfg, Apply(cfg, s, steps[0]), steps[1..], s')
  }

  lemma PathOfOne<C>(cfg: Config, s: Pool<C>, step: Step<C>)
    requires Enabled(cfg, s, step)
    ensures Path(cfg, s, [step], Apply(cfg, s, step))
  {
    hide Enabled, Apply;
    assert [step][1..] == [];
  }

  lemma {:induction false} PathsJoin<C>(cfg: Config, s: Pool<C>, a: seq<Step<C>>, m: Pool<C>, b: seq<Step<C>>, s': Pool<C>)
    requires Path(cfg, s, a, m) && Path(cfg, m, b, s')
    ensures Path(cfg, s, a + b, s')
    decreases |a|
  {
    hide Enabled, Apply;
    if |a| == 0 {
      assert a + b == b;
    } else {
      PathsJoin(cfg, Apply(cfg, s, a[0]), a[1..], m, b, s');
      assert (a + b)[1..] == a[1..] + b;
    }
  }

  lemma StepThenPath<C>(cfg: Config, s: Pool<C>, step: Step<C>, b: seq<Step<C>>, s': Pool<C>)
    requires Enabled(cfg, s, step) && Path(cfg, Apply(cfg, s, step), b, s')
    ensures Path(cfg, s, [step] + b, s')
  {
    hide Enabled, Apply, Path;
    PathOfOne(cfg, s, step);
    PathsJoin(cfg, s, [step], Apply(cfg, s, step), b, s');
  }

  /** Where a Get is after its first or its second search. */
  function Searched<C(==)>(s: Pool<C>, healthy: set<C>, again: bool): Pool<C>
    requires if again then s.woken > 0 else s.looking > 0
  {
    var s0 := if again then s.(woken := s.woken - 1) else s.(looking := s.looking - 1);
    match PopHealthy(s.core, healthy)
    case (Some(c), core') => s0.(core := core', held := s.held + {c})
    case (None, core') =>
      if again then s0.(core := core', committed := s.committed + 1) else s0.(core := core', missed := s.missed + 1)
  }

  /** What one look and the health check that follows it do. */
  lemma LookThenProbe<C>(cfg: Config, s: Pool<C>, again: bool)
    requires s.probing == {} && s.reprobing == {} && if again then s.woken > 0 else s.looking > 0
    ensures var look := if again then LookAgain else Look;
            var s0 := if again then s.(woken := s.woken - 1) else s.(looking := s.looking - 1);
            && Enabled(cfg, s, look)
            && match Pop(s.core)
               case (None, core') =>
                 Apply(cfg, s, look) ==
                 if again then s0.(core := core', committed := s.committed + 1) else s0.(core := core', missed := s.missed + 1)
               case (Some(c), core') =>
                 var s1 := Apply(cfg, s, look);
                 && Enabled(cfg, s1, ProbeOk(c)) && Apply(cfg, s1, ProbeOk(c)) == s0.(core := core', held := s.held + {c})
                 && Enabled(cfg, s1, ProbeBad(c))
                 && Apply(cfg, s1, ProbeBad(c)) == s.(core := core'.(active := core'.active - 1))
  {
    hide Pop;
    if Pop(s.core).0.Some? {
      assert {Pop(s.core).0.value} - {Pop(s.core).0.value} == {};
    }
  }

  lemma {:induction false} SearchIsItsSteps<C>(cfg: Config, s: Pool<C>, healthy: set<C>, again: bool)
    returns (steps: seq<Step<C>>)
    requires s.probing == {} && s.reprobing == {} && if again then s.woken > 0 else s.looking > 0
    ensures Path(cfg, s, steps, Searched(s, healthy, again))
    decreases |s.core.idle|
  {
    hide Pop, Path, Enabled, Apply;
    var look := if again then LookAgain else Look;
    LookThenProbe(cfg, s, again);
    PopShrinks(s.core);
    PathOfOne(cfg, s, look);
    match Pop(s.core)
    case (None, _) =>
      steps := [look];
    case (Some(c), core') =>
      var s1 := Apply(cfg, s, look);
      if c in healthy {
        PathOfOne(cfg, s1, ProbeOk(c));
        steps := [look] + [ProbeOk(c)];
        PathsJoin(cfg, s, [look], s1, [ProbeOk(c)], Apply(cfg, s1, ProbeOk(c)));
      } else {
        var s2 := s.(core := core'.(active := core'.active - 1));
        var rest := SearchIsItsSteps(cfg, s2, healthy, again);
        StepThenPath(cfg, s1, ProbeBad(c), rest, Searched(s2, healthy, again));
        StepThenPath(cfg, s, look, [ProbeBad(c)] + rest, Searched(s2, healthy, again));
        steps := [look] + ([ProbeBad(c)] + rest);
      }
  }

  lemma {:induction false} SearchTakesIdle<C>(s: Core<C>, healthy: set<C>)
    ensures var (_, s') := PopHealthy(s, healthy);
            && (forall c :: c in s'.inUse ==> c in s.inUse || c in s.idle)
            && (forall c :: c in s'.idle ==> c in s.idle)
    decreases |s.idle|
  {
    PopShrinks(s);
    PopTakesIdle(s);
    hide Pop;
    var (r, s1) := Pop(s);
    if r.Some? && r.value !in healthy {
      SearchTakesIdle(s1.(active := s1.active - 1), healthy);
    }
  }

  lemma {:induction false} PopTakesIdle<C>(s: Core<C>)
    ensures forall c :: c in Pop(s).1.inUse ==> c in s.inUse || c in s.idle
    decreases |s.idle|
  {
    if s.idle != [] && s.idle[|s.idle| - 1] in s.inUse {
      PopTakesIdle(s.(idle := s.idle[..|s.idle| - 1]));
    }
  }

  /** A connection the pool has never seen. */
  predicate Unseen<C(==)>(s: Pool<C>, made: Option<C>) {
    made.Some? ==> made.value !in Live(s) && made.value !in s.core.inUse
  }

  /** A committed Get creates, or fails to. */
  lemma CreateIsItsSteps<C>(cfg: Config, s: Pool<C>, made: Option<C>) returns (steps: seq<Step<C>>, s': Pool<C>)
    requires s.committed > 0 && Unseen(s, made)
    ensures Path(cfg, s, steps, s') && s'.core == Create(s.core, made).1
    ensures s'.held == s.held + if made.Some? then {made.value} else {}
  {
    var s1 := Apply(cfg, s, Count);
    var last := if made.Some? then DialOk(made.value) else DialFail;
    assert Enabled(cfg, s1, last);
    s' := Apply(cfg, s1, last);
    hide Path;
    PathOfOne(cfg, s1, last);
    StepThenPath(cfg, s, Count, [last], s');
    steps := [Count] + [last];
  }

  lemma SearchLeavesUnseen<C>(s: Pool<C>, healthy: set<C>, again: bool, made: Option<C>)
    requires if again then s.woken > 0 else s.looking > 0
    requires Unseen(s, made) && PopHealthy(s.core, healthy).0.None?
    ensures Unseen(Searched(s, healthy, again), made)
  {
    hide PopHealthy;
    SearchTakesIdle(s.core, healthy);
  }

  /** From the cap check on: what GetConn does when the first search found nothing. */
  lemma MissedIsItsSteps<C>(cfg: Config, s: Pool<C>, healthy: set<C>, made: Option<C>) returns (steps: seq<Step<C>>, s': Pool<C>)
    requires cfg.enabled && s.missed > 0 && s.probing == {} && s.reprobing == {} && Unseen(s, made)
    ensures var (r, core') := Missing(s.core, cfg, healthy, made);
            Path(cfg, s, steps, s') && s'.core == core' && s'.held == s.held + if r.Some? then {r.value} else {}
  {
    hide PopHealthy, Path, Pop, Keep;
    var s1 := Apply(cfg, s, CheckCap);
    if s.core.active < cfg.maxActive {
      steps, s' := CreateIsItsSteps(cfg, s1, made);
      StepThenPath(cfg, s, CheckCap, steps, s');
      steps := [CheckCap] + steps;
    } else if !s.core.token {
      s' := Apply(cfg, s1, GiveUp);
      PathOfOne(cfg, s1, GiveUp);
      StepThenPath(cfg, s, CheckCap, [GiveUp], s');
      steps := [CheckCap] + [GiveUp];
    } else {
      var s2 := Apply(cfg, s1, TakeToken);
      steps, s' := WokenIsItsSteps(cfg, s2, healthy, made);
      StepThenPath(cfg, s1, TakeToken, steps, s');
      StepThenPath(cfg, s, CheckCap, [TakeToken] + steps, s');
      steps := [CheckCap] + ([TakeToken] + steps);
    }
  }

  lemma WokenIsItsSteps<C>(cfg: Config, s: Pool<C>, healthy: set<C>, made: Option<C>) returns (steps: seq<Step<C>>, s': Pool<C>)
    requires s.woken > 0 && s.probing == {} && s.reprobing == {} && Unseen(s, made)
    ensures var (r, core') := SearchOrCreate(s.core, healthy, made);
            Path(cfg, s, steps, s') && s'.core == core' && s'.held == s.held + if r.Some? then {r.value} else {}
  {
    hide PopHealthy, Path, Unseen;
    steps := SearchIsItsSteps(cfg, s, healthy, true);
    s' := Searched(s, healthy, true);
    if PopHealthy(s.core, healthy).0.None? {
      SearchLeavesUnseen(s, healthy, true, made);
      var more, s'' := CreateIsItsSteps(cfg, s', made);
      PathsJoin(cfg, s, steps, s', more, s'');
      steps, s' := steps + more, s'';
    }
  }

  /** Main result: a whole Get that nothing interrupts is a run of the steps of the interleaved
      model: it leaves the shared state as those steps do, and holds what it returns. */
  lemma GetIsItsSteps<C>(cfg: Config, s: Pool<C>, healthy: set<C>, made: Option<C>) returns (steps: seq<Step<C>>, s': Pool<C>)
    requires s.probing == {} && s.reprobing == {} && Unseen(s, made)
    ensures var (r, core') := GetConn(s.core, cfg, healthy, made);
            Path(cfg, s, steps, s') && s'.core == core' && s'.held == s.held + if r.Some? then {r.value} else {}
  {
    hide PopHealthy, Path, Pop, Keep;
    var s1 := Apply(cfg, s, BeginGet);
    if !cfg.enabled {
      steps, s' := CreateIsItsSteps(cfg, s1, made);
    } else {
      steps := SearchIsItsSteps(cfg, s1, healthy, false);
      s' := Searched(s1, healthy, false);
      if PopHealthy(s.core, healthy).0.None? {
        SearchLeavesUnseen(s1, healthy, false, made);
        var more, s'' := MissedIsItsSteps(cfg, s', healthy, made);
        PathsJoin(cfg, s1, steps, s', more, s'');
        steps, s' := steps + more, s'';
      }
    }
    StepThenPath(cfg, s, BeginGet, steps, s');
    steps := [BeginGet] + steps;
  }

  // ---------------------------------------------------------------------------
  // The objects
  // ---------------------------------------------------------------------------

  class PooledTunnelConn {
    var inUse: bool
    var lastUsedAt: real
    var open: bool
    /** What a health check would find: the peer has neither hung up nor sent anything. */
    const healthy: bool

    constructor (healthy: bool, now: real)
      ensures inUse && open && this.healthy == healthy && lastUsedAt == now
    {
      inUse, open, this.healthy, lastUsedAt := true, true, healthy, now;
    }
  }

  class MappingPool {
    const cfg: Config
    const idleTimeout: real
    const healthCheckOnGet: bool
    var idle: seq<PooledTunnelConn>
    var idleCh: bool
    var active: int
    var closed: bool

    /** Every connection this pool ever created. */
    ghost var conns: set<PooledTunnelConn>

    ghost predicate Valid()
      reads this
    {
      0.0 <= idleTimeout && forall c :: c in idle ==> c in conns
    }

    ghost function View(): Core<PooledTunnelConn>
      reads this, conns
    {
      Core(idle, (set c | c in conns && c.inUse), active, idleCh, closed)
    }

    /** The connections a Get accepts: without the health check, all of them. */
    ghost function Healthy(): set<PooledTunnelConn>
      reads this
    {
      set c | c in conns && (c.healthy || !healthCheckOnGet)
    }

    constructor (cfg: Config, idleTimeout: real, healthCheckOnGet: bool)
      requires 0.0 <= idleTimeout
      ensures Valid() && conns == {}
      ensures this.cfg == cfg && this.idleTimeout == idleTimeout && this.healthCheckOnGet == healthCheckOnGet
      ensures View() == NewPool<PooledTunnelConn>().core
    {
      this.cfg, this.idleTimeout, this.healthCheckOnGet := cfg, idleTimeout, healthCheckOnGet;
      idle, idleCh, active, closed, conns := [], false, 0, false, {};
    }

    /** `getIdle` */
    method GetIdle(now: real) returns (r: Option<PooledTunnelConn>)
      requires Valid()
      modifies this`idle, conns
      ensures Valid()
      ensures (r, View()) == Pop(old(View()))
      ensures r.Some? ==> r.value in conns && r.value.lastUsedAt == now && r.value.inUse
      ensures forall c :: c in conns && Some(c) != r ==> c.lastUsedAt == old(c.lastUsedAt) && c.inUse == old(c.inUse)
    {
      ghost var before := View();
      while |idle| > 0
        invariant Valid()
        invariant View().inUse == before.inUse && Pop(View()) == Pop(before)
        invariant forall c :: c in conns ==> c.lastUsedAt == old(c.lastUsedAt) && c.inUse == old(c.inUse)
        decreases |idle|
      {
        var n := |idle| - 1;
        var conn := idle[n];
        ghost var here := View();
        idle := idle[..n];
        if !conn.inUse {
          conn.inUse := true;
          conn.lastUsedAt := now;
          assert View().inUse == here.inUse + {conn};
          return Some(conn);
        }
        assert View().inUse == here.inUse;
      }
      return None;
    }

    /** `isConnHealthy`: getIdle has just set lastUsedAt, so the idle timeout never decides. */
    method IsConnHealthy(conn: PooledTunnelConn, now: real) returns (ok: bool)
      ensures ok == (now - conn.lastUsedAt <= idleTimeout && conn.healthy)
    {
      if now - conn.lastUsedAt > idleTimeout {
        return false;
      }
      return conn.healthy;
    }

    /** `closeConn` */
    method CloseConn(conn: PooledTunnelConn)
      requires Valid() && conn in conns
      modifies this`active, conn`open
      ensures Valid() && !conn.open && View() == old(View()).(active := old(active) - 1)
    {
      active := active - 1;
      conn.open := false;
      assert View().inUse == old(View()).inUse;
    }

    /** `getHealthyIdleConn` */
    method GetHealthyIdleConn(now: real) returns (r: Option<PooledTunnelConn>)
      requires Valid()
      modifies this`idle, this`active, conns
      ensures Valid()
      ensures (r, View()) == PopHealthy(old(View()), Healthy())
      ensures r.Some? ==> r.value in conns && r.value.inUse
    {
      ghost var before := View();
      while true
        invariant Valid()
        invariant PopHealthy(View(), Healthy()) == PopHealthy(before, Healthy())
        decreases |idle|
      {
        ghost var here := View();
        PopShrinks(here);
        r := GetIdle(now);
        if r.None? || !healthCheckOnGet {
          return;
        }
        var ok := IsConnHealthy(r.value, now);
        if ok {
          return;
        }
        CloseConn(r.value);
      }
    }

    /** `Put` */
    method Put(conn: PooledTunnelConn, now: real)
      requires Valid() && conn in conns
      modifies this`idle, this`active, this`idleCh, conn
      ensures Valid() && View() == PutBack(old(View()), conn, true, cfg.maxIdle)
      ensures !conn.inUse && conn.lastUsedAt == now
    {
      conn.inUse := false;
      conn.lastUsedAt := now;
      assert View().inUse == old(View()).inUse - {conn};
      var valid := now - conn.lastUsedAt <= idleTimeout;
      if closed || !valid {
        CloseConn(conn);
        return;
      }
      if |idle| >= cfg.maxIdle {
        CloseConn(conn);
        return;
      }
      idle := idle + [conn];
      idleCh := true;
      assert View().inUse == old(View()).inUse - {conn};
    }

    /** `createNewConn`; `dialed` is how the dial goes. */
    method CreateNewConn(dialed: bool, healthy: bool, now: real) returns (r: Option<PooledTunnelConn>)
      requires Valid()
      modifies this`active, this`conns
      ensures Valid() && conns - old(conns) == (if r.Some? then {r.value} else {}) && old(conns) <= conns
      ensures fresh(conns - old(conns))
      ensures r.Some? <==> dialed
      ensures r.Some? ==> fresh(r.value) && r.value.open && r.value.lastUsedAt == now && r.value.healthy == healthy
      ensures (r, View()) == Create(old(View()), r)
    {
      active := active + 1;
      if !dialed {
        active := active - 1;
        assert View() == old(View());
        return None;
      }
      var conn := new PooledTunnelConn(healthy, now);
      conns := conns + {conn};
      assert View().inUse == old(View()).inUse + {conn};
      return Some(conn);
    }

    /** `Get`, run with no other call in between. */
    method Get(dialed: bool, healthy: bool, now: real) returns (r: Option<PooledTunnelConn>, ghost made: Option<PooledTunnelConn>)
      requires Valid()
      modifies this, conns
      ensures Valid() && old(conns) <= conns && fresh(conns - old(conns))
      ensures made.Some? <==> dialed && Creates(old(View()), cfg, old(Healthy()))
      ensures made.Some? ==> fresh(made.value) && made.value.open && made.value.lastUsedAt == now && made.value.healthy == healthy
      ensures (r, View()) == GetConn(old(View()), cfg, old(Healthy()), made)
      ensures r.Some? ==> r.value.inUse && r.value in conns
    {
      made := None;
      if !cfg.enabled {
        r := CreateNewConn(dialed, healthy, now);
        made := r;
        return;
      }
      r := GetHealthyIdleConn(now);
      if r.Some? {
        return;
      }
      if active >= cfg.maxActive {
        if !idleCh {
          return None, None;
        }
        ghost var empty := View();
        idleCh := false;
        assert View() == empty.(token := false) && Healthy() == old(Healthy());
        r := GetHealthyIdleConn(now);
        if r.Some? {
          return;
        }
      }
      r := CreateNewConn(dialed, healthy, now);
      made := r;
    }

    /** `cleanupIdleConns` for this mapping. */
    method CleanupIdleConns(now: real)
      requires Valid()
      modifies this`idle, this`active, idle
      ensures Valid()
      ensures View() == Sweep(old(View()), (set c | c in conns && now - c.lastUsedAt > idleTimeout))
    {
      ghost var stale := set c | c in conns && now - c.lastUsedAt > idleTimeout;
      ghost var inUse := View().inUse;
      var remaining := [];
      for i := 0 to |idle|
        invariant idle == old(idle) && Valid() && View().inUse == inUse
        invariant remaining == Keep(idle[..i], stale) && |remaining| <= i
        invariant active == old(active) - (i - |remaining|)
        invariant stale == (set c | c in conns && now - c.lastUsedAt > idleTimeout)
        invariant forall c :: c in remaining ==> c in conns
      {
        assert idle[..i + 1][..i] == idle[..i];
        if now - idle[i].lastUsedAt > idleTimeout {
          CloseConn(idle[i]);
        } else {
          remaining := remaining + [idle[i]];
        }
      }
      assert idle[..|idle|] == idle;
      idle := remaining;
      assert View().inUse == inUse;
      assert (set c | c in conns && now - c.lastUsedAt > idleTimeout) == stale;
    }

    /** `MappingPool.close` */
    method Close()
      requires Valid()
      modifies this`closed, this`idle, idle
      ensures Valid() && View() == Shut(old(View()))
      ensures forall c :: c in old(idle) ==> !c.open
    {
      closed := true;
      for i := 0 to |idle|
        invariant idle == old(idle) && closed && active == old(active) && idleCh == old(idleCh)
        invariant forall c :: c in conns ==> c.inUse == old(c.inUse)
        invariant forall c :: c in idle[..i] ==> !c.open
      {
        assert idle[..i + 1] == idle[..i] + [idle[i]];
        idle[i].open := false;
      }
      assert idle[..|idle|] == idle;
      idle := [];
      assert View().inUse == old(View()).inUse;
    }
  }
}
