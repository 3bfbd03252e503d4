/** The command statistics of internal/command/service.go: counters and an integer running
    average, updated around every Execute. */
module CommandStatistics {

  /** Go's integer division truncates toward zero. */
  function Quotient(a: int, b: int): int
    requires b > 0
  {
    if a >= 0 then a / b else -(-a / b)
  }

  datatype Stats = Stats(total: nat, success: nat, failed: nat, average: int, active: nat)

  const NO_STATS := Stats(0, 0, 0, 0, 0)

  function UpdateLatency(s: Stats, latency: int): Stats {
    if s.total > 0 then s.(average := Quotient(s.average * (s.total - 1) + latency, s.total))
    else s.(average := latency)
  }

  function DecrementActive(s: Stats): Stats {
    if s.active > 0 then s.(active := s.active - 1) else s
  }

  function CountOutcome(s: Stats, ok: bool): Stats {
    if ok then s.(success := s.success + 1) else s.(failed := s.failed + 1)
  }

  // ---------------------------------------------------------------------------
  // One command after the other
  // ---------------------------------------------------------------------------

  /** `Execute` of one command that nothing overlaps. The deferred calls run last to first. */
  function Executed(s: Stats, ok: bool, latency: int): Stats {
    var begun := s.(total := s.total + 1, active := s.active + 1);
    DecrementActive(UpdateLatency(CountOutcome(begun, ok), latency))
  }

  datatype Commands = None | Next(before: Commands, ok: bool, latency: int)

  function After(c: Commands): Stats {
    match c
    case None => NO_STATS
    case Next(before, ok, latency) => Executed(After(before), ok, latency)
  }

  function Length(c: Commands): nat {
    if c.None? then 0 else Length(c.before) + 1
  }

  function LatencySum(c: Commands): int {
    if c.None? then 0 else LatencySum(c.before) + c.latency
  }

  predicate NonNegativeLatencies(c: Commands) {
    c.Next? ==> c.latency >= 0 && NonNegativeLatencies(c.before)
  }

  /** n(n-1)/2 */
  function Triangle(n: nat): nat {
    if n == 0 then 0 else Triangle(n - 1) + n - 1
  }

  lemma TriangleIs(n: nat)
    ensures 2 * Triangle(n) == n * (n - 1)
  {}

  lemma NonNegativeProduct(x: int, y: int)
    requires x >= 0 && y >= 0
    ensures x * y >= 0
  {}

  /** A division loses its remainder. */
  lemma Divides(sum: int, n: nat)
    requires sum >= 0 && n > 0
    ensures Quotient(sum, n) >= 0 && n * Quotient(sum, n) == sum - sum % n && 0 <= sum % n <= n - 1
  {}

  lemma {:induction false} Counted(c: Commands)
    ensures var s := After(c); s.total == Length(c) == s.success + s.failed && s.active == 0
  {
    hide Quotient;
    if c.Next? {
      Counted(c.before);
    }
  }

  function OutcomesInTurn(c: Commands, ok: bool): nat {
    if c.None? then 0 else OutcomesInTurn(c.before, ok) + if c.ok == ok then 1 else 0
  }

  lemma {:induction false} CountedByOutcome(c: Commands)
    ensures var s := After(c); s.success == OutcomesInTurn(c, true) && s.failed == OutcomesInTurn(c, false)
  {
    hide Quotient;
    if c.Next? {
      CountedByOutcome(c.before);
    }
  }

  lemma Commute(n: int, average: int)
    ensures n * average == average * n
  {}

  // ---------------------------------------------------------------------------
  // Commands that overlap
  // ---------------------------------------------------------------------------

  /** How far an Execute has come; each step takes the lock of the statistics once. */
  datatype Stage = Counting | Running | Deciding | Averaging | Returned

  datatype Event = Begin(id: nat) | Advance(id: nat, ok: bool)

  datatype History = Start | Then(before: History, e: Event)

  /** The latency that each UpdateLatency measures, by its number. */
  type Latencies = nat -> int

  /** The statistics, the commands, and how many latencies were recorded. */
  datatype Service = Service(stats: Stats, commands: map<nat, Stage>, recorded: nat)

  /** Begin counts a new command; then it becomes active, gets its outcome, its latency, and
      becomes inactive again. */
  function Step(s: Service, e: Event, latency: Latencies): Service {
    match e
    case Begin(id) =>
      if id in s.commands then s
      else s.(stats := s.stats.(total := s.stats.total + 1), commands := s.commands[id := Counting])
    case Advance(id, ok) =>
      if id !in s.commands then s
      else
        match s.commands[id]
        case Counting => s.(stats := s.stats.(active := s.stats.active + 1), commands := s.commands[id := Running])
        case Running => s.(stats := CountOutcome(s.stats, ok), commands := s.commands[id := Deciding])
        case Deciding =>
          Service(UpdateLatency(s.stats, latency(s.recorded)), s.commands[id := Averaging], s.recorded + 1)
        case Averaging => s.(stats := DecrementActive(s.stats), commands := s.commands[id := Returned])
        case Returned => s
  }

  function Run(h: History, latency: Latencies): Service {
    match h
    case Start => Service(NO_STATS, map[], 0)
    case Then(before, e) => Step(Run(before, latency), e, latency)
  }

  function At(s: Service, stages: set<Stage>): set<nat> {
    set id | id in s.commands && s.commands[id] in stages
  }

  function Undecided(s: Service): set<nat> {
    At(s, {Counting, Running})
  }

  function InFlight(s: Service): set<nat> {
    At(s, {Counting, Running, Deciding, Averaging})
  }

  predicate Balanced(s: Service) {
    && s.stats.total == s.stats.success + s.stats.failed + |Undecided(s)|
    && s.stats.total == s.recorded + |At(s, {Counting, Running, Deciding})|
    && s.stats.active == |At(s, {Running, Deciding, Averaging})|
  }

  /** How a set of stages changes when one command moves. */
  lemma Moved(s: Service, s': Service, id: nat, stage: Stage, stages: set<Stage>)
    requires s'.commands == s.commands[id := stage]
    ensures var was := id in At(s, stages);
            |At(s', stages)| == |At(s, stages)| + (if stage in stages then 1 else 0) - (if was then 1 else 0)
  {
    if stage in stages {
      assert At(s', stages) == At(s, stages) + {id};
    } else {
      assert At(s', stages) == At(s, stages) - {id};
    }
  }

  lemma StepKeepsBalance(s: Service, e: Event, latency: Latencies)
    requires Balanced(s)
    ensures Balanced(Step(s, e, latency))
  {
    hide UpdateLatency;
    LatencyLeavesCounts(s.stats, latency(s.recorded));
    var s' := Step(s, e, latency);
    if s'.commands != s.commands {
      Moved(s, s', e.id, s'.commands[e.id], {Counting, Running});
      Moved(s, s', e.id, s'.commands[e.id], {Counting, Running, Deciding});
      Moved(s, s', e.id, s'.commands[e.id], {Running, Deciding, Averaging});
    }
  }

  lemma LatencyLeavesCounts(s: Stats, latency: int)
    ensures UpdateLatency(s, latency) == s.(average := UpdateLatency(s, latency).average)
  {}

  lemma {:induction false} RunIsBalanced(h: History, latency: Latencies)
    ensures Balanced(Run(h, latency))
  {
    hide At;
    if h.Then? {
      RunIsBalanced(h.before, latency);
      StepKeepsBalance(Run(h.before, latency), h.e, latency);
    } else {
      NothingRuns(latency, {Counting, Running});
      NothingRuns(latency, {Counting, Running, Deciding});
      NothingRuns(latency, {Running, Deciding, Averaging});
    }
  }

  /** Main result: under every interleaving, the commands counted are those with an outcome and
      those still undecided, so successes + failures <= total <= successes + failures + in flight;
      and the active counter is the number of commands between their two active steps. */
  lemma CountsBalance(h: History, latency: Latencies)
    ensures var s := Run(h, latency);
            && s.stats.total == s.stats.success + s.stats.failed + |Undecided(s)|
            && s.stats.active == |At(s, {Running, Deciding, Averaging})|
            && s.stats.success + s.stats.failed <= s.stats.total
            && s.stats.total <= s.stats.success + s.stats.failed + |InFlight(s)|
  {
    hide At;
    RunIsBalanced(h, latency);
    FewerStages(Run(h, latency));
  }

  /** How many commands of a schedule have got this outcome: each gets one, when it advances from
      Running. */
  function Outcomes(h: History, ok: bool): nat {
    match h
    case Start => 0
    case Then(before, e) =>
      var s := Run(before, NoLatency);
      Outcomes(before, ok) + if e.Advance? && e.id in s.commands && s.commands[e.id] == Running && e.ok == ok then 1 else 0
  }

  /** Under every interleaving the success counter is the number of commands that succeeded, and
      the failure counter the number of those that failed. */
  lemma {:induction false} OutcomesAreCounted(h: History, latency: Latencies)
    ensures var s := Run(h, latency).stats; s.success == Outcomes(h, true) && s.failed == Outcomes(h, false)
  {
    if h.Then? {
      OutcomesAreCounted(h.before, latency);
      SameButAverage(h.before, latency);
      var s := Run(h.before, latency);
      LatencyLeavesCounts(s.stats, latency(s.recorded));
      hide UpdateLatency;
    }
  }

  lemma NothingRuns(latency: Latencies, stages: set<Stage>)
    ensures At(Run(Start, latency), stages) == {}
  {}

  lemma FewerStages(s: Service)
    ensures |Undecided(s)| <= |InFlight(s)|
  {
    assert InFlight(s) == Undecided(s) + At(s, {Deciding, Averaging});
  }

  // ---------------------------------------------------------------------------
  // What the average depends on
  // ---------------------------------------------------------------------------

  function NoLatency(j: nat): int {
    0
  }

  /** The next step of a command is its UpdateLatency. */
  predicate Updates(s: Service, e: Event) {
    e.Advance? && e.id in s.commands && s.commands[e.id] == Deciding
  }

  /** The command total that each UpdateLatency of a schedule finds. */
  function Totals(h: History): seq<nat> {
    match h
    case Start => []
    case Then(before, e) =>
      var s := Run(before, NoLatency);
      if Updates(s, e) then Totals(before) + [s.stats.total] else Totals(before)
  }

  /** Latencies change nothing but the average. */
  lemma {:induction false} SameButAverage(h: History, latency: Latencies)
    ensures var s, s' := Run(h, latency), Run(h, NoLatency);
            s.commands == s'.commands && s.recorded == s'.recorded && s.stats == s'.stats.(average := s.stats.average)
  {
    if h.Then? {
      SameButAverage(h.before, latency);
      var s, s' := Run(h.before, latency), Run(h.before, NoLatency);
      LatencyLeavesCounts(s.stats, latency(s.recorded));
      LatencyLeavesCounts(s'.stats, 0);
      hide UpdateLatency;
    }
  }

  function AverageOf(totals: seq<nat>, latency: Latencies): int {
    if |totals| == 0 then 0
    else
      var n := |totals| - 1;
      var before := AverageOf(totals[..n], latency);
      if totals[n] > 0 then Quotient(before * (totals[n] - 1) + latency(n), totals[n]) else latency(n)
  }

  lemma AverageOfMore(totals: seq<nat>, total: nat, latency: Latencies)
    ensures var before := AverageOf(totals, latency);
            AverageOf(totals + [total], latency) ==
            if total > 0 then Quotient(before * (total - 1) + latency(|totals|), total) else latency(|totals|)
  {
    hide Quotient, AverageOf;
    var more := totals + [total];
    assert more[..|more| - 1] == totals && more[|more| - 1] == total;
    LastAverage(more, latency);
  }

  lemma LastAverage(totals: seq<nat>, latency: Latencies)
    requires |totals| > 0
    ensures var n := |totals| - 1;
            var before := AverageOf(totals[..n], latency);
            AverageOf(totals, latency) ==
            if totals[n] > 0 then Quotient(before * (totals[n] - 1) + latency(n), totals[n]) else latency(n)
  {
    hide Quotient;
  }

  lemma {:induction false} AverageInRun(h: History, latency: Latencies)
    ensures Run(h, latency).recorded == |Totals(h)|
    ensures Run(h, latency).stats.average == AverageOf(Totals(h), latency)
  {
    hide Quotient, AverageOf;
    if h.Then? {
      AverageInRun(h.before, latency);
      SameButAverage(h.before, latency);
      AverageOfMore(Totals(h.before), Run(h.before, NoLatency).stats.total, latency);
    } else {
      NoAverage(latency);
    }
  }

  lemma NoAverage(latency: Latencies)
    ensures AverageOf([], latency) == 0
  {}

  /** Whatever overlaps, an UpdateLatency finds its own command and the recorded ones counted. */
  predicate NotTooLow(totals: seq<nat>) {
    forall j :: 0 <= j < |totals| ==> totals[j] >= j + 1
  }

  lemma {:induction false} TotalsNotTooLow(h: History)
    ensures NotTooLow(Totals(h))
  {
    if h.Then? {
      TotalsNotTooLow(h.before);
      RunIsBalanced(h.before, NoLatency);
      AverageInRun(h.before, NoLatency);
      var s := Run(h.before, NoLatency);
      if Updates(s, h.e) {
        assert h.e.id in At(s, {Counting, Running, Deciding});
      }
      hide At, Run;
    }
  }

  // ---------------------------------------------------------------------------
  // Exactly when the average is within n(n-1)/2
  // ---------------------------------------------------------------------------

  function Sum(latency: Latencies, n: nat): int {
    if n == 0 then 0 else Sum(latency, n - 1) + latency(n - 1)
  }

  ghost predicate NonNegative(latency: Latencies) {
    forall j: nat :: latency(j) >= 0
  }

  /** Every update finds as many commands counted as latencies recorded, its own included. */
  predicate Exact(totals: seq<nat>) {
    forall j :: 0 <= j < |totals| ==> totals[j] == j + 1
  }

  function Error(totals: seq<nat>, latency: Latencies): int {
    Sum(latency, |totals|) - |totals| * AverageOf(totals, latency)
  }

  lemma ErrorUnfolds(totals: seq<nat>, latency: Latencies)
    requires |totals| > 0 && totals[|totals| - 1] > 0
    ensures var n, t, init := |totals| - 1, totals[|totals| - 1], totals[..|totals| - 1];
            && AverageOf(totals, latency) == Quotient(AverageOf(init, latency) * (t - 1) + latency(n), t)
            && Sum(latency, n + 1) == Sum(latency, n) + latency(n)
  {
    hide Quotient;
  }

  lemma {:induction false} ExactIsWithin(totals: seq<nat>, latency: Latencies)
    requires Exact(totals) && NonNegative(latency)
    ensures AverageOf(totals, latency) >= 0
    ensures 0 <= Error(totals, latency) <= Triangle(|totals|)
    decreases |totals|
  {
    hide AverageOf, Sum, Quotient;
    if |totals| == 0 {
      NoError(totals, latency);
    } else {
      var n, init := |totals|, totals[..|totals| - 1];
      var average := AverageOf(init, latency);
      ExactIsWithin(init, latency);
      ErrorUnfolds(totals, latency);
      NonNegativeProduct(average, n - 1);
      Divides(average * (n - 1) + latency(n - 1), n);
      Commute(n - 1, average);
    }
  }

  lemma NoError(totals: seq<nat>, latency: Latencies)
    requires |totals| == 0
    ensures AverageOf(totals, latency) == 0 && Error(totals, latency) == 0
  {}

  /** One latency `l`, the j-th, and no other. */
  function Spike(j: nat, l: int): Latencies {
    i => if i == j then l else 0
  }

  lemma {:induction false} NothingYet(totals: seq<nat>, j: nat, l: int)
    requires NotTooLow(totals) && |totals| <= j
    ensures AverageOf(totals, Spike(j, l)) == 0 && Sum(Spike(j, l), |totals|) == 0
    decreases |totals|
  {
    hide AverageOf, Sum;
    if |totals| == 0 {
      NoError(totals, Spike(j, l));
      NoSum(Spike(j, l));
    } else {
      NothingYet(totals[..|totals| - 1], j, l);
      ErrorUnfolds(totals, Spike(j, l));
    }
  }

  lemma NoSum(latency: Latencies)
    ensures Sum(latency, 0) == 0
  {}

  /** A spike of (j + 2) * k that is divided by more than j + 1 leaves an error of at least k, and
      exact updates after it do not make up for it. */
  lemma {:induction false} SpikeIsLost(totals: seq<nat>, j: nat, k: nat)
    requires NotTooLow(totals) && j < |totals| && totals[j] > j + 1
    requires forall i :: j < i < |totals| ==> totals[i] == i + 1
    ensures var latency := Spike(j, (j + 2) * k);
            && AverageOf(totals, latency) >= 0
            && Sum(latency, |totals|) == (j + 2) * k
            && |totals| * AverageOf(totals, latency) <= (j + 1) * k
    decreases |totals|
  {
    hide AverageOf, Sum, Quotient;
    var n, l := |totals| - 1, (j + 2) * k;
    var latency, init := Spike(j, l), totals[..|totals| - 1];
    ErrorUnfolds(totals, latency);
    if n == j {
      NothingYet(init, j, l);
      SmallShare(l, totals[j], j, k);
    } else {
      SpikeIsLost(init, j, k);
      var average := AverageOf(init, latency);
      NonNegativeProduct(average, n);
      Divides(average * n, n + 1);
      Commute(n, average);
    }
  }

  lemma SmallShare(l: int, t: nat, j: nat, k: nat)
    requires l == (j + 2) * k && t >= j + 2
    ensures 0 <= Quotient(l, t) && (j + 1) * Quotient(l, t) <= (j + 1) * k
  {
    NonNegativeProduct(j + 2, k);
    Divides(l, t);
    var q := Quotient(l, t);
    hide Quotient;
    ShareIsBelow(q, t, j, k);
    Ordered(q, k, j + 1);
  }

  lemma ShareIsBelow(q: int, t: nat, j: nat, k: nat)
    requires q >= 0 && t >= j + 2 && t * q <= (j + 2) * k
    ensures q <= k
  {
    assert t * q >= (j + 2) * q;
    assert q > k ==> (j + 2) * q >= (j + 2) * (k + 1);
  }

  lemma Ordered(x: int, y: int, n: nat)
    requires x <= y
    ensures n * x <= n * y
  {}

  lemma {:induction false} LastInexact(totals: seq<nat>) returns (j: nat)
    requires !Exact(totals)
    ensures j < |totals| && totals[j] != j + 1 && forall i :: j < i < |totals| ==> totals[i] == i + 1
    decreases |totals|
  {
    j := |totals| - 1;
    if totals[j] == j + 1 {
      j := LastInexact(totals[..j]);
    }
  }

  /** Latencies that break the bound whenever some update finds the wrong total. */
  lemma InexactBreaks(totals: seq<nat>) returns (latency: Latencies)
    requires NotTooLow(totals) && !Exact(totals)
    ensures NonNegative(latency) && Error(totals, latency) > Triangle(|totals|)
  {
    var j := LastInexact(totals);
    var k := Triangle(|totals|) + 1;
    hide AverageOf, Sum, Triangle;
    SpikeIsLost(totals, j, k);
    NonNegativeProduct(j + 2, k);
    latency := Spike(j, (j + 2) * k);
    assert (j + 2) * k == (j + 1) * k + k;
  }

  /** Every UpdateLatency of the schedule finds the total equal to the number of latencies
      recorded so far, its own included. */
  predicate Timely(h: History) {
    Exact(Totals(h))
  }

  /** n times the average falls short of the sum of the n latencies recorded so far by at most
      n(n-1)/2, and never exceeds it. */
  predicate WithinBound(h: History, latency: Latencies) {
    var s := Run(h, latency);
    0 <= Sum(latency, s.recorded) - s.recorded * s.stats.average <= Triangle(s.recorded)
  }

  lemma WithinIsError(h: History, latency: Latencies)
    ensures WithinBound(h, latency) <==> 0 <= Error(Totals(h), latency) <= Triangle(|Totals(h)|)
  {
    hide AverageOf, Sum, Triangle;
    AverageInRun(h, latency);
  }

  /** Main result, over every interleaving: the average is within n(n-1)/2 whatever the latencies
      are, if and only if every update finds as many commands counted as latencies recorded. */
  lemma WithinBoundIff(h: History)
    ensures (forall latency: Latencies :: NonNegative(latency) ==> WithinBound(h, latency)) <==> Timely(h)
  {
    hide WithinBound, AverageOf, Sum, Triangle, Error;
    if Timely(h) {
      forall latency: Latencies | NonNegative(latency)
        ensures WithinBound(h, latency)
      {
        ExactIsWithin(Totals(h), latency);
        WithinIsError(h, latency);
      }
    } else {
      TotalsNotTooLow(h);
      var latency := InexactBreaks(Totals(h));
      WithinIsError(h, latency);
    }
  }

  // ---------------------------------------------------------------------------
  // One command after the other, again
  // ---------------------------------------------------------------------------

  /** The schedule in which the commands do not overlap. */
  function Serial(c: Commands): History {
    match c
    case None => Start
    case Next(before, ok, _) => WholeCommand(Serial(before), Length(before), ok)
  }

  function WholeCommand(h: History, id: nat, ok: bool): History {
    var e := Advance(id, ok);
    Then(Then(Then(Then(Then(Then(h, Begin(id)), e), e), e), e), e)
  }

  function LatencyAt(c: Commands, j: nat): int {
    if c.None? then 0 else if j == Length(c.before) then c.latency else LatencyAt(c.before, j)
  }

  predicate AllReturned(commands: map<nat, Stage>, n: nat) {
    forall id :: id in commands ==> id < n && commands[id] == Returned
  }

  lemma WholeCommandRuns(h: History, id: nat, ok: bool, latency: Latencies)
    requires id !in Run(h, latency).commands
    ensures var s, s' := Run(h, latency), Run(WholeCommand(h, id, ok), latency);
            && s' == Service(Executed(s.stats, ok, latency(s.recorded)), s.commands[id := Returned], s.recorded + 1)
  {
    hide UpdateLatency;
    var s, e := Run(h, latency), Advance(id, ok);
    var h1 := Then(h, Begin(id));
    assert Run(h1, latency) == s.(stats := s.stats.(total := s.stats.total + 1), commands := s.commands[id := Counting]);
    var h2 := Then(h1, e);
    assert Run(h2, latency).commands == s.commands[id := Running];
    var h3 := Then(h2, e);
    assert Run(h3, latency).commands == s.commands[id := Deciding];
    var h4 := Then(h3, e);
    assert Run(h4, latency).commands == s.commands[id := Averaging];
    var h5 := Then(h4, e);
    assert Run(h5, latency).commands == s.commands[id := Returned];
  }

  lemma WholeCommandTotals(h: History, id: nat, ok: bool)
    requires id !in Run(h, NoLatency).commands
    ensures Totals(WholeCommand(h, id, ok)) == Totals(h) + [Run(h, NoLatency).stats.total + 1]
  {
    hide UpdateLatency;
    var s, e := Run(h, NoLatency), Advance(id, ok);
    var h1 := Then(h, Begin(id));
    assert Totals(h1) == Totals(h) && Run(h1, NoLatency).commands[id] == Counting;
    var h2 := Then(h1, e);
    assert Totals(h2) == Totals(h) && Run(h2, NoLatency).commands[id] == Running;
    var h3 := Then(h2, e);
    assert Totals(h3) == Totals(h) && Run(h3, NoLatency).commands[id] == Deciding;
    assert Run(h3, NoLatency).stats.total == s.stats.total + 1;
    var h4 := Then(h3, e);
    assert Totals(h4) == Totals(h) + [s.stats.total + 1] && Run(h4, NoLatency).commands[id] == Averaging;
    var h5 := Then(h4, e);
    assert Totals(h5) == Totals(h4) && Run(h5, NoLatency).commands[id] == Returned;
  }

  /** Commands that do not overlap do what Executed says, and are timely. */
  lemma {:induction false} SerialIsExecuted(c: Commands, latency: Latencies)
    requires forall j :: 0 <= j < Length(c) ==> latency(j) == LatencyAt(c, j)
    ensures var s := Run(Serial(c), latency);
            s.stats == After(c) && s.recorded == Length(c) && AllReturned(s.commands, Length(c))
    ensures Sum(latency, Length(c)) == LatencySum(c)
  {
    hide Executed, Run, WholeCommand;
    if c.Next? {
      SerialIsExecuted(c.before, latency);
      WholeCommandRuns(Serial(c.before), Length(c.before), c.ok, latency);
    } else {
      NothingIsRun(latency);
    }
  }

  lemma NothingIsRun(latency: Latencies)
    ensures Run(Start, latency) == Service(NO_STATS, map[], 0)
  {}

  lemma {:induction false} SerialIsTimely(c: Commands)
    ensures Timely(Serial(c)) && |Totals(Serial(c))| == Length(c)
    ensures var s := Run(Serial(c), NoLatency);
            s.stats.total == Length(c) && s.recorded == Length(c) && AllReturned(s.commands, Length(c))
  {
    hide Executed, Run, WholeCommand, Totals;
    if c.Next? {
      SerialIsTimely(c.before);
      WholeCommandRuns(Serial(c.before), Length(c.before), c.ok, NoLatency);
      WholeCommandTotals(Serial(c.before), Length(c.before), c.ok);
      ExecutedCounts(Run(Serial(c.before), NoLatency).stats, c.ok, 0);
    } else {
      NothingIsRun(NoLatency);
      NoTotals();
    }
  }

  lemma NoTotals()
    ensures Totals(Start) == []
  {}

  lemma ExecutedCounts(s: Stats, ok: bool, latency: int)
    ensures Executed(s, ok, latency).total == s.total + 1
  {
    hide Quotient;
  }

  lemma {:induction false} LatenciesAreNonNegative(c: Commands, j: nat)
    requires NonNegativeLatencies(c)
    ensures LatencyAt(c, j) >= 0
  {
    if c.Next? {
      LatenciesAreNonNegative(c.before, j);
    }
  }

  /** So after n commands that do not overlap, n times the integer average falls short of the
      latency sum by at most n(n-1)/2, and never exceeds it. */
  lemma AverageError(c: Commands)
    requires NonNegativeLatencies(c)
    ensures var n := Length(c);
            && After(c).average >= 0
            && 0 <= LatencySum(c) - n * After(c).average <= Triangle(n)
            && 2 * Triangle(n) == n * (n - 1)
  {
    TriangleIs(Length(c));
    hide AverageOf, Sum, Triangle, Run, Totals, Executed, Quotient;
    var latency: Latencies := (j: nat) => LatencyAt(c, j);
    forall j: nat
      ensures latency(j) >= 0
    {
      LatenciesAreNonNegative(c, j);
    }
    SerialIsExecuted(c, latency);
    SerialIsTimely(c);
    ExactIsWithin(Totals(Serial(c)), latency);
    AverageInRun(Serial(c), latency);
  }

  const TEN: Latencies := j => 10

  const BOTH_BEGUN := Then(Then(Start, Begin(1)), Begin(2))

  /** A command takes all its steps. */
  function Through(h: History, id: nat): History {
    var e := Advance(id, true);
    Then(Then(Then(Then(h, e), e), e), e)
  }

  lemma FirstThrough()
    ensures Run(Through(BOTH_BEGUN, 1), TEN) == Service(Stats(2, 1, 0, 5, 0), map[1 := Returned, 2 := Counting], 1)
  {
    var one := Advance(1, true);
    assert Run(BOTH_BEGUN, TEN) == Service(Stats(2, 0, 0, 0, 0), map[1 := Counting, 2 := Counting], 0);
    var decided := Then(Then(BOTH_BEGUN, one), one);
    assert Run(decided, TEN) == Service(Stats(2, 1, 0, 0, 1), map[1 := Deciding, 2 := Counting], 0);
  }

  lemma SecondThrough(h: History)
    requires Run(h, TEN) == Service(Stats(2, 1, 0, 5, 0), map[1 := Returned, 2 := Counting], 1)
    ensures Run(Through(h, 2), TEN).stats == Stats(2, 2, 0, 7, 0) && Run(Through(h, 2), TEN).recorded == 2
  {
    var two := Advance(2, true);
    var decided := Then(Then(h, two), two);
    assert Run(decided, TEN) == Service(Stats(2, 2, 0, 5, 1), map[1 := Returned, 2 := Deciding], 1);
  }

  /** When commands overlap the bound can be missed: two commands of latency 10 that run together
      give 7. */
  lemma OverlapBreaksBound()
    ensures var h := Through(Through(BOTH_BEGUN, 1), 2);
            Run(h, TEN).stats == Stats(2, 2, 0, 7, 0) && !WithinBound(h, TEN)
  {
    FirstThrough();
    SecondThrough(Through(BOTH_BEGUN, 1));
    assert Triangle(2) == Triangle(1) + 1;
    assert Sum(TEN, 2) == Sum(TEN, 1) + 10;
    hide Run, Through;
  }

  // ---------------------------------------------------------------------------
  // The bound is reached
  // ---------------------------------------------------------------------------

  lemma AverageStep(s: Stats, ok: bool, latency: int)
    ensures Executed(s, ok, latency).average == Quotient(s.average * s.total + latency, s.total + 1)
  {
    hide Quotient;
  }

  /** The shortfall so far. */
  function Shortfall(c: Commands): int {
    LatencySum(c) - Length(c) * After(c).average
  }

  /** Commands whose n-th division leaves the largest remainder. */
  function Worst(n: nat): Commands {
    if n == 0 then None
    else
      var before := Worst(n - 1);
      Next(before, true, WorstLatency(After(before).average, n))
  }

  function WorstLatency(average: int, n: nat): int
    requires n > 0
  {
    n - 1 - average * (n - 1) % n
  }

  lemma Remainder(carried: int, n: nat)
    requires carried >= 0 && n > 0
    ensures 0 <= n - 1 - carried % n
    ensures (carried + (n - 1 - carried % n)) % n == n - 1
  {
    var q := carried / n;
    assert carried + (n - 1 - carried % n) == n * q + (n - 1);
    MultiplePlus(n, q, n - 1);
  }

  lemma MultiplePlus(n: nat, q: int, r: nat)
    requires r < n
    ensures (n * q + r) % n == r
  {
    var x := n * q + r;
    var d := q - x / n;
    assert n * d == x % n - r;
    assert d >= 1 ==> n * d >= n;
    assert d <= -1 ==> n * d <= -(n as int);
  }

  lemma WorstStep(average: int, n: nat, latency: int, sum: int)
    requires average >= 0 && n > 0 && latency == WorstLatency(average, n)
    ensures latency >= 0
    ensures sum + latency - n * Quotient(average * (n - 1) + latency, n) == sum - (n - 1) * average + (n - 1)
  {
    NonNegativeProduct(average, n - 1);
    Remainder(average * (n - 1), n);
    Divides(average * (n - 1) + latency, n);
    Commute(n - 1, average);
  }

  lemma WorstUnfolds(n: nat)
    requires n > 0
    ensures Worst(n) == Next(Worst(n - 1), true, WorstLatency(After(Worst(n - 1)).average, n))
  {
    hide After, WorstLatency;
  }

  lemma SumsUnfold(c: Commands)
    requires c.Next?
    ensures Length(c) == Length(c.before) + 1 && LatencySum(c) == LatencySum(c.before) + c.latency
    ensures NonNegativeLatencies(c) <==> c.latency >= 0 && NonNegativeLatencies(c.before)
    ensures After(c) == Executed(After(c.before), c.ok, c.latency)
  {
    hide Executed;
  }

  lemma NoneIsWorst()
    ensures Worst(0) == None && Length(None) == 0 && NonNegativeLatencies(None) && Shortfall(None) == Triangle(0) == 0
  {}

  /** The bound is reached for every n. */
  lemma {:induction false} BoundIsReached(n: nat)
    ensures Length(Worst(n)) == n && NonNegativeLatencies(Worst(n)) && Shortfall(Worst(n)) == Triangle(n)
  {
    hide Quotient, Executed, After, Worst, WorstLatency, LatencySum, Length, NonNegativeLatencies;
    if n == 0 {
      NoneIsWorst();
    } else {
      BoundIsReached(n - 1);
      var before := Worst(n - 1);
      AverageError(before);
      Counted(before);
      WorstUnfolds(n);
      var c := Worst(n);
      SumsUnfold(c);
      AverageStep(After(before), true, c.latency);
      WorstStep(After(before).average, n, c.latency, LatencySum(before));
    }
  }

  // ---------------------------------------------------------------------------
  // As the source writes it
  // ---------------------------------------------------------------------------

  class CommandStats {
    var totalCommands: nat
    var successCommands: nat
    var failedCommands: nat
    var averageLatency: int
    var activeCommands: nat

    function View(): Stats
      reads this
    {
      Stats(totalCommands, successCommands, failedCommands, averageLatency, activeCommands)
    }

    constructor ()
      ensures View() == NO_STATS
    {
      totalCommands, successCommands, failedCommands, averageLatency, activeCommands := 0, 0, 0, 0, 0;
    }

    method IncrementTotal()
      modifies this
      ensures View() == old(View()).(total := old(View()).total + 1)
    {
      totalCommands := totalCommands + 1;
    }

    method IncrementActive()
      modifies this
      ensures View() == old(View()).(active := old(View()).active + 1)
    {
      activeCommands := activeCommands + 1;
    }

    method DecrementActiveCommands()
      modifies this
      ensures View() == DecrementActive(old(View()))
    {
      if activeCommands > 0 {
        activeCommands := activeCommands - 1;
      }
    }

    method IncrementOutcome(ok: bool)
      modifies this
      ensures View() == CountOutcome(old(View()), ok)
    {
      if ok {
        successCommands := successCommands + 1;
      } else {
        failedCommands := failedCommands + 1;
      }
    }

    method RecordLatency(latency: int)
      modifies this
      ensures View() == UpdateLatency(old(View()), latency)
    {
      if totalCommands > 0 {
        var totalLatency := averageLatency * (totalCommands - 1);
        averageLatency := Quotient(totalLatency + latency, totalCommands);
      } else {
        averageLatency := latency;
      }
    }
  }

  class CommandService {
    const stats: CommandStats
    var closed: bool

    constructor (stats: CommandStats)
      ensures this.stats == stats && !closed
    {
      this.stats, closed := stats, false;
    }

    /** `ok` is the verdict of the pipeline and `latency` the time it took. */
    method Execute(ok: bool, latency: int) returns (accepted: bool)
      modifies stats
      ensures accepted == !closed
      ensures stats.View() == if closed then old(stats.View()) else Executed(old(stats.View()), ok, latency)
    {
      hide UpdateLatency;
      if closed {
        return false;
      }
      stats.IncrementTotal();
      stats.IncrementActive();
      stats.IncrementOutcome(ok);
      stats.RecordLatency(latency);
      stats.DecrementActiveCommands();
      return true;
    }
  }
}
