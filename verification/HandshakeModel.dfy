/** The challenge-response handshake of internal/app/server/auth_handler.go, composed with the
    brute-force protector and with any number of connections. Decryption and the MAC are
    abstract functions; what the server looks up while it serves a request is part of the request. */
module HandshakeModel {
  import opened Options
  import BF = BruteForceModel

  datatype Crypto = Crypto(decrypt: string -> Option<string>, mac: (string, string) -> string)

  /** `config.SecretKeyEncrypted` and `config.ExpiresAt`. */
  datatype ClientConfig = ClientConfig(encrypted: string, expiresAt: Option<real>)

  datatype Request = Request(clientID: int, token: string, answer: string)

  datatype Refusal =
    | Blacklisted | Banned | RateLimited | NotIssued | NotFound | Expired
    | NoKeyManager | NoKey | NoChallenge | NoPending | BadCredentials | NilKeyManager

  datatype Response = Response(success: bool, needResponse: bool, challenge: string, clientID: int, secretKey: string,
                               error: Option<Refusal>)

  function Refuse(r: Refusal): Response {
    Response(false, false, "", 0, "", Some(r))
  }

  const ACCEPTED := Response(true, false, "", 0, "", None)

  datatype Connection = Connection(pending: string, clientID: int, authenticated: bool)

  const NEW_CONNECTION := Connection("", 0, false)

  /** What the server finds while it serves one request: the verdicts of the IP list and of the
      rate limiter, the stored clients, the challenge and the credentials it would draw (None
      for an error), and the clock. */
  datatype World = World(ip: string, allowed: bool, withinRate: bool, clients: int -> Option<ClientConfig>,
                         challenge: Option<string>, credentials: Option<(int, string)>,
                         checkedAt: real, now: real, failedAt: real, prunedAt: real, bannedAt: real)

  datatype Outcome = Silent | Failed | Succeeded

  datatype Setup = Setup(config: BF.Config, keys: Option<Crypto>)

  // ---------------------------------------------------------------------------
  // Serving one request
  // ---------------------------------------------------------------------------

  predicate FirstConnection(req: Request) {
    req.clientID == 0 && (req.token == "new-client" || "anonymous:" <= req.token)
  }

  predicate CredentialsExpired(c: ClientConfig, now: real) {
    c.expiresAt.Some? && now > c.expiresAt.value
  }

  /** `VerifyResponse` */
  predicate Verifies(keys: Crypto, encrypted: string, challenge: string, answer: string) {
    keys.decrypt(encrypted).Some? && keys.mac(keys.decrypt(encrypted).value, challenge) == answer
  }

  function Register(w: World, c: Connection): (Connection, Response, Outcome) {
    match w.credentials
    case None => (c, Refuse(NotIssued), Failed)
    case Some((id, key)) => (c.(clientID := id, authenticated := true), Response(true, false, "", id, key, None), Succeeded)
  }

  function SendChallenge(keys: Option<Crypto>, w: World, client: ClientConfig, c: Connection)
    : (Connection, Response, Outcome)
  {
    if keys.None? then (c, Refuse(NoKeyManager), Silent)
    else if client.encrypted == "" then (c, Refuse(NoKey), Silent)
    else
      match w.challenge
      case None => (c, Refuse(NoChallenge), Silent)
      case Some(challenge) => (c.(pending := challenge), Response(false, true, challenge, 0, "", None), Silent)
  }

  /** NilKeyManager stands for the nil dereference of a missing key manager. */
  function CheckAnswer(keys: Option<Crypto>, client: ClientConfig, req: Request, c: Connection)
    : (Connection, Response, Outcome)
  {
    if c.pending == "" then (c, Refuse(NoPending), Failed)
    else
      var c' := c.(pending := "");
      if keys.None? then (c', Refuse(NilKeyManager), Silent)
      else if !Verifies(keys.value, client.encrypted, c.pending, req.answer) then (c', Refuse(BadCredentials), Failed)
      else (c'.(clientID := req.clientID, authenticated := true), ACCEPTED, Succeeded)
  }

  /** Everything after the three gates. */
  function Judge(keys: Option<Crypto>, w: World, req: Request, c: Connection): (Connection, Response, Outcome) {
    if FirstConnection(req) then Register(w, c)
    else
      match w.clients(req.clientID)
      case None => (c, Refuse(NotFound), Failed)
      case Some(client) =>
        if CredentialsExpired(client, w.now) then (c, Refuse(Expired), Silent)
        else if req.answer == "" then SendChallenge(keys, w, client, c)
        else CheckAnswer(keys, client, req, c)
  }

  /** `HandleHandshake`: the connection, the response, and what the protector is told. */
  function Serve(setup: Setup, p: BF.Protector, w: World, req: Request, c: Connection): (Connection, Response, Outcome) {
    if !w.allowed then (c, Refuse(Blacklisted), Silent)
    else if BF.IsBanned(p, w.ip, w.checkedAt) then (c, Refuse(Banned), Silent)
    else if req.clientID == 0 && !w.withinRate then (c, Refuse(RateLimited), Silent)
    else Judge(setup.keys, w, req, c)
  }

  /** The calls a request makes on the protector, after the calls before it. */
  function Told(h: BF.History, w: World, outcome: Outcome): BF.History {
    if !w.allowed then h
    else
      var checked := BF.Then(h, BF.Check(w.ip, w.checkedAt));
      match outcome
      case Silent => checked
      case Failed => BF.Then(checked, BF.Failure(w.ip, w.failedAt, w.prunedAt, w.bannedAt))
      case Succeeded => BF.Then(checked, BF.Success(w.ip))
  }

  // ---------------------------------------------------------------------------
  // Runs: requests on any connection, and other calls on the protector
  // ---------------------------------------------------------------------------

  datatype Event = Handle(id: nat, w: World, req: Request) | Maintain(op: BF.Op)

  datatype Trace = Boot(at: real) | After(before: Trace, e: Event)

  datatype System = System(log: BF.History, conns: map<nat, Connection>)

  function Conn(s: System, id: nat): Connection {
    if id in s.conns then s.conns[id] else NEW_CONNECTION
  }

  function ServeIn(setup: Setup, s: System, e: Event): (Connection, Response, Outcome)
    requires e.Handle?
  {
    Serve(setup, BF.Run(setup.config, s.log), e.w, e.req, Conn(s, e.id))
  }

  function Step(setup: Setup, s: System, e: Event): System {
    match e
    case Handle(id, w, req) =>
      var (c, _, outcome) := ServeIn(setup, s, e);
      System(Told(s.log, w, outcome), s.conns[id := c])
    case Maintain(op) => System(BF.Then(s.log, op), s.conns)
  }

  function At(setup: Setup, t: Trace): System {
    match t
    case Boot(at) => System(BF.Start(at), map[])
    case After(before, e) => Step(setup, At(setup, before), e)
  }

  /** The response to `e` after the run `t`. */
  function ReplyTo(setup: Setup, t: Trace, e: Event): Response
    requires e.Handle?
  {
    ServeIn(setup, At(setup, t), e).1
  }

  /** Maintenance is done by the operator and by the background cleanup: failures and successes
      come from requests only. A drawn challenge is never empty. Clocks do not go back. */
  ghost predicate Proper(e: Event, clock: real) {
    match e
    case Handle(_, w, _) =>
      && clock <= w.checkedAt <= w.failedAt <= w.prunedAt <= w.bannedAt
      && w.challenge != Some("")
    case Maintain(op) => !op.Failure? && !op.Success? && BF.InOrder(clock, op)
  }

  ghost predicate ProperRun(setup: Setup, t: Trace) {
    t.After? ==> ProperRun(setup, t.before) && Proper(t.e, BF.Clock(At(setup, t.before).log))
  }

  // ---------------------------------------------------------------------------
  // The gate: every failure of every run stands behind an IsBanned that said no
  // ---------------------------------------------------------------------------

  lemma OutcomeBehindGate(setup: Setup, p: BF.Protector, w: World, req: Request, c: Connection)
    ensures Serve(setup, p, w, req, c).2 != Silent ==> w.allowed && !BF.IsBanned(p, w.ip, w.checkedAt)
  {}

  /** The protector's history in any run of the composed system is guarded and in order. */
  lemma {:induction false} RunsAreGuarded(setup: Setup, t: Trace)
    requires ProperRun(setup, t)
    ensures BF.Guarded(setup.config, At(setup, t).log) && BF.Monotone(At(setup, t).log)
  {
    hide Serve, BF.IsBanned, BF.Run;
    if t.After? {
      RunsAreGuarded(setup, t.before);
      if t.e.Handle? {
        var s := At(setup, t.before);
        OutcomeBehindGate(setup, BF.Run(setup.config, s.log), t.e.w, t.e.req, Conn(s, t.e.id));
      }
    }
  }

  /** `t` continues `t0`, with no explicit ban, unban or reset of `ip` after it. */
  ghost predicate ContinuesLeavingBan(t0: Trace, t: Trace, ip: string) {
    t == t0 ||
    (t.After? && ContinuesLeavingBan(t0, t.before, ip) &&
     (t.e.Maintain? ==> !t.e.op.Reset? && (t.e.op.Ban? || t.e.op.Unban? ==> t.e.op.ip != ip)))
  }

  lemma {:induction false} LogContinues(setup: Setup, t0: Trace, t: Trace, ip: string)
    requires ContinuesLeavingBan(t0, t, ip)
    ensures BF.ContinuesLeavingBan(At(setup, t0).log, At(setup, t).log, ip)
    decreases t
  {
    hide Serve, BF.Run;
    if t != t0 {
      LogContinues(setup, t0, t.before, ip);
    }
  }

  /** Main result: once an IP is banned, permanently or for a time, every later request from it
      on any connection is refused until the ban expires or is lifted by hand, and it changes no
      connection, whatever requests, successes, failures and cleanups happened in between. */
  lemma BannedIPsStayOut(setup: Setup, t0: Trace, t: Trace, e: Event)
    requires ProperRun(setup, After(t, e)) && e.Handle? && ContinuesLeavingBan(t0, t, e.w.ip)
    requires e.w.ip in BF.Run(setup.config, At(setup, t0).log).banned
    requires var expiry := BF.Run(setup.config, At(setup, t0).log).banned[e.w.ip].expiresAt;
             expiry.Some? ==> e.w.checkedAt <= expiry.value
    ensures ReplyTo(setup, t, e) == Refuse(if e.w.allowed then Banned else Blacklisted)
    ensures forall id :: Conn(At(setup, After(t, e)), id) == Conn(At(setup, t), id)
  {
    RunsAreGuarded(setup, t);
    LogContinues(setup, t0, t, e.w.ip);
    hide Judge, BF.Run, BF.IsBanned, BF.ContinuesLeavingBan, BF.Guarded, BF.Monotone;
    BF.BannedIsRefused(setup.config, At(setup, t0).log, At(setup, t).log, e.w.ip, e.w.checkedAt);
  }

  // ---------------------------------------------------------------------------
  // What the protector is told, as seen in the responses
  // ---------------------------------------------------------------------------

  /** The responses that count against the IP. */
  predicate CountsAsFailure(r: Response) {
    r.error in {Some(NotIssued), Some(NotFound), Some(NoPending), Some(BadCredentials)}
  }

  /** The outcome the protector is told of can be read off the response. */
  lemma OutcomeIff(setup: Setup, p: BF.Protector, w: World, req: Request, c: Connection)
    ensures var (_, r, outcome) := Serve(setup, p, w, req, c);
            && (outcome == Failed <==> CountsAsFailure(r))
            && (outcome == Succeeded <==> r.success)
            && (outcome != Silent ==> w.allowed)
            && !(CountsAsFailure(r) && r.success)
  {
    hide BF.IsBanned, Verifies, CredentialsExpired;
  }

  /** A failure with its clock readings, or a success. */
  datatype Mark = Failure(at: real, prunedAt: real, bannedAt: real) | Success

  /** The RecordFailure and RecordSuccess calls for `ip` in a history of calls. */
  function Marks(h: BF.History, ip: string): seq<Mark> {
    match h
    case Start(_) => []
    case Then(before, op) =>
      match op
      case Failure(who, at, prunedAt, bannedAt) =>
        if who == ip then Marks(before, ip) + [Failure(at, prunedAt, bannedAt)] else Marks(before, ip)
      case Success(who) => if who == ip then Marks(before, ip) + [Success] else Marks(before, ip)
      case _ => Marks(before, ip)
  }

  /** What the responses to the requests from `ip` say that they should be. */
  function Answered(setup: Setup, t: Trace, ip: string): seq<Mark> {
    match t
    case Boot(_) => []
    case After(before, e) =>
      if e.Maintain? || e.w.ip != ip then Answered(setup, before, ip)
      else
        var r := ReplyTo(setup, before, e);
        if CountsAsFailure(r) then Answered(setup, before, ip) + [Failure(e.w.failedAt, e.w.prunedAt, e.w.bannedAt)]
        else if r.success then Answered(setup, before, ip) + [Success]
        else Answered(setup, before, ip)
  }

  /** The times of the requests from `ip` that were answered with a counted failure, since its last
      successful one or the last reset. */
  function AnsweredFailures(setup: Setup, t: Trace, ip: string): seq<real> {
    match t
    case Boot(_) => []
    case After(before, Maintain(op)) => if op.Reset? then [] else AnsweredFailures(setup, before, ip)
    case After(before, Handle(id, w, req)) =>
      if w.ip != ip then AnsweredFailures(setup, before, ip)
      else
        var r := ReplyTo(setup, before, Handle(id, w, req));
        if CountsAsFailure(r) then AnsweredFailures(setup, before, ip) + [w.failedAt]
        else if r.success then []
        else AnsweredFailures(setup, before, ip)
  }

  lemma MarksOfTold(h: BF.History, w: World, outcome: Outcome, ip: string)
    requires outcome != Silent ==> w.allowed
    ensures Marks(Told(h, w, outcome), ip) ==
            Marks(h, ip) + if w.ip != ip || outcome == Silent then []
                           else if outcome == Failed then [Failure(w.failedAt, w.prunedAt, w.bannedAt)]
                           else [Success]
    ensures BF.FailuresSince(Told(h, w, outcome), ip) ==
            if w.ip != ip || outcome == Silent then BF.FailuresSince(h, ip)
            else if outcome == Failed then BF.FailuresSince(h, ip) + [w.failedAt]
            else []
  {
    if w.allowed {
      var checked := BF.Then(h, BF.Check(w.ip, w.checkedAt));
      assert Marks(checked, ip) == Marks(h, ip) && BF.FailuresSince(checked, ip) == BF.FailuresSince(h, ip);
    }
    assert Marks(h, ip) + [] == Marks(h, ip);
  }

  /** Main result: in every run the failures and successes that the protector is told of are
      exactly the requests answered with a counted failure and the successful ones, in order. */
  lemma {:induction false} EveryFailureIsTold(setup: Setup, t: Trace, ip: string)
    requires ProperRun(setup, t)
    ensures Marks(At(setup, t).log, ip) == Answered(setup, t, ip)
    ensures BF.FailuresSince(At(setup, t).log, ip) == AnsweredFailures(setup, t, ip)
  {
    hide Serve, BF.Run, CountsAsFailure, Told;
    if t.After? {
      EveryFailureIsTold(setup, t.before, ip);
      if t.e.Handle? {
        var s := At(setup, t.before);
        OutcomeIff(setup, BF.Run(setup.config, s.log), t.e.w, t.e.req, Conn(s, t.e.id));
        MarksOfTold(s.log, t.e.w, ServeIn(setup, s, t.e).2, ip);
        assert Answered(setup, t.before, ip) + [] == Answered(setup, t.before, ip);
      }
    }
  }

  /** Main result: a request is answered Banned if and only if it passes the IP list and the last
      ban of its IP that was not lifted is in force. So a ban ends when it expires. */
  lemma BannedReplyIff(setup: Setup, t: Trace, e: Event)
    requires ProperRun(setup, After(t, e)) && e.Handle?
    ensures ReplyTo(setup, t, e) == Refuse(Banned) <==>
            e.w.allowed && BF.InForce(BF.LastBan(setup.config, At(setup, t).log, e.w.ip), e.w.checkedAt)
    ensures ReplyTo(setup, t, e).error == Some(Banned) ==> ReplyTo(setup, t, e) == Refuse(Banned)
  {
    RunsAreGuarded(setup, t);
    hide At, BF.Run, BF.LastBan, BF.IsBanned, BF.InForce, Verifies, CredentialsExpired, BF.Guarded, BF.Monotone;
    BF.BannedIff(setup.config, At(setup, t).log, e.w.ip, e.w.checkedAt);
    OnlyGateSaysBanned(setup, BF.Run(setup.config, At(setup, t).log), e.w, e.req, Conn(At(setup, t), e.id));
  }

  lemma OnlyGateSaysBanned(setup: Setup, p: BF.Protector, w: World, req: Request, c: Connection)
    ensures var r := Serve(setup, p, w, req, c).1;
            && (r == Refuse(Banned) <==> w.allowed && BF.IsBanned(p, w.ip, w.checkedAt))
            && (r.error == Some(Banned) ==> r == Refuse(Banned))
  {
    hide BF.IsBanned, Verifies, CredentialsExpired;
  }

  /** Main result: when a counted failure is the MaxFailures-th inside the window, as the responses
      tell it, every later request from the IP is refused until the ban of that failure expires or
      is lifted by hand. */
  lemma TooManyFailuresBan(setup: Setup, t: Trace, e: Event, t': Trace, e': Event)
    requires e.Handle? && e'.Handle? && e'.w.ip == e.w.ip
    requires ProperRun(setup, After(t, e)) && ProperRun(setup, After(t', e'))
    requires CountsAsFailure(ReplyTo(setup, t, e)) && ContinuesLeavingBan(After(t, e), t', e.w.ip)
    requires var inWindow := BF.StrictlyAfter(AnsweredFailures(setup, After(t, e), e.w.ip),
                                              e.w.prunedAt - setup.config.timeWindow);
             |inWindow| >= setup.config.maxFailures
    requires setup.config.banDuration > 0.0 ==> e'.w.checkedAt <= e.w.bannedAt + setup.config.banDuration
    ensures ReplyTo(setup, t', e') == Refuse(if e'.w.allowed then Banned else Blacklisted)
  {
    var ip := e.w.ip;
    BanAfterFailure(setup, t, e);
    hide ReplyTo, BF.StrictlyAfter, AnsweredFailures, ProperRun;
    BannedIPsStayOut(setup, After(t, e), t', e');
  }

  /** The ban that such a failure gives. */
  lemma BanAfterFailure(setup: Setup, t: Trace, e: Event)
    requires e.Handle? && ProperRun(setup, After(t, e)) && CountsAsFailure(ReplyTo(setup, t, e))
    requires var inWindow := BF.StrictlyAfter(AnsweredFailures(setup, After(t, e), e.w.ip),
                                              e.w.prunedAt - setup.config.timeWindow);
             |inWindow| >= setup.config.maxFailures
    ensures var banned := BF.Run(setup.config, At(setup, After(t, e)).log).banned;
            && e.w.ip in banned
            && var until := banned[e.w.ip].expiresAt;
               until.Some? ==> setup.config.banDuration > 0.0 && until.value == e.w.bannedAt + setup.config.banDuration
  {
    hide Serve, At, ReplyTo, ProperRun, BF.Run, BF.StrictlyAfter, BF.FailuresSince, BF.Guarded, BF.Monotone, BF.Forgotten,
      AnsweredFailures, CountsAsFailure;
    var checked := BF.Then(At(setup, t).log, BF.Check(e.w.ip, e.w.checkedAt));
    var f := BF.Failure(e.w.ip, e.w.failedAt, e.w.prunedAt, e.w.bannedAt);
    LogOfFailure(setup, t, e);
    RunsAreGuarded(setup, After(t, e));
    EveryFailureIsTold(setup, After(t, e), e.w.ip);
    BF.BanDecision(setup.config, checked, f);
  }

  lemma LogOfFailure(setup: Setup, t: Trace, e: Event)
    requires e.Handle? && CountsAsFailure(ReplyTo(setup, t, e))
    ensures var checked := BF.Then(At(setup, t).log, BF.Check(e.w.ip, e.w.checkedAt));
            var f := BF.Failure(e.w.ip, e.w.failedAt, e.w.prunedAt, e.w.bannedAt);
            && At(setup, After(t, e)).log == BF.Then(checked, f)
            && BF.FailuresSince(BF.Then(checked, f), e.w.ip) == BF.FailuresSince(checked, e.w.ip) + [f.at]
  {
    hide Serve, BF.Run, CountsAsFailure;
    var s := At(setup, t);
    OutcomeIff(setup, BF.Run(setup.config, s.log), e.w, e.req, Conn(s, e.id));
  }

  // ---------------------------------------------------------------------------
  // Challenges: issued and checked, as seen in the responses
  // ---------------------------------------------------------------------------

  /** The challenges sent on connection `id`, in order. */
  function Issued(setup: Setup, t: Trace, id: nat): seq<string> {
    match t
    case Boot(_) => []
    case After(before, e) =>
      if e.Handle? && e.id == id && ReplyTo(setup, before, e).needResponse
      then Issued(setup, before, id) + [ReplyTo(setup, before, e).challenge]
      else Issued(setup, before, id)
  }

  /** The responses that tell the outcome of checking an answer. */
  predicate TellsCheck(req: Request, r: Response) {
    r.error == Some(BadCredentials) || (r.success && !FirstConnection(req))
  }

  /** For each check on connection `id`, how many challenges had been sent on it before. */
  function Checked(setup: Setup, t: Trace, id: nat): seq<nat> {
    match t
    case Boot(_) => []
    case After(before, e) =>
      if e.Handle? && e.id == id && TellsCheck(e.req, ReplyTo(setup, before, e))
      then Checked(setup, before, id) + [|Issued(setup, before, id)|]
      else Checked(setup, before, id)
  }

  function Last<T>(s: seq<T>): T
    requires s != []
  {
    s[|s| - 1]
  }

  /** The connection's pending challenge, read off the responses alone: the last one sent, if no
      check came after it. */
  predicate PendingIsLastUnchecked(pending: string, issued: seq<string>, checked: seq<nat>) {
    && (checked != [] ==> Last(checked) <= |issued|)
    && (pending != "" <==> issued != [] && (checked == [] || Last(checked) < |issued|))
    && (pending != "" ==> pending == Last(issued))
  }

  predicate StrictlyIncreasing(s: seq<nat>) {
    forall i, j :: 0 <= i < j < |s| ==> s[i] < s[j]
  }

  /** What one request does to the pending challenge, by the response. */
  lemma PendingAfterServe(setup: Setup, p: BF.Protector, w: World, req: Request, c: Connection)
    requires w.challenge != Some("")
    requires c.pending != "" ==> setup.keys.Some?
    ensures var (c', r, outcome) := Serve(setup, p, w, req, c);
            && (c'.pending != "" ==> setup.keys.Some?)
            && r.error != Some(NilKeyManager)
            && (TellsCheck(req, r) ==> c.pending != "" && c'.pending == "" && !r.needResponse)
            && (r.needResponse ==> r.challenge != "" && c'.pending == r.challenge)
            && (!TellsCheck(req, r) && !r.needResponse ==> c'.pending == c.pending)
  {
    hide BF.IsBanned;
  }

  lemma {:induction false} PendingInRun(setup: Setup, t: Trace, id: nat)
    requires ProperRun(setup, t)
    ensures PendingIsLastUnchecked(Conn(At(setup, t), id).pending, Issued(setup, t, id), Checked(setup, t, id))
    ensures StrictlyIncreasing(Checked(setup, t, id))
    ensures Conn(At(setup, t), id).pending != "" ==> setup.keys.Some?
  {
    hide Serve, BF.Run, TellsCheck;
    if t.After? {
      PendingInRun(setup, t.before, id);
      if t.e.Handle? && t.e.id == id {
        var s := At(setup, t.before);
        PendingAfterServe(setup, BF.Run(setup.config, s.log), t.e.w, t.e.req, Conn(s, id));
      }
    }
  }

  /** No run of the system dereferences a missing key manager. */
  lemma KeyManagerIsThere(setup: Setup, t: Trace, e: Event)
    requires ProperRun(setup, After(t, e)) && e.Handle?
    ensures ReplyTo(setup, t, e).error != Some(NilKeyManager)
  {
    PendingInRun(setup, t, e.id);
    var s := At(setup, t);
    PendingAfterServe(setup, BF.Run(setup.config, s.log), e.w, e.req, Conn(s, e.id));
  }

  lemma AllBelow(issued: seq<string>, checked: seq<nat>)
    requires StrictlyIncreasing(checked)
    ensures checked == [] || Last(checked) < |issued| ==> forall k :: k in checked ==> k < |issued|
  {}

  /** Main result: an answer is checked only against the last challenge sent on the same
      connection, that challenge has not been checked before, and each check uses it up. */
  lemma EachChallengeIsCheckedOnce(setup: Setup, t: Trace, e: Event)
    requires ProperRun(setup, After(t, e)) && e.Handle? && TellsCheck(e.req, ReplyTo(setup, t, e))
    ensures Issued(setup, t, e.id) != []
    ensures forall k :: k in Checked(setup, t, e.id) ==> k < |Issued(setup, t, e.id)|
    ensures Conn(At(setup, t), e.id).pending == Last(Issued(setup, t, e.id))
    ensures Conn(At(setup, After(t, e)), e.id).pending == ""
  {
    hide Serve, BF.Run, TellsCheck, Issued, Checked, StrictlyIncreasing;
    PendingInRun(setup, t, e.id);
    var s := At(setup, t);
    PendingAfterServe(setup, BF.Run(setup.config, s.log), e.w, e.req, Conn(s, e.id));
    AllBelow(Issued(setup, t, e.id), Checked(setup, t, e.id));
  }

  // ---------------------------------------------------------------------------
  // Authentication
  // ---------------------------------------------------------------------------

  /** The three gates are open and the client is known and unexpired. */
  predicate Admitted(setup: Setup, p: BF.Protector, w: World, req: Request) {
    && w.allowed && !BF.IsBanned(p, w.ip, w.checkedAt) && (req.clientID == 0 ==> w.withinRate)
    && w.clients(req.clientID).Some? && !CredentialsExpired(w.clients(req.clientID).value, w.now)
  }

  /** Main result: on any run, a request of an existing client succeeds if and only if it is
      admitted and answers, with that client's key, the last challenge sent on this connection,
      which must be unchecked; a refused request authenticates nobody. */
  lemma AuthenticatedIffAnswered(setup: Setup, t: Trace, e: Event)
    requires ProperRun(setup, After(t, e)) && e.Handle? && !FirstConnection(e.req)
    ensures ReplyTo(setup, t, e).success <==>
            && Admitted(setup, BF.Run(setup.config, At(setup, t).log), e.w, e.req)
            && e.req.answer != ""
            && setup.keys.Some?
            && var issued, checked := Issued(setup, t, e.id), Checked(setup, t, e.id);
               && issued != [] && |issued| !in checked
               && Verifies(setup.keys.value, e.w.clients(e.req.clientID).value.encrypted, Last(issued), e.req.answer)
    ensures var c, c' := Conn(At(setup, t), e.id), Conn(At(setup, After(t, e)), e.id);
            (c'.authenticated, c'.clientID) ==
            if ReplyTo(setup, t, e).success then (true, e.req.clientID) else (c.authenticated, c.clientID)
  {
    PendingInRun(setup, t, e.id);
    var issued, checked := Issued(setup, t, e.id), Checked(setup, t, e.id);
    var s := At(setup, t);
    CountsChecked(issued, checked);
    AcceptedIff(setup, BF.Run(setup.config, s.log), e.w, e.req, Conn(s, e.id));
    hide Serve, BF.Run, Issued, Checked, Verifies, Admitted, FirstConnection;
  }

  /** Main result for first connections: one is registered if and only if it passes the IP list,
      the ban and the rate limit, and credentials can be issued; then the connection belongs to the
      new client. */
  lemma RegisteredIff(setup: Setup, t: Trace, e: Event)
    requires ProperRun(setup, After(t, e)) && e.Handle? && FirstConnection(e.req)
    ensures var r := ReplyTo(setup, t, e);
            && (r.success <==>
                && e.w.allowed && e.w.withinRate && e.w.credentials.Some?
                && !BF.InForce(BF.LastBan(setup.config, At(setup, t).log, e.w.ip), e.w.checkedAt))
            && (r.success ==> (r.clientID, r.secretKey) == e.w.credentials.value)
    ensures var c, c' := Conn(At(setup, t), e.id), Conn(At(setup, After(t, e)), e.id);
            c' == if ReplyTo(setup, t, e).success then c.(clientID := e.w.credentials.value.0, authenticated := true) else c
  {
    RunsAreGuarded(setup, t);
    hide At, BF.Run, BF.LastBan, BF.IsBanned, BF.InForce, BF.Guarded, BF.Monotone;
    BF.BannedIff(setup.config, At(setup, t).log, e.w.ip, e.w.checkedAt);
    AfterOne(setup, t, e);
  }

  lemma AfterOne(setup: Setup, t: Trace, e: Event)
    requires e.Handle?
    ensures Conn(At(setup, After(t, e)), e.id) == ServeIn(setup, At(setup, t), e).0
  {
    hide Serve, BF.Run;
  }

  /** A challenge is sent exactly to an admitted client that has not answered yet, if the server
      has its key and can draw one. */
  lemma ChallengedIff(setup: Setup, t: Trace, e: Event)
    requires ProperRun(setup, After(t, e)) && e.Handle?
    ensures var r := ReplyTo(setup, t, e);
            && (r.needResponse <==>
                && !FirstConnection(e.req) && Admitted(setup, BF.Run(setup.config, At(setup, t).log), e.w, e.req)
                && e.req.answer == "" && setup.keys.Some? && e.w.challenge.Some?
                && e.w.clients(e.req.clientID).value.encrypted != "")
            && (r.needResponse ==> e.w.challenge == Some(r.challenge) && !r.success)
  {
    hide At, BF.Run, BF.IsBanned, Verifies, CredentialsExpired;
  }

  /** A request for new credentials: no client ID, and one of the two kinds of token. */
  lemma FirstConnectionIff(req: Request)
    ensures FirstConnection(req) <==>
            && req.clientID == 0
            && (req.token == "new-client" || (|req.token| >= 10 && req.token[..10] == "anonymous:"))
  {
    if |req.token| >= 10 {
      assert "anonymous:" <= req.token <==> req.token[..10] == "anonymous:";
    }
  }

  /** Which gate refuses a request, by the state of one connection. */
  lemma RefusedAt(setup: Setup, p: BF.Protector, w: World, req: Request, c: Connection)
    requires c.pending != "" ==> setup.keys.Some?
    ensures var e := Serve(setup, p, w, req, c).1.error;
            var gates := w.allowed && !BF.IsBanned(p, w.ip, w.checkedAt) && (req.clientID == 0 ==> w.withinRate);
            var client := w.clients(req.clientID);
            var known := && gates && !FirstConnection(req) && client.Some?
                         && (client.value.expiresAt.Some? ==> w.now <= client.value.expiresAt.value);
            && (e == Some(Blacklisted) <==> !w.allowed)
            && (e == Some(RateLimited) <==>
                w.allowed && !BF.IsBanned(p, w.ip, w.checkedAt) && req.clientID == 0 && !w.withinRate)
            && (e == Some(NotIssued) <==> gates && FirstConnection(req) && w.credentials.None?)
            && (e == Some(NotFound) <==> gates && !FirstConnection(req) && client.None?)
            && (e == Some(Expired) <==> gates && !FirstConnection(req) && client.Some? && !known)
            && (e == Some(NoKeyManager) <==> known && req.answer == "" && setup.keys.None?)
            && (e == Some(NoKey) <==> known && req.answer == "" && setup.keys.Some? && client.value.encrypted == "")
            && (e == Some(NoChallenge) <==>
                known && req.answer == "" && setup.keys.Some? && client.value.encrypted != "" && w.challenge.None?)
            && (e == Some(NoPending) <==> known && req.answer != "" && c.pending == "")
            && (e == Some(BadCredentials) <==>
                && known && req.answer != "" && c.pending != ""
                && var key := setup.keys.value.decrypt(client.value.encrypted);
                   !(key.Some? && setup.keys.value.mac(key.value, c.pending) == req.answer))
            && e != Some(NilKeyManager)
  {
    hide BF.IsBanned, FirstConnection;
  }

  /** Main result: in every run each refusal has exactly its own cause, read off the request, the
      bans in the protector's history and the challenges sent and checked on the connection; a
      request that none of them applies to is registered, challenged or authenticated. */
  lemma RefusalIff(setup: Setup, t: Trace, e: Event)
    requires ProperRun(setup, After(t, e)) && e.Handle?
    ensures var r, w, req := ReplyTo(setup, t, e), e.w, e.req;
            var banned := BF.InForce(BF.LastBan(setup.config, At(setup, t).log, w.ip), w.checkedAt);
            var gates := w.allowed && !banned && (req.clientID == 0 ==> w.withinRate);
            var client := w.clients(req.clientID);
            var known := && gates && !FirstConnection(req) && client.Some?
                         && (client.value.expiresAt.Some? ==> w.now <= client.value.expiresAt.value);
            var issued, checked := Issued(setup, t, e.id), Checked(setup, t, e.id);
            var pending := issued != [] && |issued| !in checked;
            && (r.error == Some(Blacklisted) <==> !w.allowed)
            && (r.error == Some(Banned) <==> w.allowed && banned)
            && (r.error == Some(RateLimited) <==> w.allowed && !banned && req.clientID == 0 && !w.withinRate)
            && (r.error == Some(NotIssued) <==> gates && FirstConnection(req) && w.credentials.None?)
            && (r.error == Some(NotFound) <==> gates && !FirstConnection(req) && client.None?)
            && (r.error == Some(Expired) <==> gates && !FirstConnection(req) && client.Some? && !known)
            && (r.error == Some(NoKeyManager) <==> known && req.answer == "" && setup.keys.None?)
            && (r.error == Some(NoKey) <==> known && req.answer == "" && setup.keys.Some? && client.value.encrypted == "")
            && (r.error == Some(NoChallenge) <==>
                known && req.answer == "" && setup.keys.Some? && client.value.encrypted != "" && w.challenge.None?)
            && (r.error == Some(NoPending) <==> known && req.answer != "" && !pending)
            && (r.error == Some(BadCredentials) <==>
                && known && req.answer != "" && pending && setup.keys.Some?
                && var key := setup.keys.value.decrypt(client.value.encrypted);
                   !(key.Some? && setup.keys.value.mac(key.value, Last(issued)) == req.answer))
            && r.error != Some(NilKeyManager)
            && (r.error == None <==> r.success || r.needResponse)
  {
    RunsAreGuarded(setup, t);
    PendingInRun(setup, t, e.id);
    BannedReplyIff(setup, t, e);
    var s := At(setup, t);
    var issued, checked := Issued(setup, t, e.id), Checked(setup, t, e.id);
    CountsChecked(issued, checked);
    BF.BannedIff(setup.config, s.log, e.w.ip, e.w.checkedAt);
    RefusedAt(setup, BF.Run(setup.config, s.log), e.w, e.req, Conn(s, e.id));
    NoErrorIff(setup, BF.Run(setup.config, s.log), e.w, e.req, Conn(s, e.id));
    hide Serve, BF.Run, BF.IsBanned, BF.LastBan, BF.InForce, FirstConnection, Issued, Checked, At, BF.Guarded, BF.Monotone;
  }

  lemma NoErrorIff(setup: Setup, p: BF.Protector, w: World, req: Request, c: Connection)
    ensures var r := Serve(setup, p, w, req, c).1; r.error == None <==> r.success || r.needResponse
  {
    hide BF.IsBanned, FirstConnection, Verifies, CredentialsExpired;
  }

  lemma CountsChecked(issued: seq<string>, checked: seq<nat>)
    requires StrictlyIncreasing(checked) && (checked != [] ==> Last(checked) <= |issued|)
    ensures |issued| in checked <==> checked != [] && Last(checked) == |issued|
  {}

  lemma AcceptedIff(setup: Setup, p: BF.Protector, w: World, req: Request, c: Connection)
    requires !FirstConnection(req) && (c.pending != "" ==> setup.keys.Some?)
    ensures var (c', r, outcome) := Serve(setup, p, w, req, c);
            && (r.success <==>
                && Admitted(setup, p, w, req) && req.answer != "" && setup.keys.Some? && c.pending != ""
                && Verifies(setup.keys.value, w.clients(req.clientID).value.encrypted, c.pending, req.answer))
            && (c'.authenticated, c'.clientID) == if r.success then (true, req.clientID) else (c.authenticated, c.clientID)
  {
    hide BF.IsBanned, FirstConnection;
  }
}
