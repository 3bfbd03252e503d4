/** The server's handshake handler as the source writes it: a connection object and a protector
    object that the handler updates. Proved against HandshakeModel. */
module ServerAuth {
  import opened Options
  import opened HandshakeModel
  import BF = BruteForceModel
  import opened BruteForceProtection

  class ControlConnection {
    var pendingChallenge: string
    var clientID: int
    var authenticated: bool

    function View(): Connection
      reads this
    {
      Connection(pendingChallenge, clientID, authenticated)
    }

    constructor ()
      ensures View() == NEW_CONNECTION
    {
      pendingChallenge, clientID, authenticated := "", 0, false;
    }
  }

  /** What one call on the protector after the IsBanned check leaves behind. */
  function Recorded(p: BF.Protector, config: BF.Config, w: World, outcome: Outcome): BF.Protector {
    match outcome
    case Silent => p
    case Failed => BF.FailureStep(p, config, w.ip, w.failedAt, w.prunedAt, w.bannedAt).1
    case Succeeded => p.(failures := p.failures - {w.ip})
  }

  /** The protector after a request is the one the history of calls describes. */
  lemma ToldIsRecorded(config: BF.Config, h: BF.History, w: World, outcome: Outcome)
    requires w.allowed
    ensures BF.Run(config, Told(h, w, outcome)) ==
            Recorded(BF.CheckStep(BF.Run(config, h), w.ip, w.checkedAt), config, w, outcome)
  {
    hide BF.FailureStep, BF.CheckStep;
  }

  class ServerAuthHandler {
    const keys: Option<Crypto>
    const protector: BruteForceProtector

    constructor (keys: Option<Crypto>, protector: BruteForceProtector)
      ensures this.keys == keys && this.protector == protector
    {
      this.keys, this.protector := keys, protector;
    }

    function Config(): Setup {
      Setup(protector.config, keys)
    }

    ghost predicate Valid()
      reads protector
    {
      protector.Valid()
    }

    method RecordFailure(w: World)
      requires Valid()
      modifies protector, protector.failures.Values
      ensures Valid() && fresh(protector.failures.Values - old(protector.failures.Values))
      ensures protector.View() == Recorded(old(protector.View()), protector.config, w, Failed)
    {
      hide BF.FailureStep;
      var banned := protector.RecordFailure(w.ip, w.failedAt, w.prunedAt, w.bannedAt);
    }

    method RecordSuccess(w: World)
      requires Valid()
      modifies protector, protector.failures.Values
      ensures Valid() && protector.failures.Values <= old(protector.failures.Values)
      ensures protector.View() == Recorded(old(protector.View()), protector.config, w, Succeeded)
    {
      protector.RecordSuccess(w.ip);
    }

    method HandleFirstConnection(conn: ControlConnection, w: World) returns (resp: Response)
      requires Valid()
      modifies conn, protector, protector.failures.Values
      ensures Valid() && fresh(protector.failures.Values - old(protector.failures.Values))
      ensures var (c, r, outcome) := Register(w, old(conn.View()));
              && conn.View() == c && resp == r
              && protector.View() == Recorded(old(protector.View()), protector.config, w, outcome)
    {
      hide Recorded;
      if w.credentials.None? {
        RecordFailure(w);
        return Refuse(NotIssued);
      }
      var (id, secretKey) := w.credentials.value;
      RecordSuccess(w);
      conn.clientID := id;
      conn.authenticated := true;
      return Response(true, false, "", id, secretKey, None);
    }

    method HandleChallengePhase1(conn: ControlConnection, client: ClientConfig, w: World) returns (resp: Response)
      modifies conn
      ensures (conn.View(), resp, Silent) == SendChallenge(keys, w, client, old(conn.View()))
    {
      if keys.None? {
        return Refuse(NoKeyManager);
      }
      if client.encrypted == "" {
        return Refuse(NoKey);
      }
      var challenge := w.challenge;
      if challenge.None? {
        return Refuse(NoChallenge);
      }
      conn.pendingChallenge := challenge.value;
      return Response(false, true, challenge.value, 0, "", None);
    }

    method HandleChallengePhase2(conn: ControlConnection, client: ClientConfig, w: World, req: Request)
      returns (resp: Response)
      requires Valid() && (conn.pendingChallenge != "" ==> keys.Some?)
      modifies conn, protector, protector.failures.Values
      ensures Valid() && fresh(protector.failures.Values - old(protector.failures.Values))
      ensures var (c, r, outcome) := CheckAnswer(keys, client, req, old(conn.View()));
              && conn.View() == c && resp == r
              && protector.View() == Recorded(old(protector.View()), protector.config, w, outcome)
    {
      hide Recorded;
      var challenge := conn.pendingChallenge;
      if challenge == "" {
        RecordFailure(w);
        return Refuse(NoPending);
      }
      conn.pendingChallenge := "";
      if !Verifies(keys.value, client.encrypted, challenge, req.answer) {
        RecordFailure(w);
        return Refuse(BadCredentials);
      }
      RecordSuccess(w);
      conn.clientID := req.clientID;
      conn.authenticated := true;
      return ACCEPTED;
    }

    /** The part of HandleHandshake behind the three gates. */
    method HandleAdmitted(conn: ControlConnection, w: World, req: Request) returns (resp: Response)
      requires Valid() && (conn.pendingChallenge != "" ==> keys.Some?)
      modifies conn, protector, protector.failures.Values
      ensures Valid() && fresh(protector.failures.Values - old(protector.failures.Values))
      ensures var (c, r, outcome) := Judge(keys, w, req, old(conn.View()));
              && conn.View() == c && resp == r
              && protector.View() == Recorded(old(protector.View()), protector.config, w, outcome)
    {
      hide Register, SendChallenge, CheckAnswer;
      if req.clientID == 0 && (req.token == "new-client" || "anonymous:" <= req.token) {
        resp := HandleFirstConnection(conn, w);
        return;
      }
      var client := w.clients(req.clientID);
      if client.None? {
        RecordFailure(w);
        return Refuse(NotFound);
      }
      if client.value.expiresAt.Some? && w.now > client.value.expiresAt.value {
        return Refuse(Expired);
      }
      if req.answer == "" {
        resp := HandleChallengePhase1(conn, client.value, w);
      } else {
        resp := HandleChallengePhase2(conn, client.value, w, req);
      }
    }

    /** The protector ends as the run of the calls that `Told` lists, from any history `h` that
        describes it before. */
    method HandleHandshake(conn: ControlConnection, w: World, req: Request, ghost h: BF.History) returns (resp: Response)
      requires Valid() && (conn.pendingChallenge != "" ==> keys.Some?)
      requires protector.View() == BF.Run(protector.config, h)
      modifies conn, protector, protector.failures.Values
      ensures Valid() && fresh(protector.failures.Values - old(protector.failures.Values))
      ensures var (c, r, outcome) := Serve(Config(), old(protector.View()), w, req, old(conn.View()));
              && conn.View() == c && resp == r
              && protector.View() == BF.Run(protector.config, Told(h, w, outcome))
    {
      hide Judge, BF.Run, BF.CheckStep, BF.IsBanned, Recorded;
      if !w.allowed {
        return Refuse(Blacklisted);
      }
      ghost var p := BF.CheckStep(protector.View(), w.ip, w.checkedAt);
      var banned := protector.IsBannedNow(w.ip, w.checkedAt);
      ToldIsRecorded(protector.config, h, w, Silent);
      NothingRecorded(p, protector.config, w);
      if banned {
        return Refuse(Banned);
      }
      if req.clientID == 0 && !w.withinRate {
        return Refuse(RateLimited);
      }
      ToldIsRecorded(protector.config, h, w, Judge(keys, w, req, conn.View()).2);
      resp := HandleAdmitted(conn, w, req);
    }
  }

  lemma NothingRecorded(p: BF.Protector, config: BF.Config, w: World)
    ensures Recorded(p, config, w, Silent) == p
  {}
}
