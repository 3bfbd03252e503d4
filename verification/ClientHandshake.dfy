/** The client side of the handshake, internal/client/control_connection_handshake.go, and the
    two sides together. */
module ClientHandshake {
  import opened Options
  import opened HandshakeModel
  import BF = BruteForceModel

  /** What ReadPacket can hand to a waiting client. Garbled is a handshake response whose payload
      is no JSON; Unexpected is any other packet type. */
  datatype Packet = Heartbeat | NilPacket | Reply(r: Response) | Garbled | Unexpected

  datatype HandshakeError = ReadFailed | BadPayload | WrongPacket | Rejected(r: Response) | NoSecretKey

  datatype Credentials = Credentials(clientID: int, secretKey: string)

  /** The MAC the client shares with the server, and whether the text of a rejection mentions
      authentication, a token, a credential or an expiry. */
  datatype Terms = Terms(mac: (string, string) -> string, hopeless: Response -> bool)

  datatype Answer = Answer(r: Option<Response>, error: Option<HandshakeError>, rest: seq<Packet>)

  /** The wait of `sendHandshakeRequest`. */
  function Await(incoming: seq<Packet>): (a: Answer)
    ensures (a.r.Some? <==> a.error.None?) && a.error != Some(NoSecretKey)
  {
    if |incoming| == 0 then Answer(None, Some(ReadFailed), [])
    else
      var rest := incoming[1..];
      match incoming[0]
      case Heartbeat => Await(rest)
      case NilPacket => Await(rest)
      case Reply(r) =>
        if !r.success && !r.needResponse then Answer(None, Some(Rejected(r)), rest) else Answer(Some(r), None, rest)
      case Garbled => Answer(None, Some(BadPayload), rest)
      case Unexpected => Answer(None, Some(WrongPacket), rest)
  }

  function FirstRequest(creds: Credentials): Request {
    if creds.clientID > 0 && creds.secretKey != "" then Request(creds.clientID, creds.secretKey, "")
    else Request(0, "new-client", "")
  }

  function SecondRequest(creds: Credentials, mac: (string, string) -> string, challenge: string): Request {
    Request(creds.clientID, "", mac(creds.secretKey, challenge))
  }

  /** The requests sent, the credentials and the "do not reconnect" mark afterwards, the error
      (None for success), and the packets left unread. */
  datatype ClientRun = ClientRun(sent: seq<Request>, creds: Credentials, authFailed: bool, error: Option<HandshakeError>,
                                 rest: seq<Packet>)

  predicate GivesUp(terms: Terms, error: HandshakeError) {
    error.Rejected? && terms.hopeless(error.r)
  }

  /** Phase 3. */
  function Finish(sent: seq<Request>, creds: Credentials, failed: bool, control: bool, a: Answer): ClientRun
    requires a.r.Some?
  {
    var r := a.r.value;
    if !r.success then ClientRun(sent, creds, true, Some(Rejected(r)), a.rest)
    else
      var creds' := if control && r.clientID > 0 && r.secretKey != "" then Credentials(r.clientID, r.secretKey) else creds;
      ClientRun(sent, creds', failed, None, a.rest)
  }

  /** `sendHandshakeOnStream` */
  function SendHandshake(creds: Credentials, failed: bool, terms: Terms, control: bool, incoming: seq<Packet>): ClientRun {
    var req := FirstRequest(creds);
    var a := Await(incoming);
    if a.r.None? then
      ClientRun([req], creds, failed || GivesUp(terms, a.error.value), a.error, a.rest)
    else if a.r.value.needResponse && a.r.value.challenge != "" then
      if creds.secretKey == "" then ClientRun([req], creds, true, Some(NoSecretKey), a.rest)
      else
        var req2 := SecondRequest(creds, terms.mac, a.r.value.challenge);
        var b := Await(a.rest);
        if b.r.None? then
          ClientRun([req, req2], creds, failed || GivesUp(terms, b.error.value), b.error, b.rest)
        else Finish([req, req2], creds, failed, control, b)
    else Finish([req], creds, failed, control, a)
  }

  // ---------------------------------------------------------------------------
  // Both sides
  // ---------------------------------------------------------------------------

  predicate OnlyBeats(packets: seq<Packet>) {
    forall p :: p in packets ==> p.Heartbeat? || p.NilPacket?
  }

  lemma {:induction false} BeatsAreSkipped(beats: seq<Packet>, more: seq<Packet>)
    requires OnlyBeats(beats)
    ensures Await(beats + more) == Await(more)
    decreases |beats|
  {
    if |beats| == 0 {
      assert beats + more == more;
    } else {
      assert (beats + more)[0] == beats[0];
      assert (beats + more)[1..] == beats[1..] + more;
      BeatsAreSkipped(beats[1..], more);
    }
  }

  lemma ReplyIsRead(beats: seq<Packet>, r: Response, more: seq<Packet>)
    requires OnlyBeats(beats) && (r.success || r.needResponse)
    ensures Await(beats + [Reply(r)] + more) == Answer(Some(r), None, more)
  {
    assert beats + [Reply(r)] + more == beats + ([Reply(r)] + more);
    BeatsAreSkipped(beats, [Reply(r)] + more);
    assert ([Reply(r)] + more)[1..] == more;
  }

  /** Behind any heartbeats: a rejection, a payload that is no JSON, any other packet type and the
      end of the stream each end the wait with their own error, and nothing behind is read. */
  lemma WaitFails(beats: seq<Packet>, r: Response, more: seq<Packet>)
    requires OnlyBeats(beats) && !r.success && !r.needResponse
    ensures Await(beats + [Reply(r)] + more) == Answer(None, Some(Rejected(r)), more)
    ensures Await(beats + [Garbled] + more) == Answer(None, Some(BadPayload), more)
    ensures Await(beats + [Unexpected] + more) == Answer(None, Some(WrongPacket), more)
    ensures Await(beats) == Answer(None, Some(ReadFailed), [])
  {
    hide Await;
    NextEnds(beats, Reply(r), more);
    NextEnds(beats, Garbled, more);
    NextEnds(beats, Unexpected, more);
    BeatsAreSkipped(beats, []);
    assert beats + [] == beats;
    AwaitStep([]);
  }

  lemma NextEnds(beats: seq<Packet>, last: Packet, more: seq<Packet>)
    requires OnlyBeats(beats)
    ensures Await(beats + [last] + more) == Await([last] + more)
    ensures last.Garbled? ==> Await([last] + more) == Answer(None, Some(BadPayload), more)
    ensures last.Unexpected? ==> Await([last] + more) == Answer(None, Some(WrongPacket), more)
    ensures last.Reply? && !last.r.success && !last.r.needResponse ==>
              Await([last] + more) == Answer(None, Some(Rejected(last.r)), more)
  {
    assert beats + [last] + more == beats + ([last] + more);
    BeatsAreSkipped(beats, [last] + more);
    assert ([last] + more)[1..] == more && ([last] + more)[0] == last;
  }

  /** The client succeeds only on a success response, keeps its credentials otherwise, and gives up
      reconnecting for the sake of one handshake exactly when it cannot answer a challenge, gets a
      response that is no success where it needs one, or is rejected with a hopeless text. */
  lemma ClientOutcome(creds: Credentials, failed: bool, terms: Terms, control: bool, incoming: seq<Packet>)
    ensures var run := SendHandshake(creds, failed, terms, control, incoming);
            var a := Await(incoming);
            var challenged := a.r.Some? && a.r.value.needResponse && a.r.value.challenge != "";
            var last := if challenged && creds.secretKey != "" then Await(a.rest) else a;
            && (run.error.None? <==> last.r.Some? && last.r.value.success && (challenged ==> creds.secretKey != ""))
            && (run.creds != creds ==>
                  && run.error.None? && control && last.r.value.clientID > 0 && last.r.value.secretKey != ""
                  && run.creds == Credentials(last.r.value.clientID, last.r.value.secretKey))
            && (run.authFailed <==>
                || failed
                || run.error == Some(NoSecretKey)
                || (run.error.Some? && run.error.value.Rejected? && (last.r.Some? || terms.hopeless(run.error.value.r))))
            && |run.sent| == if challenged && creds.secretKey != "" then 2 else 1
  {
    hide Await;
  }

  /** `t` continues `t0` without a request on connection `id`. */
  ghost predicate OthersOnly(t0: Trace, t: Trace, id: nat) {
    t == t0 || (t.After? && OthersOnly(t0, t.before, id) && (t.e.Handle? ==> t.e.id != id))
  }

  lemma {:induction false} OthersLeaveConnection(setup: Setup, t0: Trace, t: Trace, id: nat)
    requires OthersOnly(t0, t, id)
    ensures Conn(At(setup, t), id) == Conn(At(setup, t0), id)
    decreases t
  {
    hide Serve, BF.Run;
    if t != t0 {
      OthersLeaveConnection(setup, t0, t.before, id);
    }
  }

  /** The server issues a challenge to an admitted client and faces no fault. */
  predicate NoFault(setup: Setup, e: Event)
    requires e.Handle? && e.w.clients(e.req.clientID).Some?
  {
    setup.keys.Some? && e.w.challenge.Some? && e.w.clients(e.req.clientID).value.encrypted != ""
  }

  lemma ChallengeIsSent(setup: Setup, t: Trace, e: Event)
    requires e.Handle? && e.req.clientID > 0 && e.req.answer == ""
    requires Admitted(setup, BF.Run(setup.config, At(setup, t).log), e.w, e.req) && NoFault(setup, e)
    ensures ReplyTo(setup, t, e) == Response(false, true, e.w.challenge.value, 0, "", None)
    ensures Conn(At(setup, After(t, e)), e.id).pending == e.w.challenge.value
  {
    hide BF.IsBanned, BF.Run, CredentialsExpired;
  }

  lemma AnswerIsAccepted(setup: Setup, t: Trace, e: Event)
    requires e.Handle? && e.req.clientID > 0 && e.req.answer != "" && setup.keys.Some?
    requires Admitted(setup, BF.Run(setup.config, At(setup, t).log), e.w, e.req)
    requires var pending := Conn(At(setup, t), e.id).pending;
             pending != "" &&
             Verifies(setup.keys.value, e.w.clients(e.req.clientID).value.encrypted, pending, e.req.answer)
    ensures ReplyTo(setup, t, e) == ACCEPTED
    ensures var c := Conn(At(setup, After(t, e)), e.id); c.authenticated && c.clientID == e.req.clientID && c.pending == ""
  {
    hide BF.IsBanned, BF.Run, CredentialsExpired, Verifies;
  }

  /** What a client with credentials does on a challenge and then an acceptance. */
  lemma ClientAnswers(creds: Credentials, failed: bool, terms: Terms, control: bool, beats: seq<Packet>, r: Response,
                      beats': seq<Packet>, more: seq<Packet>)
    requires creds.clientID > 0 && creds.secretKey != "" && OnlyBeats(beats) && OnlyBeats(beats')
    requires r.needResponse && r.challenge != ""
    ensures SendHandshake(creds, failed, terms, control, beats + [Reply(r)] + (beats' + [Reply(ACCEPTED)] + more))
         == ClientRun([FirstRequest(creds), SecondRequest(creds, terms.mac, r.challenge)], creds, failed, None, more)
  {
    hide Await, OnlyBeats;
    ReplyIsRead(beats, r, beats' + [Reply(ACCEPTED)] + more);
    ReplyIsRead(beats', ACCEPTED, more);
  }

  /** Main result: a client that holds the stored key, is admitted at both its requests and meets
      no server fault is authenticated by exactly two requests: whatever heartbeats arrive
      before each response, whatever packets wait behind the second, and whatever other
      connections and the operator do between the two requests. */
  lemma AuthenticatedInTwo(setup: Setup, t: Trace, e: Event, t': Trace, e': Event, creds: Credentials, terms: Terms,
                           failed: bool, control: bool, beats: seq<Packet>, beats': seq<Packet>, more: seq<Packet>)
    requires creds.clientID > 0 && creds.secretKey != ""
    requires e.Handle? && e'.Handle? && e'.id == e.id && OthersOnly(After(t, e), t', e.id)
    requires e.w.challenge != Some("")
    requires e.req == FirstRequest(creds)
    requires e'.req == SecondRequest(creds, terms.mac, ReplyTo(setup, t, e).challenge)
    requires Admitted(setup, BF.Run(setup.config, At(setup, t).log), e.w, e.req) && NoFault(setup, e)
    requires Admitted(setup, BF.Run(setup.config, At(setup, t').log), e'.w, e'.req)
    requires setup.keys.value.mac == terms.mac && terms.mac(creds.secretKey, e.w.challenge.value) != ""
    requires setup.keys.value.decrypt(e'.w.clients(creds.clientID).value.encrypted) == Some(creds.secretKey)
    requires OnlyBeats(beats) && OnlyBeats(beats')
    ensures var r, r' := ReplyTo(setup, t, e), ReplyTo(setup, t', e');
            && r' == ACCEPTED
            && Conn(At(setup, After(t', e')), e.id) == Connection("", creds.clientID, true)
            && SendHandshake(creds, failed, terms, control, beats + [Reply(r)] + (beats' + [Reply(r')] + more))
               == ClientRun([e.req, e'.req], creds, failed, None, more)
  {
    hide Serve, At, BF.Run, Admitted, Await, CredentialsExpired, SendHandshake, OnlyBeats;
    ChallengeIsSent(setup, t, e);
    OthersLeaveConnection(setup, After(t, e), t', e.id);
    AnswerIsAccepted(setup, t', e');
    ClientAnswers(creds, failed, terms, control, beats, ReplyTo(setup, t, e), beats', more);
  }

  /** A client without credentials is registered by one request, and a control connection keeps
      the credentials it was sent for the next time. */
  lemma RegisteredInOne(setup: Setup, t: Trace, e: Event, creds: Credentials, terms: Terms, failed: bool, control: bool,
                        beats: seq<Packet>, more: seq<Packet>)
    requires creds.clientID <= 0 || creds.secretKey == ""
    requires e.Handle? && e.req == FirstRequest(creds)
    requires e.w.allowed && e.w.withinRate && !BF.IsBanned(BF.Run(setup.config, At(setup, t).log), e.w.ip, e.w.checkedAt)
    requires e.w.credentials.Some? && e.w.credentials.value.0 > 0 && e.w.credentials.value.1 != ""
    requires OnlyBeats(beats)
    ensures var (id, key) := e.w.credentials.value;
            var r := ReplyTo(setup, t, e);
            && SendHandshake(creds, failed, terms, control, beats + [Reply(r)] + more)
               == ClientRun([e.req], if control then Credentials(id, key) else creds, failed, None, more)
            && Conn(At(setup, After(t, e)), e.id).authenticated
            && Conn(At(setup, After(t, e)), e.id).clientID == id
  {
    hide BF.IsBanned, BF.Run, Await;
    var r := ReplyTo(setup, t, e);
    ReplyIsRead(beats, r, more);
  }

  // ---------------------------------------------------------------------------
  // As the source writes it
  // ---------------------------------------------------------------------------

  /** The two directions of a stream: requests written and packets not yet read. */
  class Stream {
    var sent: seq<Request>
    var incoming: seq<Packet>

    method WritePacket(req: Request)
      modifies this
      ensures sent == old(sent) + [req] && incoming == old(incoming)
    {
      sent := sent + [req];
    }

    /** None when the read fails. */
    method ReadPacket() returns (p: Option<Packet>)
      modifies this
      ensures sent == old(sent)
      ensures old(incoming) == [] ==> p == None && incoming == []
      ensures old(incoming) != [] ==> p == Some(old(incoming)[0]) && incoming == old(incoming)[1..]
    {
      if |incoming| == 0 {
        return None;
      }
      p := Some(incoming[0]);
      incoming := incoming[1..];
    }
  }

  lemma AwaitStep(incoming: seq<Packet>)
    ensures |incoming| == 0 ==> Await(incoming) == Answer(None, Some(ReadFailed), [])
    ensures |incoming| > 0 ==>
              var first, rest := incoming[0], incoming[1..];
              && (first.Heartbeat? || first.NilPacket? ==> Await(incoming) == Await(rest))
              && (first.Garbled? ==> Await(incoming) == Answer(None, Some(BadPayload), rest))
              && (first.Unexpected? ==> Await(incoming) == Answer(None, Some(WrongPacket), rest))
              && (first.Reply? ==>
                    Await(incoming) ==
                    if !first.r.success && !first.r.needResponse then Answer(None, Some(Rejected(first.r)), rest)
                    else Answer(Some(first.r), None, rest))
  {}

  class TunnoxClient {
    var config: Credentials
    var authFailed: bool
    const terms: Terms

    constructor (config: Credentials, terms: Terms)
      ensures this.config == config && this.terms == terms && !authFailed
    {
      this.config, this.terms, authFailed := config, terms, false;
    }

    method SendHandshakeRequest(stream: Stream, req: Request) returns (resp: Option<Response>, error: Option<HandshakeError>)
      modifies this`authFailed, stream
      ensures stream.sent == old(stream.sent) + [req]
      ensures Answer(resp, error, stream.incoming) == Await(old(stream.incoming))
      ensures authFailed == (old(authFailed) || (error.Some? && GivesUp(terms, error.value)))
    {
      hide Await;
      stream.WritePacket(req);
      var respPkt: Response;
      while true
        invariant stream.sent == old(stream.sent) + [req]
        invariant Await(stream.incoming) == Await(old(stream.incoming))
        invariant authFailed == old(authFailed)
        decreases |stream.incoming|
      {
        AwaitStep(stream.incoming);
        var pkt := stream.ReadPacket();
        if pkt.None? {
          return None, Some(ReadFailed);
        }
        if pkt.value.NilPacket? || pkt.value.Heartbeat? {
          continue;
        }
        if pkt.value.Unexpected? {
          return None, Some(WrongPacket);
        }
        if pkt.value.Garbled? {
          return None, Some(BadPayload);
        }
        respPkt := pkt.value.r;
        break;
      }
      if !respPkt.success && !respPkt.needResponse {
        if terms.hopeless(respPkt) {
          authFailed := true;
        }
        return None, Some(Rejected(respPkt));
      }
      return Some(respPkt), None;
    }

    method SendHandshakeOnStream(stream: Stream, control: bool) returns (error: Option<HandshakeError>)
      modifies this, stream
      ensures var run := SendHandshake(old(config), old(authFailed), terms, control, old(stream.incoming));
              && stream.sent == old(stream.sent) + run.sent
              && (config, authFailed, error, stream.incoming) == (run.creds, run.authFailed, run.error, run.rest)
    {
      hide Await, GivesUp;
      var req;
      if config.clientID > 0 && config.secretKey != "" {
        req := Request(config.clientID, config.secretKey, "");
      } else {
        req := Request(0, "new-client", "");
      }
      var resp, err := SendHandshakeRequest(stream, req);
      if resp.None? {
        return err;
      }
      if resp.value.needResponse && resp.value.challenge != "" {
        if config.secretKey == "" {
          authFailed := true;
          return Some(NoSecretKey);
        }
        var challengeResponse := terms.mac(config.secretKey, resp.value.challenge);
        var req2 := Request(config.clientID, "", challengeResponse);
        resp, err := SendHandshakeRequest(stream, req2);
        assert old(stream.sent) + [req] + [req2] == old(stream.sent) + [req, req2];
        if resp.None? {
          return err;
        }
      }
      if !resp.value.success {
        authFailed := true;
        return Some(Rejected(resp.value));
      }
      if control && resp.value.clientID > 0 && resp.value.secretKey != "" {
        config := Credentials(resp.value.clientID, resp.value.secretKey);
      }
      return None;
    }
  }
}
