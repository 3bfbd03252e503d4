/** The loops of the two DNS codecs, each proved against the functions of DnsCodec.
    A Go byte slice that only grows by `append` is a sequence variable here. */
module DnsServers {
  import opened Bytes
  import opened Options
  import opened Results
  import opened DnsCodec

  // ---------------------------------------------------------------------------
  // Parsing
  // ---------------------------------------------------------------------------

  ghost function Prepend(labels: seq<seq<byte>>, n: Option<Name>): Option<Name> {
    match n
    case None => None
    case Some(n) => Some(n.(labels := labels + n.labels))
  }

  lemma NextLabel(labels: seq<seq<byte>>, s: seq<byte>)
    requires s != [] && s[0] != 0 && 1 + s[0] <= |s|
    ensures Prepend(labels, TakeName(s)) == Prepend(labels + [s[1..1 + s[0]]], TakeName(s[1 + s[0]..]))
  {
    hide TakeName;
    NameUnfolds(s);
    var next := s[1..1 + s[0]];
    if TakeName(s[1 + s[0]..]).Some? {
      var rest := TakeName(s[1 + s[0]..]).value.labels;
      assert labels + ([next] + rest) == labels + [next] + rest;
    }
  }

  lemma NameEnds(labels: seq<seq<byte>>, s: seq<byte>)
    ensures s == [] ==> Prepend(labels, TakeName(s)) == Some(Name(labels, [], false))
    ensures s != [] && s[0] == 0 ==> Prepend(labels, TakeName(s)) == Some(Name(labels, s[1..], true))
    ensures s != [] && s[0] != 0 && 1 + s[0] > |s| ==> Prepend(labels, TakeName(s)) == None
  {
    assert labels + [] == labels;
  }

  lemma NothingPrepended(n: Option<Name>)
    ensures Prepend([], n) == n
  {
    assert n.Some? ==> [] + n.value.labels == n.value.labels;
  }

  lemma {:induction false} JoinAppend(labels: seq<seq<byte>>, next: seq<byte>)
    ensures Join(labels + [next]) == if labels == [] then next else Join(labels) + [DOT] + next
    decreases |labels|
  {
    if |labels| > 1 {
      JoinAppend(labels[1..], next);
      assert (labels + [next])[1..] == labels[1..] + [next];
    } else if |labels| == 1 {
      assert (labels + [next])[1..] == [next];
    }
  }

  /** What one turn of the loop does to the name and to the domain. */
  lemma DomainGrows(labels: seq<seq<byte>>, next: seq<byte>)
    requires ProperLabels(labels) && 0 < |next| < 0x100
    ensures ProperLabels(labels + [next])
    ensures Join(labels + [next]) == (if Join(labels) == [] then [] else Join(labels) + [DOT]) + next
  {
    JoinAppend(labels, next);
  }

  lemma ParseStep(query: seq<byte>, offset: nat, labels: seq<seq<byte>>, name: Option<Name>)
    requires offset < |query| && name == Prepend(labels, TakeName(query[offset..]))
    ensures var end := offset + 1 + query[offset];
            if query[offset] == 0 then name == Some(Name(labels, query[offset + 1..], true))
            else if end > |query| then name == None
            else name == Prepend(labels + [query[offset + 1..end]], TakeName(query[end..]))
  {
    hide *;
    var s := query[offset..];
    NameEnds(labels, s);
    if 0 < s[0] && 1 + s[0] <= |s| {
      NextLabel(labels, s);
      assert s[1..1 + s[0]] == query[offset + 1..offset + 1 + query[offset]];
      assert s[1 + s[0]..] == query[offset + 1 + query[offset]..];
    }
  }

  lemma ParseStarts(query: seq<byte>)
    ensures |query| < HEADER_SIZE ==> ParseQuery(query) == Failure(TooShort)
    ensures |query| >= HEADER_SIZE ==>
              TakeName(query[HEADER_SIZE..]) == Prepend([], TakeName(query[HEADER_SIZE..]))
    ensures Join([]) == [] && ProperLabels([])
  {
    if |query| >= HEADER_SIZE {
      NothingPrepended(TakeName(query[HEADER_SIZE..]));
    }
  }

  lemma ParseEnds(query: seq<byte>, name: Option<Name>)
    requires HEADER_SIZE <= |query| && name == TakeName(query[HEADER_SIZE..])
    ensures ParseQuery(query) ==
            match name
            case None => Failure(BadName)
            case Some(n) => if |n.rest| < 2 then Failure(MissingType) else Success((Join(n.labels), Uint16(n.rest)))
  {}

  /** `parseDNSQuery`, the same text in both files. */
  method ParseDnsQuery(query: seq<byte>) returns (r: Result<(seq<byte>, int), ParseError>)
    ensures r == ParseQuery(query)
  {
    hide TakeName, Join, Prepend, ParseQuery, ProperLabels, Uint16;
    ParseStarts(query);
    if |query| < HEADER_SIZE {
      return Failure(TooShort);
    }
    var offset := HEADER_SIZE;
    var domain: seq<byte> := [];
    ghost var name := TakeName(query[HEADER_SIZE..]);
    ghost var labels: seq<seq<byte>> := [];
    ghost var terminated := false;
    ParseEnds(query, name);
    while offset < |query|
      invariant HEADER_SIZE <= offset <= |query|
      invariant name == Prepend(labels, TakeName(query[offset..]))
      invariant ProperLabels(labels) && domain == Join(labels)
      invariant !terminated
    {
      var length := query[offset];
      ParseStep(query, offset, labels, name);
      if length == 0 {
        offset := offset + 1;
        terminated := true;
        break;
      }
      if offset + 1 + length > |query| {
        return Failure(BadName);
      }
      DomainGrows(labels, query[offset + 1..offset + 1 + length]);
      if domain != [] {
        domain := domain + [DOT];
      }
      domain := domain + query[offset + 1..offset + 1 + length];
      labels := labels + [query[offset + 1..offset + 1 + length]];
      offset := offset + 1 + length;
    }
    NameEnds(labels, query[offset..]);
    if offset + 2 > |query| {
      return Failure(MissingType);
    }
    TypeAt(query, offset);
    return Success((domain, query[offset] as int * 0x100 + query[offset + 1]));
  }

  lemma TypeAt(query: seq<byte>, offset: nat)
    requires offset + 2 <= |query|
    ensures Uint16(query[offset..]) == query[offset] as int * 0x100 + query[offset + 1]
  {}

  // ---------------------------------------------------------------------------
  // Building
  // ---------------------------------------------------------------------------

  lemma QuestionStep(s: seq<byte>)
    ensures s == [] ==> QuestionLength(s) == 0
    ensures s != [] && s[0] == 0 ==> QuestionLength(s) == 5
    ensures s != [] && s[0] != 0 ==>
              QuestionLength(s) == 1 + s[0] + if 1 + s[0] <= |s| then QuestionLength(s[1 + s[0]..]) else 0
  {}

  /** The `questionEnd` loop of both builders. */
  method QuestionEnd(query: seq<byte>) returns (questionEnd: nat)
    requires HEADER_SIZE <= |query|
    ensures questionEnd == HEADER_SIZE + QuestionLength(query[HEADER_SIZE..])
  {
    hide QuestionLength;
    questionEnd := HEADER_SIZE;
    ghost var expected := HEADER_SIZE + QuestionLength(query[HEADER_SIZE..]);
    QuestionStep(query[HEADER_SIZE..]);
    while questionEnd < |query|
      invariant HEADER_SIZE <= questionEnd
      invariant expected == questionEnd + if questionEnd <= |query| then QuestionLength(query[questionEnd..]) else 0
    {
      ghost var s := query[questionEnd..];
      QuestionStep(s);
      if query[questionEnd] == 0 {
        questionEnd := questionEnd + 5;
        break;
      }
      assert 1 + s[0] <= |s| ==> s[1 + s[0]..] == query[questionEnd + query[questionEnd] + 1..];
      questionEnd := questionEnd + query[questionEnd] + 1;
    }
    if questionEnd <= |query| {
      QuestionStep(query[questionEnd..]);
    }
  }

  lemma AnswersOfTail(ips: seq<IP>, i: nat, qtype: int)
    requires i < |ips|
    ensures Answers(ips[i..], qtype) == Answer(ips[i], qtype) + Answers(ips[i + 1..], qtype)
  {
    assert ips[i..][1..] == ips[i + 1..];
  }

  lemma NoAnswers(qtype: int)
    ensures Answers([], qtype) == []
    ensures ClientFilter([], qtype) == [] && MobileFilter([], qtype) == []
  {}

  /** The answer loop of both builders. */
  method AppendAnswers(response: seq<byte>, ips: seq<IP>, qtype: int) returns (r: seq<byte>)
    ensures r == response + Answers(ips, qtype)
  {
    hide Answers, To4, To16;
    r := response;
    assert ips[0..] == ips;
    for i := 0 to |ips|
      invariant r + Answers(ips[i..], qtype) == response + Answers(ips, qtype)
    {
      ghost var before := r;
      r := r + [0xc0, 0x0c];
      if qtype == 1 && To4(ips[i]).Some? {
        var ip4 := To4(ips[i]).value;
        r := r + [0x00, 0x01] + [0x00, 0x01] + [0x00, 0x00, 0x01, 0x2c] + [0x00, 0x04] + ip4;
      } else if qtype == 28 && To4(ips[i]).None? {
        r := r + [0x00, 0x1c] + [0x00, 0x01] + [0x00, 0x00, 0x01, 0x2c] + [0x00, 0x10] + To16(ips[i]);
      }
      AnswerBytes(ips[i], qtype);
      assert r == before + Answer(ips[i], qtype);
      AnswersOfTail(ips, i, qtype);
    }
    NoAnswers(qtype);
    assert ips[|ips|..] == [] && r + [] == r;
  }

  lemma AnswerBytes(ip: IP, qtype: int)
    ensures Answer(ip, qtype) == [0xc0, 0x0c] +
            if qtype == 1 && To4(ip).Some? then
              [0x00, 0x01] + [0x00, 0x01] + [0x00, 0x00, 0x01, 0x2c] + [0x00, 0x04] + To4(ip).value
            else if qtype == 28 && To4(ip).None? then
              [0x00, 0x1c] + [0x00, 0x01] + [0x00, 0x00, 0x01, 0x2c] + [0x00, 0x10] + To16(ip)
            else []
  {}

  /** `buildDNSResponse` of the client. */
  method BuildClientResponse(query: seq<byte>, ips: seq<IP>, qtype: int) returns (r: Result<seq<byte>, BuildError>)
    ensures r == ClientBuild(query, ips, qtype)
  {
    if |query| < HEADER_SIZE {
      return Failure(InvalidQuery);
    }
    hide QuestionLength, Answers;
    var response := query[..2];
    response := response + [0x81, 0x80];
    response := response + [0x00, 0x01];
    response := response + [|ips| / 0x100 % 0x100, |ips| % 0x100];
    response := response + [0x00, 0x00, 0x00, 0x00];
    var questionEnd := QuestionEnd(query);
    if questionEnd > |query| {
      return Failure(PastTheEnd);
    }
    assert response == ResponseHeader(query, |ips|);
    response := response + query[HEADER_SIZE..questionEnd];
    response := AppendAnswers(response, ips, qtype);
    return Success(response);
  }

  lemma MobileFilterOfTail(ips: seq<IP>, i: nat, qtype: int)
    requires i < |ips|
    ensures MobileFilter(ips[i..], qtype) ==
            (if (qtype == 1 && To4(ips[i]).Some?) || (qtype == 28 && To4(ips[i]).None?) then [ips[i]] else [])
            + MobileFilter(ips[i + 1..], qtype)
  {
    assert ips[i..][1..] == ips[i + 1..];
  }

  /** The filter loop of the mobile builder. */
  method ValidIPs(ips: seq<IP>, qtype: int) returns (validIPs: seq<IP>)
    ensures validIPs == MobileFilter(ips, qtype)
  {
    hide MobileFilter, To4;
    validIPs := [];
    assert ips[0..] == ips;
    for i := 0 to |ips|
      invariant validIPs + MobileFilter(ips[i..], qtype) == MobileFilter(ips, qtype)
    {
      MobileFilterOfTail(ips, i, qtype);
      if qtype == 1 && To4(ips[i]).Some? {
        validIPs := validIPs + [ips[i]];
      } else if qtype == 28 && To4(ips[i]).None? {
        validIPs := validIPs + [ips[i]];
      }
    }
    NoAnswers(qtype);
    assert ips[|ips|..] == [] && validIPs + [] == validIPs;
  }

  /** `buildDNSResponse` of the mobile server, which filters first. */
  method BuildMobileResponse(query: seq<byte>, ips: seq<IP>, qtype: int) returns (r: Result<seq<byte>, BuildError>)
    ensures r == MobileBuild(query, ips, qtype)
  {
    if |query| < HEADER_SIZE {
      return Failure(InvalidQuery);
    }
    hide QuestionLength, Answers, MobileFilter;
    var response := query[..2];
    response := response + [0x81, 0x80];
    response := response + [0x00, 0x01];
    var validIPs := ValidIPs(ips, qtype);
    response := response + [|validIPs| / 0x100 % 0x100, |validIPs| % 0x100];
    response := response + [0x00, 0x00, 0x00, 0x00];
    var questionEnd := QuestionEnd(query);
    if questionEnd > |query| {
      return Failure(PastTheEnd);
    }
    assert response == ResponseHeader(query, |validIPs|);
    response := response + query[HEADER_SIZE..questionEnd];
    response := AppendAnswers(response, validIPs, qtype);
    return Success(response);
  }

  lemma ClientFilterOfTail(ips: seq<IP>, i: nat, qtype: int)
    requires i < |ips|
    ensures ClientFilter(ips[i..], qtype) ==
            (if qtype == 1 && To4(ips[i]).Some? then [To4(ips[i]).value]
             else if qtype == 28 && To4(ips[i]).None? then [ips[i]]
             else [])
            + ClientFilter(ips[i + 1..], qtype)
  {
    assert ips[i..][1..] == ips[i + 1..];
  }

  /** `resolveWithLocalDNS`. */
  method ResolveWithLocalDns(query: seq<byte>, lookup: seq<byte> -> Option<seq<IP>>)
    returns (r: Result<seq<byte>, ResolveError>)
    ensures r == Resolve(query, lookup)
  {
    hide ParseQuery, ClientBuild, ClientFilter, To4;
    var parsed := ParseDnsQuery(query);
    if parsed.Failure? {
      return Failure(BadQuery(parsed.error));
    }
    var (domain, qtype) := parsed.value;
    if qtype != 1 && qtype != 28 {
      return Failure(UnsupportedType);
    }
    var addrs := lookup(domain);
    if addrs.None? {
      return Failure(LookupFailed);
    }
    var ips: seq<IP> := [];
    var found := addrs.value;
    assert found[0..] == found;
    for i := 0 to |found|
      invariant ips + ClientFilter(found[i..], qtype) == ClientFilter(found, qtype)
    {
      ClientFilterOfTail(found, i, qtype);
      var ipv4 := To4(found[i]);
      if qtype == 1 {
        if ipv4.Some? {
          ips := ips + [ipv4.value];
        }
      } else if ipv4.None? {
        ips := ips + [found[i]];
      }
    }
    NoAnswers(qtype);
    assert found[|found|..] == [];
    assert ips == ips + [] == ClientFilter(found, qtype);
    if |ips| == 0 {
      return Failure(NoRecords);
    }
    var built := BuildClientResponse(query, ips, qtype);
    if built.Failure? {
      return Failure(NotBuilt(built.error));
    }
    return Success(built.value);
  }
}
