/** The DNS message codec that exists twice, in internal/client/target_handler.go and in
    mobile/dns_server.go: a query parser and a response builder over the format of sections
    4.1.1 to 4.1.4 of RFC 1035. */
module DnsCodec {
  import opened Bytes
  import opened Options
  import opened Results

  const HEADER_SIZE := 12
  const DOT: byte := 0x2E
  const TYPE_A := 1
  const TYPE_AAAA := 28
  const CLASS_IN := 1
  const ANSWER_TTL := 300

  function Be16(n: int): seq<byte> {
    [n / 0x100 % 0x100, n % 0x100]
  }

  /** The big-endian number at index `k`. */
  function Uint16(s: seq<byte>, k: nat := 0): int
    requires k + 2 <= |s|
  {
    s[k] as int * 0x100 + s[k + 1]
  }

  lemma Be16RoundTrip(n: int, rest: seq<byte>)
    ensures Uint16(Be16(n) + rest) == n % 0x1_0000
  {
    assert n == 0x100 * (n / 0x100) + n % 0x100;
    assert n / 0x100 == 0x100 * (n / 0x1_0000) + n / 0x100 % 0x100;
  }

  // ---------------------------------------------------------------------------
  // Names and questions
  // ---------------------------------------------------------------------------

  /** The labels at the front of `s`, what follows them, and whether the zero byte that ends a
      name was there or the bytes ran out at the end of a label. */
  datatype Name = Name(labels: seq<seq<byte>>, rest: seq<byte>, terminated: bool)

  /** None when a label reaches past the end. */
  function TakeName(s: seq<byte>): Option<Name> {
    if s == [] then Some(Name([], [], false))
    else if s[0] == 0 then Some(Name([], s[1..], true))
    else if 1 + s[0] > |s| then None
    else
      match TakeName(s[1 + s[0]..])
      case None => None
      case Some(n) => Some(n.(labels := [s[1..1 + s[0]]] + n.labels))
  }

  function Join(labels: seq<seq<byte>>): seq<byte> {
    if labels == [] then []
    else if |labels| == 1 then labels[0]
    else labels[0] + [DOT] + Join(labels[1..])
  }

  datatype ParseError = TooShort | BadName | MissingType

  /** The name and the type of the first question. */
  function ParseQuery(query: seq<byte>): Result<(seq<byte>, int), ParseError> {
    if |query| < HEADER_SIZE then Failure(TooShort)
    else
      match TakeName(query[HEADER_SIZE..])
      case None => Failure(BadName)
      case Some(n) =>
        if |n.rest| < 2 then Failure(MissingType) else Success((Join(n.labels), Uint16(n.rest)))
  }

  function EncodeName(labels: seq<seq<byte>>): seq<byte>
    requires forall l :: l in labels ==> |l| < 0x100
  {
    if labels == [] then [0] else [|labels[0]|] + labels[0] + EncodeName(labels[1..])
  }

  predicate ProperLabels(labels: seq<seq<byte>>) {
    forall l :: l in labels ==> 0 < |l| < 0x100
  }

  /** QNAME, QTYPE and QCLASS. */
  function EncodeQuestion(labels: seq<seq<byte>>, qtype: int, qclass: int): seq<byte>
    requires ProperLabels(labels)
  {
    EncodeName(labels) + Be16(qtype) + Be16(qclass)
  }

  lemma {:induction false} NameRoundTrip(labels: seq<seq<byte>>, rest: seq<byte>)
    requires ProperLabels(labels)
    ensures TakeName(EncodeName(labels) + rest) == Some(Name(labels, rest, true))
    decreases |labels|
  {
    var s := EncodeName(labels) + rest;
    if labels != [] {
      var n := |labels[0]|;
      assert s == [n] + labels[0] + (EncodeName(labels[1..]) + rest);
      assert s[1..1 + n] == labels[0] && s[1 + n..] == EncodeName(labels[1..]) + rest;
      NameRoundTrip(labels[1..], rest);
      assert labels == [labels[0]] + labels[1..];
    }
  }

  lemma NameUnfolds(s: seq<byte>)
    ensures s == [] ==> TakeName(s) == Some(Name([], [], false))
    ensures s != [] && s[0] == 0 ==> TakeName(s) == Some(Name([], s[1..], true))
    ensures s != [] && s[0] != 0 && 1 + s[0] > |s| ==> TakeName(s) == None
    ensures s != [] && s[0] != 0 && 1 + s[0] <= |s| && TakeName(s[1 + s[0]..]).None? ==> TakeName(s) == None
    ensures s != [] && s[0] != 0 && 1 + s[0] <= |s| && TakeName(s[1 + s[0]..]).Some? ==>
              var n := TakeName(s[1 + s[0]..]).value;
              TakeName(s) == Some(Name([s[1..1 + s[0]]] + n.labels, n.rest, n.terminated))
  {}

  /** The other direction: a name that was read is the encoding of its labels. */
  lemma {:induction false} NameIsEncoded(s: seq<byte>)
    requires TakeName(s).Some? && TakeName(s).value.terminated
    ensures ProperLabels(TakeName(s).value.labels)
    ensures s == EncodeName(TakeName(s).value.labels) + TakeName(s).value.rest
    decreases |s|
  {
    hide *;
    NameUnfolds(s);
    if s[0] == 0 {
      EncodeNoLabels();
      assert s == [0] + s[1..];
    } else {
      var k := 1 + s[0] as nat;
      NameIsEncoded(s[k..]);
      EncodeNameOfCons(s[1..k], TakeName(s[k..]).value.labels);
      assert s == [s[0]] + s[1..k] + s[k..];
    }
  }

  lemma EncodeNoLabels()
    ensures ProperLabels([]) && EncodeName([]) == [0]
  {}

  lemma EncodeNameOfCons(first: seq<byte>, labels: seq<seq<byte>>)
    requires 0 < |first| < 0x100 && ProperLabels(labels)
    ensures ProperLabels([first] + labels)
    ensures EncodeName([first] + labels) == [|first|] + first + EncodeName(labels)
  {
    assert ([first] + labels)[1..] == labels;
  }

  /** Parsing an encoded question gives the dot-joined labels and the type, whatever the header
      and the rest of the message are. */
  lemma QuestionRoundTrip(header: seq<byte>, labels: seq<seq<byte>>, qtype: int, qclass: int, rest: seq<byte>)
    requires |header| == HEADER_SIZE && ProperLabels(labels)
    ensures ParseQuery(header + EncodeQuestion(labels, qtype, qclass) + rest)
         == Success((Join(labels), qtype % 0x1_0000))
  {
    var query := header + EncodeQuestion(labels, qtype, qclass) + rest;
    var tail := Be16(qtype) + (Be16(qclass) + rest);
    assert query[HEADER_SIZE..] == EncodeName(labels) + tail;
    NameRoundTrip(labels, tail);
    Be16RoundTrip(qtype, Be16(qclass) + rest);
  }

  // ---------------------------------------------------------------------------
  // The builder's question cursor
  // ---------------------------------------------------------------------------

  /** How far the builder's cursor moves over a question that starts `s`; it may pass the end. */
  function QuestionLength(s: seq<byte>): nat {
    if s == [] then 0
    else if s[0] == 0 then 5
    else if 1 + s[0] >= |s| then 1 + s[0]
    else 1 + s[0] + QuestionLength(s[1 + s[0]..])
  }

  /** The cursor passes the end exactly when a label does, or when fewer than four bytes (QTYPE
      and QCLASS) follow the zero byte; otherwise it stops four bytes after the name. */
  lemma {:induction false} CursorInBoundsIff(s: seq<byte>)
    ensures QuestionLength(s) <= |s| <==>
            TakeName(s).Some? && (TakeName(s).value.terminated ==> 4 <= |TakeName(s).value.rest|)
    ensures TakeName(s).Some? ==>
              QuestionLength(s) == |s| - |TakeName(s).value.rest| + if TakeName(s).value.terminated then 4 else 0
    ensures TakeName(s).Some? && !TakeName(s).value.terminated ==> TakeName(s).value.rest == []
    decreases |s|
  {
    if s != [] && s[0] != 0 && 1 + s[0] <= |s| {
      CursorInBoundsIff(s[1 + s[0]..]);
    }
  }

  /** A name, its zero byte, and at least the four bytes of QTYPE and QCLASS. */
  predicate Complete(s: seq<byte>) {
    match TakeName(s)
    case None => false
    case Some(n) => n.terminated && 4 <= |n.rest|
  }

  /** QTYPE and QCLASS both follow the name. */
  predicate QclassPresent(query: seq<byte>) {
    HEADER_SIZE <= |query| && Complete(query[HEADER_SIZE..])
  }

  /** For a query that parses: the builder stays inside the query if and only if QCLASS is
      present, and then its cursor is exactly four bytes past the parser's. */
  lemma CursorsAgree(query: seq<byte>)
    requires ParseQuery(query).Success?
    ensures var s := query[HEADER_SIZE..];
            && (QuestionLength(s) <= |s| <==> QclassPresent(query))
            && TakeName(s).value.terminated
            && QuestionLength(s) == |s| - |TakeName(s).value.rest| + 4
  {
    CursorInBoundsIff(query[HEADER_SIZE..]);
  }

  // ---------------------------------------------------------------------------
  // Addresses
  // ---------------------------------------------------------------------------

  /** net.IP: four bytes, sixteen bytes, or something that is no address. */
  type IP = seq<byte>

  const V4_IN_V6_PREFIX: seq<byte> := [0, 0, 0, 0, 0, 0, 0, 0, 0, 0, 0xff, 0xff]

  function To4(ip: IP): Option<seq<byte>> {
    if |ip| == 4 then Some(ip)
    else if |ip| == 16 && ip[..12] == V4_IN_V6_PREFIX then Some(ip[12..])
    else None
  }

  /** `ip.To16()`, with nil as the empty sequence. */
  function To16(ip: IP): seq<byte> {
    if |ip| == 4 then V4_IN_V6_PREFIX + ip else if |ip| == 16 then ip else []
  }

  /** The filter of resolveWithLocalDNS, which also shortens the A addresses. */
  function ClientFilter(ips: seq<IP>, qtype: int): seq<IP> {
    if ips == [] then []
    else
      (if qtype == TYPE_A && To4(ips[0]).Some? then [To4(ips[0]).value]
       else if qtype == TYPE_AAAA && To4(ips[0]).None? then [ips[0]]
       else []) + ClientFilter(ips[1..], qtype)
  }

  /** The filter inside the mobile builder. */
  function MobileFilter(ips: seq<IP>, qtype: int): seq<IP> {
    if ips == [] then []
    else
      (if (qtype == TYPE_A && To4(ips[0]).Some?) || (qtype == TYPE_AAAA && To4(ips[0]).None?) then [ips[0]] else [])
      + MobileFilter(ips[1..], qtype)
  }

  // ---------------------------------------------------------------------------
  // Responses
  // ---------------------------------------------------------------------------

  function Record(rtype: int, rdata: seq<byte>): seq<byte> {
    Be16(rtype) + Be16(CLASS_IN) + [0x00, 0x00, 0x01, 0x2c] + Be16(|rdata|) + rdata
  }

  /** One answer: a pointer to the question's name, and a record when the address is of the
      family that was asked for. */
  function Answer(ip: IP, qtype: int): seq<byte> {
    [0xc0, 0x0c] +
    if qtype == TYPE_A && To4(ip).Some? then Record(TYPE_A, To4(ip).value)
    else if qtype == TYPE_AAAA && To4(ip).None? then [0x00, 0x1c, 0x00, 0x01, 0x00, 0x00, 0x01, 0x2c, 0x00, 0x10] + To16(ip)
    else []
  }

  function Answers(ips: seq<IP>, qtype: int): seq<byte> {
    if ips == [] then [] else Answer(ips[0], qtype) + Answers(ips[1..], qtype)
  }

  function ResponseHeader(query: seq<byte>, count: int): (h: seq<byte>)
    requires HEADER_SIZE <= |query|
    ensures |h| == HEADER_SIZE
  {
    query[..2] + [0x81, 0x80, 0x00, 0x01] + Be16(count) + [0x00, 0x00, 0x00, 0x00]
  }

  datatype BuildError = InvalidQuery | PastTheEnd

  /** `buildDNSResponse`. PastTheEnd is the slice expression that reaches past the query: Go
      panics, or, when the query is the front of a larger buffer, copies whatever lies behind it. */
  function BuildWith(query: seq<byte>, count: int, ips: seq<IP>, qtype: int): Result<seq<byte>, BuildError> {
    if |query| < HEADER_SIZE then Failure(InvalidQuery)
    else
      var end := HEADER_SIZE + QuestionLength(query[HEADER_SIZE..]);
      if end > |query| then Failure(PastTheEnd)
      else Success(ResponseHeader(query, count) + query[HEADER_SIZE..end] + Answers(ips, qtype))
  }

  function ClientBuild(query: seq<byte>, ips: seq<IP>, qtype: int): Result<seq<byte>, BuildError> {
    BuildWith(query, |ips|, ips, qtype)
  }

  function MobileBuild(query: seq<byte>, ips: seq<IP>, qtype: int): Result<seq<byte>, BuildError> {
    var valid := MobileFilter(ips, qtype);
    BuildWith(query, |valid|, valid, qtype)
  }

  /** The addresses of the IPv4 family: four bytes, or ten zero bytes, two bytes 0xff and four
      more, which are the IPv4 address. */
  lemma To4Iff(ip: IP)
    ensures var mapped := |ip| == 16 && (forall i :: 0 <= i < 10 ==> ip[i] == 0) && ip[10] == 0xff && ip[11] == 0xff;
            && (To4(ip).Some? <==> |ip| == 4 || mapped)
            && (To4(ip).Some? ==> To4(ip).value == if mapped then [ip[12], ip[13], ip[14], ip[15]] else ip)
  {
    if |ip| == 16 {
      forall i | 0 <= i < 12 ensures ip[i] == ip[..12][i] {}
      assert ip[..12] == V4_IN_V6_PREFIX <==> forall i :: 0 <= i < 12 ==> ip[..12][i] == V4_IN_V6_PREFIX[i];
    }
  }

  /** The sixteen-byte form of an address; nothing else has one. */
  lemma To16Is(ip: IP)
    ensures |ip| == 16 ==> To16(ip) == ip
    ensures |ip| == 4 ==> To16(ip) == [0, 0, 0, 0, 0, 0, 0, 0, 0, 0, 0xff, 0xff, ip[0], ip[1], ip[2], ip[3]]
    ensures |ip| != 4 && |ip| != 16 ==> To16(ip) == []
  {}

  /** Both filters decide on every address by itself and keep the order. */
  lemma {:induction false} FilterJoins(a: seq<IP>, b: seq<IP>, qtype: int)
    ensures ClientFilter(a + b, qtype) == ClientFilter(a, qtype) + ClientFilter(b, qtype)
    ensures MobileFilter(a + b, qtype) == MobileFilter(a, qtype) + MobileFilter(b, qtype)
    decreases |a|
  {
    hide ClientFilter, MobileFilter, To4;
    FiltersUnfold(a, qtype);
    FiltersUnfold(a + b, qtype);
    if a == [] {
      assert a + b == b;
    } else {
      assert (a + b)[1..] == a[1..] + b;
      FilterJoins(a[1..], b, qtype);
    }
  }

  lemma FiltersUnfold(ips: seq<IP>, qtype: int)
    ensures ips == [] ==> ClientFilter(ips, qtype) == [] == MobileFilter(ips, qtype)
    ensures ips != [] ==>
              && ClientFilter(ips, qtype) == OfFamily(ips[0], qtype, true) + ClientFilter(ips[1..], qtype)
              && MobileFilter(ips, qtype) == OfFamily(ips[0], qtype, false) + MobileFilter(ips[1..], qtype)
  {}

  /** What stays of one address, 1 for IPv4 and 28 for the others. */
  function OfFamily(ip: IP, qtype: int, shortened: bool): seq<IP> {
    var v4 := To4(ip);
    if qtype == 1 && v4.Some? then [if shortened then v4.value else ip]
    else if qtype == 28 && v4.None? then [ip]
    else []
  }

  /** An address stays if and only if it is of the family asked for; the client's filter also takes
      the short form of an IPv4 address. */
  lemma FilterOfOne(ip: IP, qtype: int)
    ensures ClientFilter([ip], qtype) == OfFamily(ip, qtype, true)
    ensures MobileFilter([ip], qtype) == OfFamily(ip, qtype, false)
  {
    hide OfFamily, To4;
    assert [ip][1..] == [];
    FiltersUnfold([ip], qtype);
    FiltersUnfold([ip][1..], qtype);
  }

  lemma To4Twice(ip: IP)
    requires To4(ip).Some?
    ensures To4(To4(ip).value) == To4(ip) && |To4(ip).value| == 4
  {}

  /** One answer byte by byte: a pointer to offset 12, type, class 1, 300 seconds to live, the
      length and the address. */
  lemma AnswerBytes(ip: IP)
    ensures To4(ip).Some? ==>
              Answer(ip, 1) == [0xc0, 0x0c, 0x00, 0x01, 0x00, 0x01, 0x00, 0x00, 0x01, 0x2c, 0x00, 0x04] + To4(ip).value
    ensures To4(ip).None? && |ip| == 16 ==>
              Answer(ip, 28) == [0xc0, 0x0c, 0x00, 0x1c, 0x00, 0x01, 0x00, 0x00, 0x01, 0x2c, 0x00, 0x10] + ip
  {
    if To4(ip).Some? {
      To4Twice(ip);
    }
  }

  /** The header of a response: the ID of the query, the flags of an answered recursive query, one
      question, and the number of answers. */
  lemma HeaderBytes(query: seq<byte>, count: nat)
    requires HEADER_SIZE <= |query|
    ensures ResponseHeader(query, count)
         == [query[0], query[1], 0x81, 0x80, 0x00, 0x01, count / 256 % 256, count % 256, 0x00, 0x00, 0x00, 0x00]
  {}

  lemma {:induction false} FiltersAgree(ips: seq<IP>, qtype: int)
    ensures |ClientFilter(ips, qtype)| == |MobileFilter(ips, qtype)|
    ensures Answers(ClientFilter(ips, qtype), qtype) == Answers(MobileFilter(ips, qtype), qtype)
    decreases |ips|
  {
    if ips != [] {
      FiltersAgree(ips[1..], qtype);
      var c, m := ClientFilter(ips[1..], qtype), MobileFilter(ips[1..], qtype);
      if qtype == TYPE_A && To4(ips[0]).Some? {
        To4Twice(ips[0]);
        AnswersOfCons(To4(ips[0]).value, c, qtype);
        AnswersOfCons(ips[0], m, qtype);
      } else if qtype == TYPE_AAAA && To4(ips[0]).None? {
        AnswersOfCons(ips[0], c, qtype);
        AnswersOfCons(ips[0], m, qtype);
      } else {
        assert [] + c == c && [] + m == m;
      }
    }
  }

  lemma AnswersOfCons(ip: IP, ips: seq<IP>, qtype: int)
    ensures Answers([ip] + ips, qtype) == Answer(ip, qtype) + Answers(ips, qtype)
  {
    assert ([ip] + ips)[1..] == ips;
  }

  /** Main result: for every query and every address list, the client's builder on the filtered
      list and the mobile builder on the unfiltered list give the same result, byte for byte. */
  lemma BuildersAgree(query: seq<byte>, ips: seq<IP>, qtype: int)
    ensures ClientBuild(query, ClientFilter(ips, qtype), qtype) == MobileBuild(query, ips, qtype)
  {
    FiltersAgree(ips, qtype);
  }

  // ---------------------------------------------------------------------------
  // Reading a response back
  // ---------------------------------------------------------------------------

  /** A resource record whose name is a pointer into the message. */
  datatype ResourceRecord = ResourceRecord(nameAt: nat, rtype: nat, rclass: nat, ttl: nat, rdata: seq<byte>)

  datatype Message = Message(id: seq<byte>, flags: int, labels: seq<seq<byte>>, qtype: int, qclass: int,
                             answers: seq<ResourceRecord>)

  /** Section 4.1.3 of RFC 1035, for names written as section 4.1.4 pointers. */
  function DecodeRecord(s: seq<byte>): Option<(ResourceRecord, seq<byte>)> {
    if |s| < 12 || Uint16(s) < 0xc000 then None
    else
      var size := Uint16(s, 10);
      if |s| < 12 + size then None
      else
        var r := ResourceRecord(Uint16(s) - 0xc000, Uint16(s, 2), Uint16(s, 4),
                                Uint16(s, 6) * 0x1_0000 + Uint16(s, 8), s[12..12 + size]);
        Some((r, s[12 + size..]))
  }

  /** `n` records that use up all of `s`. */
  function DecodeRecords(s: seq<byte>, n: nat): Option<seq<ResourceRecord>> {
    if n == 0 then (if s == [] then Some([]) else None)
    else
      match DecodeRecord(s)
      case None => None
      case Some((r, rest)) =>
        match DecodeRecords(rest, n - 1)
        case None => None
        case Some(rs) => Some([r] + rs)
  }

  /** One question and `count` answers, and nothing else. */
  function DecodeBody(id: seq<byte>, flags: int, body: seq<byte>, count: nat): Option<Message> {
    match TakeName(body)
    case None => None
    case Some(n) =>
      if !n.terminated || |n.rest| < 4 then None
      else
        match DecodeRecords(n.rest[4..], count)
        case None => None
        case Some(rs) => Some(Message(id, flags, n.labels, Uint16(n.rest), Uint16(n.rest, 2), rs))
  }

  /** A message whose QDCOUNT is 1 and whose NSCOUNT and ARCOUNT are 0. */
  function DecodeMessage(s: seq<byte>): Option<Message> {
    if |s| < HEADER_SIZE || Uint16(s, 4) != 1 || Uint16(s, 8) != 0 || Uint16(s, 10) != 0 then None
    else DecodeBody(s[..2], Uint16(s, 2), s[HEADER_SIZE..], Uint16(s, 6))
  }

  /** An address the builders write a record for. */
  predicate Answerable(ip: IP, qtype: int) {
    (qtype == TYPE_A && To4(ip).Some?) || (qtype == TYPE_AAAA && To4(ip).None? && |ip| == 16)
  }

  /** The record a client should see for `ip`. */
  function AddressRecord(ip: IP, qtype: int): ResourceRecord
    requires Answerable(ip, qtype)
  {
    ResourceRecord(HEADER_SIZE, qtype, CLASS_IN, ANSWER_TTL, if qtype == TYPE_A then To4(ip).value else ip)
  }

  predicate AllAnswerable(ips: seq<IP>, qtype: int) {
    ips == [] || (Answerable(ips[0], qtype) && AllAnswerable(ips[1..], qtype))
  }

  function AddressRecords(ips: seq<IP>, qtype: int): seq<ResourceRecord>
    requires AllAnswerable(ips, qtype)
  {
    if ips == [] then [] else [AddressRecord(ips[0], qtype)] + AddressRecords(ips[1..], qtype)
  }

  lemma RecordDecodes(rtype: byte, rdata: seq<byte>, rest: seq<byte>)
    requires |rdata| < 0x100
    ensures DecodeRecord([0xc0, 0x0c, 0, rtype, 0, 1, 0, 0, 1, 0x2c, 0, |rdata|] + rdata + rest)
         == Some((ResourceRecord(HEADER_SIZE, rtype, CLASS_IN, ANSWER_TTL, rdata), rest))
  {
    var s := [0xc0, 0x0c, 0, rtype, 0, 1, 0, 0, 1, 0x2c, 0, |rdata|] + rdata + rest;
    assert s[12..12 + |rdata|] == rdata && s[12 + |rdata|..] == rest;
  }

  lemma AnswerDecodes(ip: IP, qtype: int, rest: seq<byte>)
    requires Answerable(ip, qtype)
    ensures DecodeRecord(Answer(ip, qtype) + rest) == Some((AddressRecord(ip, qtype), rest))
    ensures |Answer(ip, qtype)| >= 12
  {
    hide DecodeRecord;
    var rdata := AddressRecord(ip, qtype).rdata;
    assert Answer(ip, qtype) == [0xc0, 0x0c, 0, qtype, 0, 1, 0, 0, 1, 0x2c, 0, |rdata|] + rdata;
    RecordDecodes(qtype, rdata, rest);
  }

  lemma RecordsStep(s: seq<byte>, n: nat, r: ResourceRecord, rest: seq<byte>)
    requires s != [] && DecodeRecord(s) == Some((r, rest))
    ensures DecodeRecords(s, 0) == None
    ensures n > 0 && DecodeRecords(rest, n - 1).None? ==> DecodeRecords(s, n) == None
    ensures n > 0 && DecodeRecords(rest, n - 1).Some? ==>
              DecodeRecords(s, n) == Some([r] + DecodeRecords(rest, n - 1).value)
  {}

  lemma AnswersStep(ips: seq<IP>, qtype: int)
    requires AllAnswerable(ips, qtype)
    ensures |ips| == 0 ==> Answers(ips, qtype) == [] && AddressRecords(ips, qtype) == []
    ensures |ips| > 0 ==>
              && Answerable(ips[0], qtype)
              && AllAnswerable(ips[1..], qtype)
              && Answers(ips, qtype) == Answer(ips[0], qtype) + Answers(ips[1..], qtype)
              && AddressRecords(ips, qtype) == [AddressRecord(ips[0], qtype)] + AddressRecords(ips[1..], qtype)
  {}

  lemma NoRecordsLeft(n: nat)
    ensures DecodeRecords([], n) == if n == 0 then Some([]) else None
  {}

  lemma {:induction false} AnswersDecode(ips: seq<IP>, qtype: int, n: nat)
    requires AllAnswerable(ips, qtype)
    ensures DecodeRecords(Answers(ips, qtype), n) ==
            if n == |ips| then Some(AddressRecords(ips, qtype)) else None
    decreases |ips|
  {
    hide *;
    AnswersStep(ips, qtype);
    if |ips| == 0 {
      NoRecordsLeft(n);
    } else {
      AnswerDecodes(ips[0], qtype, Answers(ips[1..], qtype));
      RecordsStep(Answers(ips, qtype), n, AddressRecord(ips[0], qtype), Answers(ips[1..], qtype));
      if n != 0 {
        AnswersDecode(ips[1..], qtype, n - 1);
      }
    }
  }

  /** What the builder copies is the name, the type and the class. */
  lemma CopiedQuestion(s: seq<byte>, answers: seq<byte>)
    requires Complete(s)
    ensures QuestionLength(s) <= |s|
    ensures var n := TakeName(s).value;
            TakeName(s[..QuestionLength(s)] + answers) == Some(n.(rest := n.rest[..4] + answers))
  {
    CursorInBoundsIff(s);
    NameIsEncoded(s);
    var n := TakeName(s).value;
    hide TakeName, QuestionLength, EncodeName, ProperLabels;
    NameRoundTrip(n.labels, n.rest[..4] + answers);
    FourMore(s, EncodeName(n.labels), n.rest, answers);
  }

  lemma FourMore(s: seq<byte>, name: seq<byte>, rest: seq<byte>, answers: seq<byte>)
    requires s == name + rest && 4 <= |rest|
    ensures s[..|name| + 4] + answers == name + (rest[..4] + answers)
  {}

  lemma ThreeParts(h: seq<byte>, q: seq<byte>, a: seq<byte>)
    ensures (h + q + a)[..|h|] == h && (h + q + a)[|h|..] == q + a
  {}

  /** The response repeats the question, and the answers follow it. */
  lemma ResponseParts(query: seq<byte>, count: int, ips: seq<IP>, qtype: int)
    requires QclassPresent(query)
    ensures BuildWith(query, count, ips, qtype).Success?
    ensures QuestionLength(query[HEADER_SIZE..]) <= |query| - HEADER_SIZE
    ensures var r := BuildWith(query, count, ips, qtype).value;
            var s := query[HEADER_SIZE..];
            && HEADER_SIZE <= |r|
            && r[..HEADER_SIZE] == ResponseHeader(query, count)
            && r[HEADER_SIZE..] == s[..QuestionLength(s)] + Answers(ips, qtype)
  {
    var s := query[HEADER_SIZE..];
    CursorInBoundsIff(s);
    var end := QuestionLength(s);
    hide QuestionLength, TakeName, Complete, Answers, ResponseHeader;
    assert query[HEADER_SIZE..HEADER_SIZE + end] == s[..end];
    ThreeParts(ResponseHeader(query, count), s[..end], Answers(ips, qtype));
  }

  /** Parsing the response gives the name and the type that parsing the query gave. */
  lemma ResponseParses(query: seq<byte>, ips: seq<IP>, qtype: int)
    requires QclassPresent(query)
    ensures ParseQuery(query).Success? && ClientBuild(query, ips, qtype).Success?
    ensures ParseQuery(ClientBuild(query, ips, qtype).value) == ParseQuery(query)
  {
    ResponseParts(query, |ips|, ips, qtype);
    CopiedQuestion(query[HEADER_SIZE..], Answers(ips, qtype));
    hide QuestionLength, TakeName, Answers, ResponseHeader, BuildWith, Join;
  }

  /** The message that answers `query` with the given addresses. */
  function Reply(query: seq<byte>, ips: seq<IP>, qtype: int): Message
    requires QclassPresent(query)
    requires AllAnswerable(ips, qtype)
  {
    var n := TakeName(query[HEADER_SIZE..]).value;
    Message(query[..2], 0x8180, n.labels, Uint16(n.rest), Uint16(n.rest, 2), AddressRecords(ips, qtype))
  }

  lemma BodyDecodes(id: seq<byte>, n: Name, body: seq<byte>, count: nat, ips: seq<IP>, qtype: int)
    requires n.terminated && 4 <= |n.rest|
    requires TakeName(body) == Some(n.(rest := n.rest[..4] + Answers(ips, qtype)))
    requires AllAnswerable(ips, qtype)
    ensures DecodeBody(id, 0x8180, body, count) ==
            if count == |ips| then
              Some(Message(id, 0x8180, n.labels, Uint16(n.rest), Uint16(n.rest, 2), AddressRecords(ips, qtype)))
            else None
  {
    hide TakeName, Answers, AddressRecords, DecodeRecords, Answerable;
    AnswersDecode(ips, qtype, count);
    var rest := n.rest[..4] + Answers(ips, qtype);
    assert rest[4..] == Answers(ips, qtype);
    assert Uint16(rest) == Uint16(n.rest) && Uint16(rest, 2) == Uint16(n.rest, 2);
  }

  lemma HeaderFields(query: seq<byte>, count: nat, r: seq<byte>)
    requires HEADER_SIZE <= |query| && HEADER_SIZE <= |r|
    requires r[..HEADER_SIZE] == ResponseHeader(query, count)
    ensures r[..2] == query[..2]
    ensures Uint16(r, 2) == 0x8180 && Uint16(r, 4) == 1
    ensures Uint16(r, 6) == count % 0x1_0000
    ensures Uint16(r, 8) == 0 && Uint16(r, 10) == 0
  {
    var h := ResponseHeader(query, count);
    assert forall k :: 0 <= k < HEADER_SIZE ==> r[k] == h[k];
    assert r[..2] == h[..2];
    Be16RoundTrip(count, []);
    assert Be16(count) + [] == Be16(count);
    assert h[6..8] == Be16(count);
  }

  lemma MessageDecodes(query: seq<byte>, count: nat, r: seq<byte>)
    requires HEADER_SIZE <= |query| && HEADER_SIZE <= |r|
    requires r[..HEADER_SIZE] == ResponseHeader(query, count)
    ensures DecodeMessage(r) == DecodeBody(query[..2], 0x8180, r[HEADER_SIZE..], count % 0x1_0000)
  {
    HeaderFields(query, count, r);
    hide ResponseHeader, Uint16, DecodeBody;
  }

  lemma ReplyDecodes(query: seq<byte>, body: seq<byte>, ips: seq<IP>, qtype: int)
    requires HEADER_SIZE <= |query| && Complete(query[HEADER_SIZE..])
    requires AllAnswerable(ips, qtype)
    requires var s := query[HEADER_SIZE..];
             QuestionLength(s) <= |s| && body == s[..QuestionLength(s)] + Answers(ips, qtype)
    ensures DecodeBody(query[..2], 0x8180, body, |ips| % 0x1_0000) ==
            if |ips| < 0x1_0000 then Some(Reply(query, ips, qtype)) else None
  {
    hide QuestionLength, TakeName, Answers, AllAnswerable, AddressRecords, DecodeBody, DecodeRecords, Uint16, To4,
      Answerable;
    var n := TakeName(query[HEADER_SIZE..]).value;
    CopiedQuestion(query[HEADER_SIZE..], Answers(ips, qtype));
    BodyDecodes(query[..2], n, body, |ips| % 0x1_0000, ips, qtype);
  }

  /** Main result: the response to a query decodes to its question and to exactly the given
      addresses, in order, with nothing left over, if and only if ANCOUNT can hold their number. */
  lemma ResponseDecodesIff(query: seq<byte>, ips: seq<IP>, qtype: int)
    requires QclassPresent(query)
    requires AllAnswerable(ips, qtype)
    ensures ClientBuild(query, ips, qtype).Success?
    ensures DecodeMessage(ClientBuild(query, ips, qtype).value) ==
            if |ips| < 0x1_0000 then Some(Reply(query, ips, qtype)) else None
  {
    assert HEADER_SIZE <= |query|;
    hide QuestionLength, Complete, QclassPresent, TakeName, Answers, DecodeBody, DecodeMessage, Answerable,
      BuildWith, ResponseHeader, Reply;
    ResponseParts(query, |ips|, ips, qtype);
    var r := BuildWith(query, |ips|, ips, qtype).value;
    MessageDecodes(query, |ips|, r);
    ReplyDecodes(query, r[HEADER_SIZE..], ips, qtype);
  }

  // ---------------------------------------------------------------------------
  // Local resolution
  // ---------------------------------------------------------------------------

  datatype ResolveError =
    | BadQuery(parse: ParseError)
    | UnsupportedType
    | LookupFailed
    | NoRecords
    | NotBuilt(build: BuildError)

  /** `resolveWithLocalDNS`; `lookup` is what net.LookupIP answers for a name. */
  function Resolve(query: seq<byte>, lookup: seq<byte> -> Option<seq<IP>>): Result<seq<byte>, ResolveError> {
    match ParseQuery(query)
    case Failure(e) => Failure(BadQuery(e))
    case Success((name, qtype)) =>
      if qtype != TYPE_A && qtype != TYPE_AAAA then Failure(UnsupportedType)
      else
        match lookup(name)
        case None => Failure(LookupFailed)
        case Some(addrs) =>
          var ips := ClientFilter(addrs, qtype);
          if ips == [] then Failure(NoRecords)
          else
            match ClientBuild(query, ips, qtype)
            case Failure(e) => Failure(NotBuilt(e))
            case Success(r) => Success(r)
  }

  /** The addresses of the family asked for survive the filter, each as the record to answer with. */
  lemma {:induction false} FilteredAreAnswerable(addrs: seq<IP>, qtype: int)
    requires forall ip :: ip in addrs ==> |ip| == 4 || |ip| == 16
    ensures AllAnswerable(ClientFilter(addrs, qtype), qtype)
    ensures |ClientFilter(addrs, qtype)| <= |addrs|
    decreases |addrs|
  {
    if addrs != [] {
      FilteredAreAnswerable(addrs[1..], qtype);
      var rest := ClientFilter(addrs[1..], qtype);
      if (qtype == TYPE_A && To4(addrs[0]).Some?) || (qtype == TYPE_AAAA && To4(addrs[0]).None?) {
        assert ClientFilter(addrs, qtype)[1..] == rest;
      } else {
        assert ClientFilter(addrs, qtype) == [] + rest == rest;
      }
    }
  }

  /** A resolved query is answered with the records of the filtered lookup, in lookup order; and
      when the lookup has an address of the family asked for, resolution fails only for a query
      without QCLASS. */
  lemma ResolvedAnswers(query: seq<byte>, lookup: seq<byte> -> Option<seq<IP>>)
    requires ParseQuery(query).Success? && ParseQuery(query).value.1 in {TYPE_A, TYPE_AAAA}
    requires lookup(ParseQuery(query).value.0).Some?
    requires var addrs := lookup(ParseQuery(query).value.0).value;
             |addrs| < 0x1_0000 && forall ip :: ip in addrs ==> |ip| == 4 || |ip| == 16
    ensures var (name, qtype) := ParseQuery(query).value;
            var ips := ClientFilter(lookup(name).value, qtype);
            && AllAnswerable(ips, qtype)
            && (Resolve(query, lookup).Success? <==> ips != [] && QclassPresent(query))
            && (Resolve(query, lookup).Success? ==>
                  && DecodeMessage(Resolve(query, lookup).value).Some?
                  && DecodeMessage(Resolve(query, lookup).value).value.answers == AddressRecords(ips, qtype)
                  && ParseQuery(Resolve(query, lookup).value) == ParseQuery(query))
  {
    var (name, qtype) := ParseQuery(query).value;
    var ips := ClientFilter(lookup(name).value, qtype);
    FilteredAreAnswerable(lookup(name).value, qtype);
    CursorsAgree(query);
    if QclassPresent(query) {
      ResponseDecodesIff(query, ips, qtype);
      ResponseParses(query, ips, qtype);
    }
  }
}
