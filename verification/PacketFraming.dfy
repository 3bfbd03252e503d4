/** The wire form of internal/stream and internal/packet: packet types with flag bits, what
    WritePacket puts on the wire, and how ReadPacket takes it off again. */
module PacketFraming {
  import opened Bytes
  import opened Options
  import opened Results

  const HEARTBEAT: byte := 0x03
  const JSON_COMMAND: byte := 0x10
  const COMMAND_RESP: byte := 0x11
  const COMPRESSED: byte := 0x40
  const ENCRYPTED: byte := 0x80

  const PACKET_TYPE_SIZE := 1
  const PACKET_BODY_SIZE_BYTES := 4
  const MAX_PACKET_BODY_SIZE := 16 * 1024 * 1024

  // ---------------------------------------------------------------------------
  // Packet types and their flag bits
  // ---------------------------------------------------------------------------

  /** The type without its two flag bits. */
  function Base(t: byte): byte {
    t % COMPRESSED
  }

  predicate IsHeartbeat(t: byte) {
    Base(t) == HEARTBEAT
  }

  predicate CarriesCommand(t: byte) {
    Base(t) == JSON_COMMAND || Base(t) == COMMAND_RESP
  }

  predicate IsCompressed(t: byte) {
    t / COMPRESSED % 2 == 1
  }

  predicate IsEncrypted(t: byte) {
    t / ENCRYPTED == 1
  }

  /** `packetType |= packet.Compressed` */
  function SetCompressed(t: byte): byte {
    if IsCompressed(t) then t else t + COMPRESSED
  }

  /** The arithmetic above is the source's bit arithmetic. */
  lemma FlagsAreBits(t: bv8)
    ensures Base(t as byte) == (t & 0x3F) as byte
    ensures IsCompressed(t as byte) <==> t & 0x40 != 0
    ensures IsEncrypted(t as byte) <==> t & 0x80 != 0
    ensures SetCompressed(t as byte) == (t | 0x40) as byte
    ensures IsHeartbeat(t as byte) <==> t & 0x3F == 0x03
    ensures CarriesCommand(t as byte) <==> t & 0x3F == 0x10 || t & 0x3F == 0x11
  {
    var i := t as byte;
    assert t == i as bv8;
    assert Base(i) == (t & 0x3F) as byte;
    SixBits(t & 0x3F);
  }

  lemma SixBits(b: bv8)
    ensures (b as byte == 0x03 <==> b == 0x03) && (b as byte == 0x10 <==> b == 0x10) && (b as byte == 0x11 <==> b == 0x11)
  {
    assert b == (b as byte) as bv8;
  }

  // ---------------------------------------------------------------------------
  // Packets, and the transformations that are abstract here
  // ---------------------------------------------------------------------------

  datatype CommandPacket = CommandPacket(
    commandType: byte, commandId: string, token: string, senderId: string, receiverId: string, commandBody: string)

  datatype TransferPacket = TransferPacket(
    packetType: byte, command: Option<CommandPacket>, tunnelId: string, payload: seq<byte>,
    seqNum: nat, ackNum: nat, flags: byte)

  /** gzip and JSON as functions that may fail. */
  datatype Codec = Codec(
    compress: seq<byte> -> Option<seq<byte>>,
    decompress: seq<byte> -> Option<seq<byte>>,
    marshal: CommandPacket -> Option<seq<byte>>,
    unmarshal: seq<byte> -> Option<CommandPacket>)
  {
    /** What is assumed of them: they do not fail, write something, and have inverses. */
    ghost predicate Lossless() {
      && (forall x :: compress(x).Some? && compress(x).value != [] && decompress(compress(x).value) == Some(x))
      && (forall c :: marshal(c).Some? && marshal(c).value != [] && unmarshal(marshal(c).value) == Some(c))
    }
  }

  // ---------------------------------------------------------------------------
  // Writing
  // ---------------------------------------------------------------------------

  /** `binary.BigEndian.PutUint32` of an int cut down to 32 bits. */
  function PutUint32(n: nat): seq<byte> {
    [n / 0x100_0000 % 0x100, n / 0x1_0000 % 0x100, n / 0x100 % 0x100, n % 0x100]
  }

  function Uint32(b: seq<byte>): nat
    requires |b| == 4
  {
    b[0] as int * 0x100_0000 + b[1] as int * 0x1_0000 + b[2] as int * 0x100 + b[3]
  }

  lemma SizeFieldRoundTrip(n: nat)
    ensures |PutUint32(n)| == 4 && Uint32(PutUint32(n)) == n % 0x1_0000_0000
  {
    var q1, q2, q3, q4 := n / 0x100, n / 0x1_0000, n / 0x100_0000, n / 0x1_0000_0000;
    assert n == 0x100 * q1 + n % 0x100;
    assert q1 == 0x100 * q2 + q1 % 0x100;
    assert q2 == 0x100 * q3 + q2 % 0x100;
    assert q3 == 0x100 * q4 + q3 % 0x100;
    assert n == 0x1_0000_0000 * q4 + Uint32(PutUint32(n));
  }

  /** The size field is big-endian. */
  lemma SizeFieldIsBigEndian(a: byte, b: byte, c: byte, d: byte)
    ensures Uint32([a, b, c, d]) == ((a as nat * 0x100 + b) * 0x100 + c) * 0x100 + d
    ensures PutUint32(((a as nat * 0x100 + b) * 0x100 + c) * 0x100 + d) == [a, b, c, d]
  {
    var n1 := a as nat * 0x100 + b;
    var n2 := n1 * 0x100 + c;
    var n := n2 * 0x100 + d;
    assert n / 0x100 == n2 && n % 0x100 == d;
    assert n2 / 0x100 == n1 && n2 % 0x100 == c;
    assert n1 / 0x100 == a && n1 % 0x100 == b;
    assert n / 0x1_0000 == n1 && n / 0x100_0000 == a;
  }

  function WireType(p: TransferPacket, useCompression: bool): byte {
    if useCompression then SetCompressed(p.packetType) else p.packetType
  }

  /** The body before compression; None when marshalling fails. */
  function RawBody(codec: Codec, p: TransferPacket): Option<seq<byte>> {
    if CarriesCommand(p.packetType) && p.command.Some? then codec.marshal(p.command.value) else Some(p.payload)
  }

  /** The body as it goes on the wire. */
  function WireBody(codec: Codec, p: TransferPacket, useCompression: bool): Option<seq<byte>> {
    match RawBody(codec, p)
    case None => None
    case Some(raw) => if useCompression then codec.compress(raw) else Some(raw)
  }

  /** Whether WritePacket goes on to a body after the type byte, and gets one. */
  predicate HasBody(codec: Codec, p: TransferPacket, useCompression: bool) {
    && !IsHeartbeat(p.packetType)
    && RawBody(codec, p).Some? && RawBody(codec, p).value != []
    && WireBody(codec, p, useCompression).Some?
  }

  /** The body cannot be produced; by then the type byte has already been written. */
  predicate BodyFails(codec: Codec, p: TransferPacket, useCompression: bool) {
    && !IsHeartbeat(p.packetType)
    && RawBody(codec, p) != Some([])
    && WireBody(codec, p, useCompression).None?
  }

  /** Everything WritePacket writes when the writer accepts it all. */
  function Wire(codec: Codec, p: TransferPacket, useCompression: bool): seq<byte> {
    if HasBody(codec, p, useCompression) then
      var body := WireBody(codec, p, useCompression).value;
      [WireType(p, useCompression)] + PutUint32(|body|) + body
    else
      [WireType(p, useCompression)]
  }

  // ---------------------------------------------------------------------------
  // Reading
  // ---------------------------------------------------------------------------

  datatype ReadFault = NoFault | Eof | OtherFault

  /** What the reader does on one Read: at most `n` bytes, perhaps with an error. */
  datatype Delivery = Delivery(n: nat, fault: ReadFault)

  /** The bytes still to come and how they will be delivered. When the script is used up the
      reader delivers all that is asked for and available, and io.EOF when nothing is left. */
  datatype Source = Source(data: seq<byte>, script: seq<Delivery>)

  datatype ReadReply = ReadReply(bytes: seq<byte>, fault: ReadFault, source: Source)

  function Min(a: nat, b: nat): nat {
    if a < b then a else b
  }

  /** One call of `reader.Read` with a buffer of `want` bytes: no byte is lost or made up, and
      once the script is used up every call makes progress or fails. */
  function Read(s: Source, want: nat): (r: ReadReply)
    ensures s.data == r.bytes + r.source.data && |r.bytes| <= want
    ensures if s.script == [] then r.source.script == [] && (r.fault == NoFault && want > 0 ==> r.bytes != [])
            else r.source.script == s.script[1..]
  {
    if s.script == [] then
      var n := Min(want, |s.data|);
      ReadReply(s.data[..n], if s.data == [] then Eof else NoFault, s.(data := s.data[n..]))
    else
      var n := Min(s.script[0].n, Min(want, |s.data|));
      ReadReply(s.data[..n], s.script[0].fault, Source(s.data[n..], s.script[1..]))
  }

  /** The loop of readPacketBody: the body, or None when a Read fails first. */
  function ReadBody(s: Source, size: nat): (Option<seq<byte>>, Source)
    decreases |s.script|, size
  {
    if size == 0 then (Some([]), s)
    else
      var r := Read(s, size);
      if r.fault != NoFault then (None, r.source)
      else
        var (rest, s') := ReadBody(r.source, size - |r.bytes|);
        (if rest.Some? then Some(r.bytes + rest.value) else None, s')
  }

  datatype ReadError = ReadFailed | ShortHeader | TooLarge | Encrypted | BadCompression | BadCommand

  datatype PacketReply = PacketReply(packet: Result<TransferPacket, ReadError>, total: nat, source: Source)

  /** A header field is read with a single Read, and lost when it arrives in pieces. */
  function ReadHeader(s: Source, size: nat): (Result<seq<byte>, ReadError>, Source) {
    var r := Read(s, size);
    if r.fault != NoFault then (Failure(ReadFailed), r.source)
    else if |r.bytes| != size then (Failure(ShortHeader), r.source)
    else (Success(r.bytes), r.source)
  }

  function Plain(t: byte, command: Option<CommandPacket>, payload: seq<byte>): TransferPacket {
    TransferPacket(t, command, "", payload, 0, 0, 0)
  }

  /** What ReadPacket makes of a type and a body. */
  function Interpret(codec: Codec, t: byte, body: seq<byte>): Result<TransferPacket, ReadError> {
    if IsEncrypted(t) then Failure(Encrypted)
    else
      var content := if IsCompressed(t) then codec.decompress(body) else Some(body);
      if content.None? then Failure(BadCompression)
      else if CarriesCommand(t) then
        (match codec.unmarshal(content.value)
         case None => Failure(BadCommand)
         case Some(c) => Success(Plain(t, Some(c), [])))
      else Success(Plain(t, None, content.value))
  }

  function ReadPacket(codec: Codec, s: Source): PacketReply {
    match ReadHeader(s, PACKET_TYPE_SIZE)
    case (Failure(e), s1) => PacketReply(Failure(e), 0, s1)
    case (Success(typeField), s1) =>
      var t := typeField[0];
      if IsHeartbeat(t) then PacketReply(Success(Plain(t, None, [])), PACKET_TYPE_SIZE, s1)
      else
        match ReadHeader(s1, PACKET_BODY_SIZE_BYTES)
        case (Failure(e), s2) => PacketReply(Failure(e), PACKET_TYPE_SIZE, s2)
        case (Success(sizeField), s2) =>
          ReadRest(codec, t, Uint32(sizeField), s2)
  }

  /** ReadPacket once the header fields are known. */
  function ReadRest(codec: Codec, t: byte, size: nat, s: Source): PacketReply {
    var header := PACKET_TYPE_SIZE + PACKET_BODY_SIZE_BYTES;
    if size > MAX_PACKET_BODY_SIZE then PacketReply(Failure(TooLarge), header, s)
    else
      match ReadBody(s, size)
      case (None, s') => PacketReply(Failure(ReadFailed), header, s')
      case (Some(body), s') => PacketReply(Interpret(codec, t, body), header + |body|, s')
  }

  // ---------------------------------------------------------------------------
  // One packet: exactly when it gets through
  // ---------------------------------------------------------------------------

  /** The packet as the peer should see it: the type as sent, the command of a command packet,
      the payload of any other, nothing for a heartbeat, and none of the fields that are not
      serialised. */
  function AsReceived(p: TransferPacket, useCompression: bool): TransferPacket {
    var t := WireType(p, useCompression);
    if IsHeartbeat(t) then Plain(t, None, [])
    else if CarriesCommand(t) then Plain(t, p.command, [])
    else Plain(t, None, p.payload)
  }

  /** What a sender can check before the call: a heartbeat, or a packet without the Encrypted
      bit, with a command if its type carries one, and with a non-empty body of at most
      16 MiB on the wire. */
  predicate WellFormed(codec: Codec, p: TransferPacket, useCompression: bool) {
    IsHeartbeat(p.packetType) ||
    (&& !IsEncrypted(p.packetType)
     && (CarriesCommand(p.packetType) ==> p.command.Some?)
     && HasBody(codec, p, useCompression)
     && |WireBody(codec, p, useCompression).value| <= MAX_PACKET_BODY_SIZE)
  }

  /** The Compressed bit says what is done to the body. */
  predicate FlagAgrees(p: TransferPacket, useCompression: bool) {
    IsHeartbeat(p.packetType) || (IsCompressed(p.packetType) ==> useCompression)
  }

  /** Decompressing a body that was never compressed happens to give the packet's content. */
  predicate SurvivesDecompression(codec: Codec, p: TransferPacket) {
    && RawBody(codec, p).Some? && codec.decompress(RawBody(codec, p).value).Some?
    && var content := codec.decompress(RawBody(codec, p).value).value;
       if CarriesCommand(p.packetType) then codec.unmarshal(content) == p.command else content == p.payload
  }

  /** Exactly the packets that get through; see RoundTripIff. */
  predicate Sendable(codec: Codec, p: TransferPacket, useCompression: bool) {
    WellFormed(codec, p, useCompression) && (FlagAgrees(p, useCompression) || SurvivesDecompression(codec, p))
  }

  lemma FlagsOfWireType(p: TransferPacket, useCompression: bool)
    ensures var t := WireType(p, useCompression);
            && Base(t) == Base(p.packetType) && IsEncrypted(t) == IsEncrypted(p.packetType)
            && (IsCompressed(t) <==> IsCompressed(p.packetType) || useCompression)
  {}

  /** With enough bytes to come, the body loop delivers the next `size` bytes or fails, and
      fails only on a delivery that carries an error. */
  lemma {:induction false} BodyIsNextBytes(s: Source, size: nat)
    requires size <= |s.data|
    ensures var (body, s') := ReadBody(s, size);
            && (body.Some? ==> body.value == s.data[..size] && s'.data == s.data[size..])
            && ((forall i :: 0 <= i < |s.script| ==> s.script[i].fault == NoFault) ==> body.Some?)
    decreases |s.script|, size
  {
    hide Read, ReadBody;
    BodyUnfolds(s, size);
    if size > 0 {
      var r := Read(s, size);
      if r.fault == NoFault {
        FrontThenRest(s.data, r.bytes, r.source.data, size);
        BodyIsNextBytes(r.source, size - |r.bytes|);
      }
    }
  }

  lemma BodyUnfolds(s: Source, size: nat)
    ensures size == 0 ==> ReadBody(s, size) == (Some([]), s)
    ensures var r := Read(s, size);
            && (size > 0 && r.fault != NoFault ==> ReadBody(s, size) == (None, r.source))
            && (size > 0 && r.fault == NoFault ==>
                  var (rest, s') := ReadBody(r.source, size - |r.bytes|);
                  ReadBody(s, size) == (if rest.Some? then Some(r.bytes + rest.value) else None, s'))
            && (size > 0 && s.script == [] && size <= |s.data| ==> r.fault == NoFault)
            && (size > 0 && s.script != [] ==> r.fault == s.script[0].fault)
  {}

  lemma FrontThenRest(data: seq<byte>, front: seq<byte>, rest: seq<byte>, size: nat)
    requires data == front + rest && |front| <= size <= |data|
    ensures data[..size] == front + rest[..size - |front|]
    ensures data[size..] == rest[size - |front|..]
  {}

  /** The next Read delivers a field of `size` bytes whole. */
  predicate DeliversWhole(s: Source, size: nat) {
    s.script == [] || (s.script[0].fault == NoFault && s.script[0].n >= size)
  }

  function AfterHeader(s: Source, size: nat): Source
    requires size <= |s.data|
  {
    Source(s.data[size..], if s.script == [] then [] else s.script[1..])
  }

  lemma HeaderIsReadWhole(s: Source, field: seq<byte>, rest: seq<byte>)
    requires field != [] && s.data == field + rest
    ensures var (r, s') := ReadHeader(s, |field|);
            && (r.Success? <==> DeliversWhole(s, |field|))
            && (r.Success? ==> r.value == field && s' == AfterHeader(s, |field|) && s'.data == rest)
  {
    assert s.data[..|field|] == field && s.data[|field|..] == rest;
  }

  lemma HeartbeatIsRead(codec: Codec, p: TransferPacket, useCompression: bool, s: Source, rest: seq<byte>)
    requires IsHeartbeat(p.packetType) && s.data == Wire(codec, p, useCompression) + rest
    ensures var r := ReadPacket(codec, s);
            && (r.packet.Success? <==> DeliversWhole(s, 1))
            && (r.packet.Success? ==>
                  r == PacketReply(Success(AsReceived(p, useCompression)), 1, AfterHeader(s, 1)) && r.source.data == rest)
  {
    FlagsOfWireType(p, useCompression);
    HeaderIsReadWhole(s, [WireType(p, useCompression)], rest);
  }

  /** The reader's position after the two header fields of a packet with a body. */
  function AtBody(s: Source): Source
    requires 5 <= |s.data|
  {
    AfterHeader(AfterHeader(s, 1), 4)
  }

  /** The two header fields of this packet arrive whole. */
  predicate HeadersWhole(s: Source)
    requires 5 <= |s.data|
  {
    DeliversWhole(s, 1) && DeliversWhole(AfterHeader(s, 1), 4)
  }

  lemma WireParts(codec: Codec, p: TransferPacket, useCompression: bool)
    requires HasBody(codec, p, useCompression)
    ensures !IsHeartbeat(p.packetType) && WireBody(codec, p, useCompression).Some?
    ensures var body := WireBody(codec, p, useCompression).value;
            Wire(codec, p, useCompression) == [WireType(p, useCompression)] + PutUint32(|body|) + body
  {
    hide WireType, WireBody, RawBody, PutUint32;
  }

  /** Reading what was written for a packet with a body: the headers must arrive whole, and
      then the size field says how much of the body is read. */
  lemma BodyPacketIsRead(codec: Codec, p: TransferPacket, useCompression: bool, s: Source, rest: seq<byte>)
    requires HasBody(codec, p, useCompression) && s.data == Wire(codec, p, useCompression) + rest
    ensures 5 <= |s.data|
    ensures AtBody(s).data == WireBody(codec, p, useCompression).value + rest
    ensures if HeadersWhole(s) then
              ReadPacket(codec, s) ==
              ReadRest(codec, WireType(p, useCompression), |WireBody(codec, p, useCompression).value| % 0x1_0000_0000, AtBody(s))
            else ReadPacket(codec, s).packet.Failure?
  {
    hide PutUint32, Uint32, ReadRest, ReadHeader, DeliversWhole, WireType, RawBody, WireBody, Base, Wire, HasBody;
    var t := WireType(p, useCompression);
    WireParts(codec, p, useCompression);
    var body := WireBody(codec, p, useCompression).value;
    FlagsOfWireType(p, useCompression);
    SizeFieldRoundTrip(|body|);
    var field, tail := PutUint32(|body|), body + rest;
    assert s.data == [t] + (field + tail);
    HeaderIsReadWhole(s, [t], field + tail);
    HeaderIsReadWhole(AfterHeader(s, 1), field, tail);
  }

  lemma InterpretWellFormed(codec: Codec, p: TransferPacket, useCompression: bool)
    requires codec.Lossless() && HasBody(codec, p, useCompression)
    ensures Interpret(codec, WireType(p, useCompression), WireBody(codec, p, useCompression).value)
         == Success(AsReceived(p, useCompression))
        <==> && !IsEncrypted(p.packetType) && (CarriesCommand(p.packetType) ==> p.command.Some?)
             && (FlagAgrees(p, useCompression) || SurvivesDecompression(codec, p))
  {
    FlagsOfWireType(p, useCompression);
  }

  /** A reader that delivers exactly the bytes of one packet, as asked for. */
  function Exactly(bytes: seq<byte>): Source {
    Source(bytes, [])
  }

  predicate GetsThrough(codec: Codec, p: TransferPacket, useCompression: bool) {
    var wire := Wire(codec, p, useCompression);
    ReadPacket(codec, Exactly(wire)) == PacketReply(Success(AsReceived(p, useCompression)), |wire|, Exactly([]))
  }

  /** Main result for one packet, whatever its flags: reading what was written gives the packet
      back, consumes all of it and counts as many bytes as were written, if and only if it is
      well formed and its Compressed bit agrees with `useCompression`, or, where it does not,
      decompressing the uncompressed body happens to give the content again. */
  lemma RoundTripIff(codec: Codec, p: TransferPacket, useCompression: bool)
    requires codec.Lossless()
    ensures GetsThrough(codec, p, useCompression) <==> Sendable(codec, p, useCompression)
  {
    var wire := Wire(codec, p, useCompression);
    var s := Exactly(wire);
    assert wire + [] == wire;
    if IsHeartbeat(p.packetType) {
      HeartbeatIsRead(codec, p, useCompression, s, []);
    } else if HasBody(codec, p, useCompression) {
      BodyGetsThroughIff(codec, p, useCompression);
    } else {
      LoneTypeByte(codec, WireType(p, useCompression));
      FlagsOfWireType(p, useCompression);
    }
  }

  lemma PerfectBody(body: seq<byte>, size: nat)
    requires size <= |body|
    ensures ReadBody(Exactly(body), size) == (Some(body[..size]), Exactly(body[size..]))
  {
    BodyIsNextBytes(Exactly(body), size);
    if size > 0 {
      assert ReadBody(Read(Exactly(body), size).source, 0) == (Some([]), Exactly(body[size..]));
      assert body[..size] + [] == body[..size];
    }
  }

  lemma LoneTypeByte(codec: Codec, t: byte)
    requires !IsHeartbeat(t)
    ensures ReadPacket(codec, Exactly([t])).packet == Failure(ReadFailed)
  {
    HeaderIsReadWhole(Exactly([t]), [t], []);
  }

  lemma WireLength(codec: Codec, p: TransferPacket, useCompression: bool)
    requires HasBody(codec, p, useCompression)
    ensures |Wire(codec, p, useCompression)| == 5 + |WireBody(codec, p, useCompression).value|
  {}

  /** A body within the limit is read whole, in whatever pieces it arrives. */
  lemma SmallBodyIsRead(codec: Codec, p: TransferPacket, useCompression: bool, s: Source, rest: seq<byte>)
    requires HasBody(codec, p, useCompression) && s.data == Wire(codec, p, useCompression) + rest
    requires |WireBody(codec, p, useCompression).value| <= MAX_PACKET_BODY_SIZE
    ensures 5 <= |s.data|
    ensures var body := WireBody(codec, p, useCompression).value;
            var (got, s') := ReadBody(AtBody(s), |body|);
            var r := ReadPacket(codec, s);
            if HeadersWhole(s) && got.Some?
            then r == PacketReply(Interpret(codec, WireType(p, useCompression), body), 5 + |body|, s') && s'.data == rest
            else r.packet.Failure?
  {
    var body := WireBody(codec, p, useCompression).value;
    hide Base, IsHeartbeat, WireType, RawBody, WireBody, HasBody, Wire;
    hide ReadPacket, Interpret, ReadBody, HeadersWhole, DeliversWhole, AfterHeader;
    BodyPacketIsRead(codec, p, useCompression, s, rest);
    hide AtBody, ReadRest;
    if HeadersWhole(s) {
      RestOfSmallBody(codec, WireType(p, useCompression), body, AtBody(s), rest);
    }
  }

  lemma RestOfSmallBody(codec: Codec, t: byte, body: seq<byte>, s: Source, rest: seq<byte>)
    requires |body| <= MAX_PACKET_BODY_SIZE && s.data == body + rest
    ensures var (got, s') := ReadBody(s, |body|);
            var r := ReadRest(codec, t, |body| % 0x1_0000_0000, s);
            if got.Some? then r == PacketReply(Interpret(codec, t, body), 5 + |body|, s') && s'.data == rest
            else r.packet.Failure?
  {
    hide Interpret, ReadBody;
    SmallSize(|body|);
    BodyComesFirst(s, body, rest);
  }

  lemma SmallSize(n: nat)
    requires n <= MAX_PACKET_BODY_SIZE
    ensures n % 0x1_0000_0000 == n
  {}

  lemma BodyComesFirst(s: Source, body: seq<byte>, rest: seq<byte>)
    requires s.data == body + rest
    ensures var (got, s') := ReadBody(s, |body|); got.Some? ==> got.value == body && s'.data == rest
  {
    BodyIsNextBytes(s, |body|);
    assert s.data[..|body|] == body && s.data[|body|..] == rest;
  }

  /** A body over the limit is refused, or cut off by the 32-bit size field. */
  lemma LargeBodyIsNotRead(codec: Codec, p: TransferPacket, useCompression: bool)
    requires HasBody(codec, p, useCompression)
    requires |WireBody(codec, p, useCompression).value| > MAX_PACKET_BODY_SIZE
    ensures var r := ReadPacket(codec, Exactly(Wire(codec, p, useCompression)));
            r.packet.Failure? || r.total < |Wire(codec, p, useCompression)|
  {
    var wire := Wire(codec, p, useCompression);
    var body := WireBody(codec, p, useCompression).value;
    WireLength(codec, p, useCompression);
    hide Base, IsHeartbeat, WireType, RawBody, WireBody, HasBody, Wire;
    hide ReadPacket, Interpret, ReadBody, HeadersWhole, DeliversWhole, AfterHeader;
    assert wire + [] == wire;
    BodyPacketIsRead(codec, p, useCompression, Exactly(wire), []);
    var size := |body| % 0x1_0000_0000;
    if size <= MAX_PACKET_BODY_SIZE {
      assert size < |body|;
      BodyIsNextBytes(AtBody(Exactly(wire)), size);
    }
  }

  lemma PerfectSmallBody(codec: Codec, p: TransferPacket, useCompression: bool)
    requires HasBody(codec, p, useCompression)
    requires |WireBody(codec, p, useCompression).value| <= MAX_PACKET_BODY_SIZE
    ensures var body := WireBody(codec, p, useCompression).value;
            ReadPacket(codec, Exactly(Wire(codec, p, useCompression))) ==
            PacketReply(Interpret(codec, WireType(p, useCompression), body), |Wire(codec, p, useCompression)|, Exactly([]))
  {
    var wire := Wire(codec, p, useCompression);
    var body := WireBody(codec, p, useCompression).value;
    WireLength(codec, p, useCompression);
    assert wire + [] == wire && AtBody(Exactly(wire)) == Exactly(body);
    PerfectBody(body, |body|);
    hide Base, IsHeartbeat, WireType, RawBody, WireBody, HasBody, Wire;
    hide ReadPacket, Interpret, ReadBody;
    SmallBodyIsRead(codec, p, useCompression, Exactly(wire), []);
  }

  lemma BodyGetsThroughIff(codec: Codec, p: TransferPacket, useCompression: bool)
    requires codec.Lossless()
    requires !IsHeartbeat(p.packetType) && HasBody(codec, p, useCompression)
    ensures GetsThrough(codec, p, useCompression) <==> Sendable(codec, p, useCompression)
  {
    var body := WireBody(codec, p, useCompression).value;
    hide Base, IsHeartbeat, IsEncrypted, IsCompressed, CarriesCommand, WireType, RawBody, WireBody, HasBody, Wire;
    hide ReadPacket, Interpret, AsReceived, Codec.Lossless, FlagAgrees, SurvivesDecompression;
    if |body| <= MAX_PACKET_BODY_SIZE {
      PerfectSmallBody(codec, p, useCompression);
      InterpretWellFormed(codec, p, useCompression);
    } else {
      LargeBodyIsNotRead(codec, p, useCompression);
    }
  }

  /** A packet marked as compressed by its sender but sent uncompressed is decompressed all the
      same: it is refused when its body is not compressed data, and otherwise the reader takes
      what the body decompresses to for the packet's content. */
  lemma MarkedButNotCompressed(codec: Codec, p: TransferPacket)
    requires IsCompressed(p.packetType) && !IsEncrypted(p.packetType)
    requires HasBody(codec, p, false) && |RawBody(codec, p).value| <= MAX_PACKET_BODY_SIZE
    ensures var t := p.packetType;
            ReadPacket(codec, Exactly(Wire(codec, p, false))).packet ==
            match codec.decompress(RawBody(codec, p).value)
            case None => Failure(BadCompression)
            case Some(content) =>
              if !CarriesCommand(t) then Success(Plain(t, None, content))
              else
                match codec.unmarshal(content)
                case None => Failure(BadCommand)
                case Some(c) => Success(Plain(t, Some(c), []))
  {
    PerfectSmallBody(codec, p, false);
  }

  /** So a sender that compresses the payload itself and sets the bit is not refused: the peer
      gets the payload of `y`, without an error and without the compression it was sent in. */
  lemma MarkedIsChanged(codec: Codec, p: TransferPacket, y: seq<byte>)
    requires codec.Lossless() && !IsHeartbeat(p.packetType) && !CarriesCommand(p.packetType)
    requires IsCompressed(p.packetType) && !IsEncrypted(p.packetType)
    requires p.payload == codec.compress(y).value && |p.payload| <= MAX_PACKET_BODY_SIZE
    ensures ReadPacket(codec, Exactly(Wire(codec, p, false))).packet == Success(Plain(p.packetType, None, y))
    ensures GetsThrough(codec, p, false) <==> y == p.payload
  {
    MarkedButNotCompressed(codec, p);
    PerfectSmallBody(codec, p, false);
  }

  // ---------------------------------------------------------------------------
  // A stream of packets
  // ---------------------------------------------------------------------------

  /** A packet and the compression flag it is written with. */
  datatype Sent = Sent(packet: TransferPacket, useCompression: bool)

  predicate AllSendable(codec: Codec, sent: seq<Sent>) {
    forall i :: 0 <= i < |sent| ==> Sendable(codec, sent[i].packet, sent[i].useCompression)
  }

  function Stream(codec: Codec, sent: seq<Sent>): seq<byte> {
    if sent == [] then [] else Wire(codec, sent[0].packet, sent[0].useCompression) + Stream(codec, sent[1..])
  }

  function Received(sent: seq<Sent>): seq<TransferPacket> {
    if sent == [] then [] else [AsReceived(sent[0].packet, sent[0].useCompression)] + Received(sent[1..])
  }

  /** What `n` successive calls of ReadPacket return, with the bytes they count, or None as
      soon as one of them fails. */
  function ReadPackets(codec: Codec, s: Source, n: nat): Option<(seq<TransferPacket>, nat, Source)>
    decreases n
  {
    if n == 0 then Some(([], 0, s))
    else
      var r := ReadPacket(codec, s);
      if r.packet.Failure? then None
      else
        match ReadPackets(codec, r.source, n - 1)
        case None => None
        case Some((packets, total, s')) => Some(([r.packet.value] + packets, r.total + total, s'))
  }

  /** The deliveries bring `size` bytes of a body, in any pieces, before one of them carries an
      error. */
  predicate DeliversBody(script: seq<Delivery>, size: nat) {
    size == 0 || script == [] ||
    (script[0].fault == NoFault && DeliversBody(script[1..], size - Min(script[0].n, size)))
  }

  /** The deliveries that are left after them. */
  function ScriptAfter(script: seq<Delivery>, size: nat): seq<Delivery> {
    if size == 0 || script == [] then script else ScriptAfter(script[1..], size - Min(script[0].n, size))
  }

  function AfterBody(s: Source, size: nat): Source
    requires size <= |s.data|
  {
    Source(s.data[size..], ScriptAfter(s.script, size))
  }

  /** The body loop succeeds exactly when the deliveries bring the body. */
  lemma {:induction false} BodyIsReadIff(s: Source, size: nat)
    requires size <= |s.data|
    ensures ReadBody(s, size).0.Some? <==> DeliversBody(s.script, size)
    ensures ReadBody(s, size).0.Some? ==> ReadBody(s, size).1 == AfterBody(s, size)
    decreases |s.script|, size
  {
    hide ReadBody, DeliversBody, ScriptAfter;
    BodyUnfolds(s, size);
    DeliveryUnfolds(s.script, size);
    if size > 0 {
      var r := Read(s, size);
      if r.fault == NoFault {
        BodyIsReadIff(r.source, size - |r.bytes|);
        DeliveryUnfolds(r.source.script, size - |r.bytes|);
        assert r.source.data[size - |r.bytes|..] == s.data[size..];
      }
    }
  }

  lemma DeliveryUnfolds(script: seq<Delivery>, size: nat)
    ensures size == 0 || script == [] ==> DeliversBody(script, size) && ScriptAfter(script, size) == script
    ensures size > 0 && script != [] ==>
              && (DeliversBody(script, size) <==>
                  script[0].fault == NoFault && DeliversBody(script[1..], size - Min(script[0].n, size)))
              && ScriptAfter(script, size) == ScriptAfter(script[1..], size - Min(script[0].n, size))
  {}

  /** The reader delivers this packet: its header fields whole, its body in any pieces, without
      an error in between. */
  predicate DeliversPacket(codec: Codec, x: Sent, s: Source) {
    if IsHeartbeat(x.packet.packetType) then DeliversWhole(s, 1)
    else
      && 5 <= |s.data| && HeadersWhole(s)
      && WireBody(codec, x.packet, x.useCompression).Some?
      && |WireBody(codec, x.packet, x.useCompression).value| <= |AtBody(s).data|
      && DeliversBody(AtBody(s).script, |WireBody(codec, x.packet, x.useCompression).value|)
  }

  /** The reader's position after a packet it delivers. */
  function AfterPacket(codec: Codec, x: Sent, s: Source): Source
    requires DeliversPacket(codec, x, s) && s.data != []
  {
    if IsHeartbeat(x.packet.packetType) then AfterHeader(s, 1)
    else AfterBody(AtBody(s), |WireBody(codec, x.packet, x.useCompression).value|)
  }

  predicate DeliversAll(codec: Codec, sent: seq<Sent>, s: Source) {
    sent == [] ||
    (s.data != [] && DeliversPacket(codec, sent[0], s) && DeliversAll(codec, sent[1..], AfterPacket(codec, sent[0], s)))
  }

  /** One well-formed packet, whatever follows it and however it is delivered. */
  lemma PacketIsRead(codec: Codec, x: Sent, s: Source, rest: seq<byte>)
    requires codec.Lossless()
    requires Sendable(codec, x.packet, x.useCompression)
    requires s.data == Wire(codec, x.packet, x.useCompression) + rest
    ensures s.data != []
    ensures var r := ReadPacket(codec, s);
            && (r.packet.Success? <==> DeliversPacket(codec, x, s))
            && (r.packet.Success? ==>
                  && r.packet.value == AsReceived(x.packet, x.useCompression)
                  && r.total == |Wire(codec, x.packet, x.useCompression)|
                  && r.source == AfterPacket(codec, x, s) && r.source.data == rest)
  {
    if IsHeartbeat(x.packet.packetType) {
      HeartbeatIsRead(codec, x.packet, x.useCompression, s, rest);
    } else {
      BodyPacketOfStream(codec, x, s, rest);
    }
  }

  lemma BodyPacketOfStream(codec: Codec, x: Sent, s: Source, rest: seq<byte>)
    requires codec.Lossless() && !IsHeartbeat(x.packet.packetType)
    requires Sendable(codec, x.packet, x.useCompression)
    requires s.data == Wire(codec, x.packet, x.useCompression) + rest
    ensures 5 <= |s.data|
    ensures var body := WireBody(codec, x.packet, x.useCompression).value;
            var r := ReadPacket(codec, s);
            && |Wire(codec, x.packet, x.useCompression)| == 5 + |body|
            && |body| <= |AtBody(s).data|
            && (r.packet.Success? <==> HeadersWhole(s) && DeliversBody(AtBody(s).script, |body|))
            && (r.packet.Success? ==>
                  && r == PacketReply(Success(AsReceived(x.packet, x.useCompression)), 5 + |body|, AfterBody(AtBody(s), |body|))
                  && r.source.data == rest)
  {
    var p, c := x.packet, x.useCompression;
    WireLength(codec, p, c);
    BodyPacketIsRead(codec, p, c, s, rest);
    BodyIsReadIff(AtBody(s), |WireBody(codec, p, c).value|);
    hide Base, IsHeartbeat, IsEncrypted, IsCompressed, CarriesCommand, WireType, RawBody, WireBody, HasBody, Wire;
    hide ReadPacket, Interpret, AsReceived, ReadBody, HeadersWhole, Codec.Lossless, FlagAgrees, SurvivesDecompression;
    SmallBodyIsRead(codec, p, c, s, rest);
    InterpretWellFormed(codec, p, c);
  }

  /** Main result: for any sequence of packets that can be sent, reading as many packets as were
      written succeeds exactly when the reader delivers them (header fields whole, bodies in any
      pieces), and then gives back the same sequence, consumes exactly the bytes written and
      counts them correctly. */
  lemma {:induction false} StreamRoundTrip(codec: Codec, sent: seq<Sent>, s: Source, rest: seq<byte>)
    requires codec.Lossless() && AllSendable(codec, sent)
    requires s.data == Stream(codec, sent) + rest
    ensures var r := ReadPackets(codec, s, |sent|);
            && (r.Some? <==> DeliversAll(codec, sent, s))
            && (r.Some? ==> r.value.0 == Received(sent) && r.value.1 == |Stream(codec, sent)| && r.value.2.data == rest)
    decreases |sent|
  {
    hide Sendable, ReadPacket, Wire, DeliversPacket, AfterPacket, AsReceived;
    if sent != [] {
      var x, more := sent[0], sent[1..];
      var wire := Wire(codec, x.packet, x.useCompression);
      assert s.data == wire + (Stream(codec, more) + rest);
      PacketIsRead(codec, x, s, Stream(codec, more) + rest);
      var r := ReadPacket(codec, s);
      if r.packet.Success? {
        StreamRoundTrip(codec, more, r.source, rest);
      }
    }
  }

  /** A reader that never fails and delivers at least four bytes at a time where they are asked
      for delivers every stream, whatever the pieces. */
  lemma {:induction false} FourBytesAtATime(codec: Codec, sent: seq<Sent>, s: Source, rest: seq<byte>)
    requires codec.Lossless() && AllSendable(codec, sent)
    requires s.data == Stream(codec, sent) + rest && SteadyScript(s.script)
    ensures DeliversAll(codec, sent, s)
    decreases |sent|
  {
    if sent != [] {
      var x, more := sent[0], sent[1..];
      assert s.data == Wire(codec, x.packet, x.useCompression) + (Stream(codec, more) + rest);
      PacketIsRead(codec, x, s, Stream(codec, more) + rest);
      SteadyDelivers(codec, x, s, Stream(codec, more) + rest);
      hide Sendable, ReadPacket, Wire, DeliversPacket, AfterPacket, AsReceived;
      FourBytesAtATime(codec, more, AfterPacket(codec, x, s), rest);
    }
  }

  predicate SteadyScript(script: seq<Delivery>) {
    forall i :: 0 <= i < |script| ==> script[i].n >= 4 && script[i].fault == NoFault
  }

  lemma {:induction false} SteadyBodies(script: seq<Delivery>, size: nat)
    requires SteadyScript(script)
    ensures DeliversBody(script, size) && SteadyScript(ScriptAfter(script, size))
    decreases |script|
  {
    if size > 0 && script != [] {
      SteadyBodies(script[1..], size - Min(script[0].n, size));
    }
  }

  lemma SteadyHeaders(s: Source)
    requires SteadyScript(s.script) && 5 <= |s.data|
    ensures HeadersWhole(s) && SteadyScript(AtBody(s).script)
  {}

  lemma SteadyBody(s: Source, size: nat)
    requires SteadyScript(s.script) && size <= |s.data|
    ensures DeliversBody(s.script, size) && SteadyScript(AfterBody(s, size).script)
  {
    SteadyBodies(s.script, size);
  }

  lemma SteadyDelivers(codec: Codec, x: Sent, s: Source, rest: seq<byte>)
    requires Sendable(codec, x.packet, x.useCompression)
    requires s.data == Wire(codec, x.packet, x.useCompression) + rest && SteadyScript(s.script)
    ensures s.data != [] && DeliversPacket(codec, x, s) && SteadyScript(AfterPacket(codec, x, s).script)
  {
    if !IsHeartbeat(x.packet.packetType) {
      var body := WireBody(codec, x.packet, x.useCompression).value;
      BodyPacketIsRead(codec, x.packet, x.useCompression, s, rest);
      hide ReadPacket, ReadRest, ReadBody, RawBody, WireBody, Base, HasBody, WireType, IsEncrypted, CarriesCommand;
      hide HeadersWhole, SteadyScript, AtBody;
      SteadyHeaders(s);
      SteadyBody(AtBody(s), |body|);
    }
  }

  // ---------------------------------------------------------------------------
  // The format on the wire, in literal terms
  // ---------------------------------------------------------------------------

  /** What is on the wire for each of the 256 types: the type byte, with bit 0x40 set by
      compression; then, unless the lower six bits are 0x03 or there is nothing to say, the size
      and the body: the command for 0x10 and 0x11, the payload for every other type. */
  lemma WireFormat(codec: Codec, p: TransferPacket, useCompression: bool, t: bv8)
    requires codec.Lossless() && p.packetType == t as byte
    ensures var first := (if useCompression then t | 0x40 else t) as byte;
            var content := if (t & 0x3F == 0x10 || t & 0x3F == 0x11) && p.command.Some?
                           then codec.marshal(p.command.value).value else p.payload;
            var body := if useCompression then codec.compress(content).value else content;
            Wire(codec, p, useCompression) ==
            if t & 0x3F == 0x03 || content == [] then [first] else [first] + PutUint32(|body|) + body
  {
    FlagsAreBits(t);
    hide Base, IsHeartbeat, CarriesCommand, SetCompressed, PutUint32;
  }

  /** A command (0x10) and a command response (0x11) carry their command: type, size and the
      marshalled command go on the wire, and a reader gets the command back, whatever follows. */
  lemma CommandsCarryTheirCommand(codec: Codec, t: byte, c: CommandPacket, payload: seq<byte>, rest: seq<byte>)
    requires codec.Lossless() && (t == 0x10 || t == 0x11)
    ensures var p := Plain(t, Some(c), payload);
            var body := codec.marshal(c).value;
            var wire := [t] + PutUint32(|body|) + body;
            && Wire(codec, p, false) == wire
            && (|body| <= 16777216 ==>
                  ReadPacket(codec, Exactly(wire + rest)) ==
                  PacketReply(Success(Plain(t, Some(c), [])), 5 + |body|, Exactly(rest)))
  {
    SingleTypes(t);
    PlainTypeIsRead(codec, Plain(t, Some(c), payload), codec.marshal(c).value, rest);
  }

  /** Handshakes and tunnel packets carry their payload, also when a command is set. */
  lemma OthersCarryTheirPayload(codec: Codec, t: byte, command: Option<CommandPacket>, payload: seq<byte>, rest: seq<byte>)
    requires codec.Lossless() && payload != []
    requires t in {0x01, 0x02, 0x20, 0x21, 0x22, 0x23, 0x24}
    ensures var p := Plain(t, command, payload);
            var wire := [t] + PutUint32(|payload|) + payload;
            && Wire(codec, p, false) == wire
            && (|payload| <= 16777216 ==>
                  ReadPacket(codec, Exactly(wire + rest)) ==
                  PacketReply(Success(Plain(t, None, payload)), 5 + |payload|, Exactly(rest)))
  {
    SingleTypes(t);
    PlainTypeIsRead(codec, Plain(t, command, payload), payload, rest);
  }

  /** Types below 0x40 have no flag set and are their own base type. */
  lemma SingleTypes(t: byte)
    requires t < 0x40
    ensures Base(t) == t && !IsCompressed(t) && !IsEncrypted(t)
    ensures IsHeartbeat(t) <==> t == 0x03
    ensures CarriesCommand(t) <==> t == 0x10 || t == 0x11
  {}

  lemma PlainTypeIsRead(codec: Codec, p: TransferPacket, body: seq<byte>, rest: seq<byte>)
    requires codec.Lossless() && !IsCompressed(p.packetType) && !IsEncrypted(p.packetType) && !IsHeartbeat(p.packetType)
    requires CarriesCommand(p.packetType) ==> p.command.Some?
    requires RawBody(codec, p) == Some(body) && body != []
    ensures var wire := [p.packetType] + PutUint32(|body|) + body;
            && Wire(codec, p, false) == wire
            && (|body| <= 16777216 ==>
                  ReadPacket(codec, Exactly(wire + rest)) ==
                  PacketReply(Success(AsReceived(p, false)), 5 + |body|, Exactly(rest)))
  {
    var wire := Wire(codec, p, false);
    assert wire == [p.packetType] + PutUint32(|body|) + body;
    if |body| <= 16777216 {
      var s := Exactly(wire + rest);
      PlainIsSendable(codec, p, body);
      hide Wire, PutUint32, RawBody, WireBody, HasBody, Sendable, ReadPacket, AsReceived, HeadersWhole, AtBody, DeliversBody;
      BodyPacketOfStream(codec, Sent(p, false), s, rest);
      PerfectDelivery(s, |body|);
    }
  }

  lemma PlainIsSendable(codec: Codec, p: TransferPacket, body: seq<byte>)
    requires !IsCompressed(p.packetType) && !IsEncrypted(p.packetType) && !IsHeartbeat(p.packetType)
    requires CarriesCommand(p.packetType) ==> p.command.Some?
    requires RawBody(codec, p) == Some(body) && body != [] && |body| <= 16777216
    ensures Sendable(codec, p, false) && WireBody(codec, p, false) == Some(body)
  {
    hide RawBody, Base, IsHeartbeat, CarriesCommand, IsCompressed, IsEncrypted;
  }

  lemma PerfectDelivery(s: Source, size: nat)
    requires s.script == [] && 5 <= |s.data| && size <= |AtBody(s).data|
    ensures HeadersWhole(s) && DeliversBody(AtBody(s).script, size)
    ensures AfterBody(AtBody(s), size).script == []
  {}

  /** A body of more than 16 MiB, 16777216 bytes, is refused, and no other is for its size. */
  lemma LimitIs16MiB(codec: Codec, t: byte, size: nat, s: Source)
    ensures ReadRest(codec, t, size, s).packet == Failure(TooLarge) <==> size > 16777216
  {
    hide ReadBody;
  }
}
