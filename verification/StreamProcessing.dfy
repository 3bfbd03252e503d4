/** StreamProcessor of internal/stream: packets written to and read from byte streams, with
    pooled buffers for reading and an optional rate limit for writing. */
module StreamProcessing {
  import opened Bytes
  import opened Flows
  import opened Options
  import opened Results
  import opened PacketFraming
  import opened Buffers
  import opened StreamIO
  import Bucketing = StreamBucket

  // ---------------------------------------------------------------------------
  // ReadExact as a function of what the reader delivers
  // ---------------------------------------------------------------------------

  datatype ExactError = NoError | EndOfFile | ReadError | UnexpectedEof | Cancelled

  /** `bytes` is None when the call returns nil. */
  datatype ExactReply = ExactReply(bytes: Option<seq<byte>>, error: ExactError, source: Source)

  function Tick(patience: Option<nat>): Option<nat> {
    match patience
    case Some(rounds) => Some(if rounds == 0 then 0 else rounds - 1)
    case None => None
  }

  /** The loop of ReadExact with `got` already read. `patience` is the number of rounds after
      which the context is found cancelled, if it is. */
  function ExactRead(s: Source, length: nat, got: seq<byte>, patience: Option<nat>): ExactReply
    requires |got| <= length
    decreases |s.script|, length - |got|
  {
    if |got| == length then ExactReply(Some(got), NoError, s)
    else if patience == Some(0) then ExactReply(None, Cancelled, s)
    else
      var r := Read(s, length - |got|);
      var got' := got + r.bytes;
      if r.fault == Eof && |got'| == length then ExactReply(Some(got'), NoError, r.source)
      else if r.fault == Eof then ExactReply(Some(got'), EndOfFile, r.source)
      else if r.fault == OtherFault then ExactReply(Some(got'), ReadError, r.source)
      else if r.bytes == [] && got != [] then ExactReply(Some(got'), UnexpectedEof, r.source)
      else ExactRead(r.source, length, got', Tick(patience))
  }

  /** ReadExact loses nothing unless it is cancelled, and succeeds exactly with `length` bytes,
      or fails with them when the last piece came with an error other than io.EOF. */
  lemma {:induction false} ExactReadConserves(s: Source, length: nat, got: seq<byte>, patience: Option<nat>)
    requires |got| <= length
    ensures ExactlyConserved(ExactRead(s, length, got, patience), got + s.data, length, patience)
    decreases |s.script|, length - |got|
  {
    hide Read;
    if |got| < length && patience != Some(0) {
      var r := Read(s, length - |got|);
      assert (got + r.bytes) + r.source.data == got + s.data;
      if r.fault == NoFault && !(r.bytes == [] && got != []) {
        hide ExactlyConserved, Tick;
        ExactReadConserves(r.source, length, got + r.bytes, Tick(patience));
        ConservedBeforeTick(ExactRead(s, length, got, patience), got + s.data, length, patience);
      }
    }
  }

  /** The reader delivers the `missing` bytes to ReadExact before it gives up: without an error,
      except that io.EOF may come with the last piece; with no empty piece once the first bytes
      have come (`begun`); and before the context is cancelled. */
  predicate DeliversExactly(script: seq<Delivery>, missing: nat, begun: bool, patience: Option<nat>) {
    missing == 0 ||
    (&& patience != Some(0)
     && (script != [] ==>
           var n := Min(script[0].n, missing);
           || (script[0].fault == Eof && n == missing)
           || (&& script[0].fault == NoFault && (n > 0 || !begun)
               && DeliversExactly(script[1..], missing - n, begun || n > 0, Tick(patience)))))
  }

  lemma DeliversUnfolds(script: seq<Delivery>, missing: nat, begun: bool, patience: Option<nat>)
    ensures missing == 0 ==> DeliversExactly(script, missing, begun, patience)
    ensures missing > 0 && patience == Some(0) ==> !DeliversExactly(script, missing, begun, patience)
    ensures missing > 0 && patience != Some(0) && script == [] ==> DeliversExactly(script, missing, begun, patience)
    ensures missing > 0 && patience != Some(0) && script != [] ==>
              var n := Min(script[0].n, missing);
              (DeliversExactly(script, missing, begun, patience) <==>
               || (script[0].fault == Eof && n == missing)
               || (&& script[0].fault == NoFault && (n > 0 || !begun)
                   && DeliversExactly(script[1..], missing - n, begun || n > 0, Tick(patience))))
  {}

  lemma ReadDelivers(s: Source, want: nat)
    requires 0 < want <= |s.data|
    ensures var r := Read(s, want);
            if s.script == [] then r.fault == NoFault && |r.bytes| == want
            else r.fault == s.script[0].fault && |r.bytes| == Min(s.script[0].n, want)
  {}

  /** ReadExact succeeds exactly when enough bytes are there and the reader delivers them. */
  lemma {:induction false} ExactReadIff(s: Source, length: nat, got: seq<byte>, patience: Option<nat>)
    requires |got| <= length <= |got| + |s.data|
    ensures ExactRead(s, length, got, patience).error == NoError <==>
            DeliversExactly(s.script, length - |got|, got != [], patience)
    decreases |s.script|, length - |got|
  {
    hide Read, DeliversExactly;
    var missing := length - |got|;
    DeliversUnfolds(s.script, missing, got != [], patience);
    if missing > 0 && patience != Some(0) {
      var r := Read(s, missing);
      ReadDelivers(s, missing);
      if r.fault == NoFault && !(r.bytes == [] && got != []) {
        hide ExactRead;
        ExactReadUnfolds(s, length, got, patience);
        ExactReadIff(r.source, length, got + r.bytes, Tick(patience));
        if s.script == [] {
          DeliversUnfolds(r.source.script, 0, true, Tick(patience));
        }
      }
    }
  }

  lemma ExactReadUnfolds(s: Source, length: nat, got: seq<byte>, patience: Option<nat>)
    requires |got| < length && patience != Some(0)
    requires var r := Read(s, length - |got|); r.fault == NoFault && !(r.bytes == [] && got != [])
    ensures var r := Read(s, length - |got|);
            ExactRead(s, length, got, patience) == ExactRead(r.source, length, got + r.bytes, Tick(patience))
  {
    hide Read;
  }

  /** In however many pieces: a reader that never fails and never delivers nothing gives ReadExact
      the next `length` bytes, and it takes no more than them. */
  lemma PiecesAreEnough(s: Source, length: nat)
    requires length <= |s.data|
    requires forall i :: 0 <= i < |s.script| ==> s.script[i].fault == NoFault && s.script[i].n > 0
    ensures var r := ExactRead(s, length, [], None);
            r.error == NoError && r.bytes == Some(s.data[..length]) && r.source.data == s.data[length..]
  {
    hide ExactRead, DeliversExactly;
    PiecesDeliver(s.script, length, false);
    ExactReadIff(s, length, [], None);
    ExactReadConserves(s, length, [], None);
    var r := ExactRead(s, length, [], None);
    assert r.bytes.value + r.source.data == s.data;
  }

  lemma {:induction false} PiecesDeliver(script: seq<Delivery>, missing: nat, begun: bool)
    requires forall i :: 0 <= i < |script| ==> script[i].fault == NoFault && script[i].n > 0
    ensures DeliversExactly(script, missing, begun, None)
    decreases |script|
  {
    hide DeliversExactly;
    DeliversUnfolds(script, missing, begun, None);
    if script != [] && missing > 0 {
      PiecesDeliver(script[1..], missing - Min(script[0].n, missing), begun || Min(script[0].n, missing) > 0);
    }
  }

  lemma ConservedBeforeTick(r: ExactReply, all: seq<byte>, length: nat, patience: Option<nat>)
    requires ExactlyConserved(r, all, length, Tick(patience))
    ensures ExactlyConserved(r, all, length, patience)
  {}

  predicate ExactlyConserved(r: ExactReply, all: seq<byte>, length: nat, patience: Option<nat>) {
    && (r.bytes.Some? ==> r.bytes.value + r.source.data == all && |r.bytes.value| <= length)
    && (r.bytes.None? <==> r.error == Cancelled)
    && (r.error == NoError ==> |r.bytes.value| == length)
    && (r.error == EndOfFile || r.error == UnexpectedEof ==> |r.bytes.value| < length)
    && (r.error == Cancelled ==> patience.Some?)
  }

  /** The reply of the body loop when `bytes` were read before. */
  ghost function After(bytes: seq<byte>, reply: (Option<seq<byte>>, Source)): (Option<seq<byte>>, Source) {
    (if reply.0.Some? then Some(bytes + reply.0.value) else None, reply.1)
  }

  lemma AfterNothing(reply: (Option<seq<byte>>, Source))
    ensures After([], reply) == reply
  {
    assert reply.0.Some? ==> [] + reply.0.value == reply.0.value;
  }

  lemma AfterOneRead(read: seq<byte>, s: Source, size: nat)
    requires size > 0 && Read(s, size).fault == NoFault
    ensures var r := Read(s, size);
            After(read, ReadBody(s, size)) == After(read + r.bytes, ReadBody(r.source, size - |r.bytes|))
  {
    hide Read;
    var r := Read(s, size);
    var (rest, _) := ReadBody(r.source, size - |r.bytes|);
    assert rest.Some? ==> read + (r.bytes + rest.value) == (read + r.bytes) + rest.value;
  }

  lemma AfterFault(read: seq<byte>, s: Source, size: nat)
    requires size > 0 && Read(s, size).fault != NoFault
    ensures After(read, ReadBody(s, size)) == (None, Read(s, size).source)
  {}

  lemma AfterAll(read: seq<byte>, s: Source)
    ensures After(read, ReadBody(s, 0)) == (Some(read), s)
  {
    assert read + [] == read;
  }

  lemma FrontGrows(data: seq<byte>, from: nat, n: nat)
    requires from + n <= |data|
    ensures data[..from] + data[from..][..n] == data[..from + n]
  {}

  /** One use of the pool by somebody. */
  datatype PoolUse =
    | Exact(length: nat, pick: nat, patience: Option<nat>)
    | Body(size: nat, pick: nat)
    | Packet(pick: nat)
    | Overwrite(size: nat, pick: nat, b: byte)
    | CloseThePool

  class StreamProcessor {
    const reader: ByteReader
    const writer: ByteWriter
    const bufferPool: BufferPool
    const clock: Clock
    const codec: Codec
    var closed: bool

    constructor (reader: ByteReader, writer: ByteWriter, bufferPool: BufferPool, clock: Clock, codec: Codec)
      ensures this.reader == reader && this.writer == writer && this.bufferPool == bufferPool
      ensures this.clock == clock && this.codec == codec && !closed
    {
      this.reader, this.writer, this.bufferPool, this.clock, this.codec := reader, writer, bufferPool, clock, codec;
      closed := false;
    }

    // -------------------------------------------------------------------------
    // Reading
    // -------------------------------------------------------------------------

    method CopyOut(buf: array<byte>, n: nat) returns (result: array<byte>)
      requires n <= buf.Length
      ensures fresh(result) && result[..] == buf[..n]
    {
      result := new byte[n];
      forall i | 0 <= i < n {
        result[i] := buf[i];
      }
    }

    /** A header field: one Read into a pooled buffer. */
    method ReadField(size: nat, pick: nat) returns (r: Result<seq<byte>, ReadError>)
      requires bufferPool.Valid()
      modifies reader, bufferPool, bufferPool.Pooled()
      ensures bufferPool.Valid() && bufferPool.lent == old(bufferPool.lent)
      ensures fresh(bufferPool.Pooled() - old(bufferPool.Pooled()))
      ensures (r, reader.View()) == ReadHeader(old(reader.View()), size)
    {
      var buffer := bufferPool.Get(size, pick);
      var n, fault := reader.ReadInto(buffer.arr, 0, size);
      if fault != NoFault {
        r := Failure(ReadFailed);
      } else if n != size {
        r := Failure(ShortHeader);
      } else {
        r := Success(buffer.arr[..size]);
      }
      bufferPool.Put(buffer);
    }

    /** `readPacketBody` after its size check. The result is a new array that the pool neither
        holds nor has lent, so no later use of the pool can reach it. */
    method ReadPacketBody(size: nat, pick: nat) returns (result: Option<array<byte>>)
      requires bufferPool.Valid()
      modifies reader, bufferPool, bufferPool.Pooled()
      ensures bufferPool.Valid() && bufferPool.lent == old(bufferPool.lent)
      ensures fresh(bufferPool.Pooled() - old(bufferPool.Pooled()))
      ensures var (body, s) := ReadBody(old(reader.View()), size);
              && reader.View() == s && (result.Some? <==> body.Some?)
              && (result.Some? ==>
                    && fresh(result.value) && result.value[..] == body.value
                    && result.value !in bufferPool.Pooled() && result.value !in bufferPool.lent)
    {
      var buffer := bufferPool.Get(size, pick);
      var ok := FillBody(buffer.arr, size);
      if ok {
        var copy := CopyOut(buffer.arr, size);
        result := Some(copy);
      } else {
        result := None;
      }
      bufferPool.Put(buffer);
    }

    /** The loop of readPacketBody. */
    method FillBody(arr: array<byte>, size: nat) returns (ok: bool)
      requires size <= arr.Length
      modifies reader, arr
      ensures var (body, s) := ReadBody(old(reader.View()), size);
              reader.View() == s && (ok <==> body.Some?) && (ok ==> arr[..size] == body.value)
    {
      hide Read, ReadBody, After;
      ghost var start := reader.View();
      var totalRead := 0;
      assert arr[..0] == [];
      AfterNothing(ReadBody(start, size));
      while totalRead < size
        invariant 0 <= totalRead <= size
        invariant ReadBody(start, size) == After(arr[..totalRead], ReadBody(reader.View(), size - totalRead))
        decreases |reader.script|, size - totalRead
      {
        ghost var read, at := arr[..totalRead], reader.View();
        var n, fault := reader.ReadInto(arr, totalRead, size);
        if fault != NoFault {
          AfterFault(read, at, size - totalRead);
          return false;
        }
        assert arr[..totalRead + n] == read + Read(at, size - totalRead).bytes;
        AfterOneRead(read, at, size - totalRead);
        totalRead := totalRead + n;
      }
      AfterAll(arr[..size], reader.View());
      return true;
    }

    /** `ReadPacket`: reads exactly what the function of the same name says. */
    method ReadNextPacket(pick: nat) returns (packet: Result<TransferPacket, ReadError>, total: nat)
      requires bufferPool.Valid()
      modifies reader, bufferPool, bufferPool.Pooled()
      ensures bufferPool.Valid() && bufferPool.lent == old(bufferPool.lent)
      ensures fresh(bufferPool.Pooled() - old(bufferPool.Pooled()))
      ensures closed ==> packet == Failure(ReadFailed) && total == 0 && reader.View() == old(reader.View())
      ensures !closed ==> PacketReply(packet, total, reader.View()) == ReadPacket(codec, old(reader.View()))
    {
      if closed {
        return Failure(ReadFailed), 0;
      }
      var typeField := ReadField(PACKET_TYPE_SIZE, pick);
      if typeField.Failure? {
        return Failure(typeField.error), 0;
      }
      var packetType := typeField.value[0];
      if IsHeartbeat(packetType) {
        return Success(Plain(packetType, None, [])), PACKET_TYPE_SIZE;
      }
      var sizeField := ReadField(PACKET_BODY_SIZE_BYTES, pick);
      if sizeField.Failure? {
        return Failure(sizeField.error), PACKET_TYPE_SIZE;
      }
      var bodySize := Uint32(sizeField.value);
      total := PACKET_TYPE_SIZE + PACKET_BODY_SIZE_BYTES;
      if bodySize > MAX_PACKET_BODY_SIZE {
        return Failure(TooLarge), total;
      }
      var body := ReadPacketBody(bodySize, pick);
      if body.None? {
        return Failure(ReadFailed), total;
      }
      return Interpret(codec, packetType, body.value[..]), total + body.value.Length;
    }

    /** `ReadExact`: a new array that the pool neither holds nor has lent. */
    method ReadExact(length: nat, pick: nat, patience: Option<nat>) returns (result: Option<array<byte>>, error: ExactError)
      requires bufferPool.Valid()
      modifies reader, bufferPool, bufferPool.Pooled()
      ensures bufferPool.Valid() && bufferPool.lent == old(bufferPool.lent)
      ensures fresh(bufferPool.Pooled() - old(bufferPool.Pooled()))
      ensures var r := ExactRead(old(reader.View()), length, [], patience);
              && reader.View() == r.source && error == r.error && (result.Some? <==> r.bytes.Some?)
              && (result.Some? ==>
                    && fresh(result.value) && result.value[..] == r.bytes.value
                    && result.value !in bufferPool.Pooled() && result.value !in bufferPool.lent)
    {
      var buffer := bufferPool.Get(length, pick);
      var n;
      n, error := FillExactly(buffer.arr, length, patience);
      if error == Cancelled {
        result := None;
      } else {
        var copy := CopyOut(buffer.arr, n);
        result := Some(copy);
      }
      bufferPool.Put(buffer);
    }

    /** The loop of ReadExact: how much was read, and why it stopped. */
    method FillExactly(arr: array<byte>, length: nat, patience: Option<nat>) returns (n: nat, error: ExactError)
      requires length <= arr.Length
      modifies reader, arr
      ensures var r := ExactRead(old(reader.View()), length, [], patience);
              && reader.View() == r.source && error == r.error && n <= length
              && (error == Cancelled <==> r.bytes.None?)
              && (r.bytes.Some? ==> r.bytes.value == arr[..n])
    {
      hide Read;
      ghost var whole := ExactRead(reader.View(), length, [], patience);
      var totalRead, rounds := 0, patience;
      assert arr[..0] == [];
      while totalRead < length
        invariant 0 <= totalRead <= length
        invariant ExactRead(reader.View(), length, arr[..totalRead], rounds) == whole
        decreases |reader.script|, length - totalRead
      {
        if rounds == Some(0) {
          return totalRead, Cancelled;
        }
        ghost var read, at := arr[..totalRead], reader.View();
        var got, fault := reader.ReadInto(arr, totalRead, length);
        assert arr[..totalRead + got] == read + Read(at, length - totalRead).bytes;
        totalRead := totalRead + got;
        if fault == Eof {
          return totalRead, if totalRead == length then NoError else EndOfFile;
        }
        if fault == OtherFault {
          return totalRead, ReadError;
        }
        if got == 0 && totalRead > 0 {
          return totalRead, UnexpectedEof;
        }
        rounds := Tick(rounds);
      }
      return totalRead, NoError;
    }

    // -------------------------------------------------------------------------
    // Results outlive the pool
    // -------------------------------------------------------------------------

    /** Another holder takes a buffer, writes all over it and puts it back. */
    method Scribble(size: nat, pick: nat, b: byte)
      requires bufferPool.Valid()
      modifies bufferPool, bufferPool.Pooled()
      ensures bufferPool.Valid() && bufferPool.lent == old(bufferPool.lent)
      ensures fresh(bufferPool.Pooled() - old(bufferPool.Pooled()))
    {
      var buffer := bufferPool.Get(size, pick);
      var arr := buffer.arr;
      forall i | 0 <= i < arr.Length {
        arr[i] := b;
      }
      bufferPool.Put(buffer);
    }

    method UseOnce(use: PoolUse)
      requires bufferPool.Valid()
      modifies reader, bufferPool, bufferPool.Pooled()
      ensures bufferPool.Valid() && bufferPool.lent == old(bufferPool.lent)
      ensures fresh(bufferPool.Pooled() - old(bufferPool.Pooled()))
    {
      match use {
        case Exact(length, pick, patience) =>
          var _, _ := ReadExact(length, pick, patience);
        case Body(size, pick) =>
          var _ := ReadPacketBody(size, pick);
        case Packet(pick) =>
          var _, _ := ReadNextPacket(pick);
        case Overwrite(size, pick, b) =>
          Scribble(size, pick, b);
        case CloseThePool =>
          bufferPool.Close();
      }
    }

    /** Arrays that the pool neither holds nor has lent keep their bytes through every later use
        of the pool, and stay out of its reach. */
    method UsePool(uses: seq<PoolUse>, ghost kept: set<array<byte>>)
      requires bufferPool.Valid() && kept !! bufferPool.Pooled() && kept !! bufferPool.lent
      modifies reader, bufferPool, bufferPool.Pooled()
      ensures bufferPool.Valid() && bufferPool.lent == old(bufferPool.lent)
      ensures fresh(bufferPool.Pooled() - old(bufferPool.Pooled()))
      ensures kept !! bufferPool.Pooled() && forall a :: a in kept ==> a[..] == old(a[..])
    {
      for i := 0 to |uses|
        invariant bufferPool.Valid() && bufferPool.lent == old(bufferPool.lent)
        invariant fresh(bufferPool.Pooled() - old(bufferPool.Pooled()))
        invariant forall a :: a in kept ==> a[..] == old(a[..])
      {
        UseOnce(uses[i]);
      }
    }

    /** What ReadExact and then readPacketBody returned is still there after any later use of the
        pool, the second read included. */
    method ReadsOutliveThePool(length: nat, size: nat, pick: nat, patience: Option<nat>, uses: seq<PoolUse>)
      returns (result: Option<array<byte>>, body: Option<array<byte>>)
      requires bufferPool.Valid()
      modifies reader, bufferPool, bufferPool.Pooled()
      ensures var r := ExactRead(old(reader.View()), length, [], patience);
              && (result.Some? <==> r.bytes.Some?) && (result.Some? ==> result.value[..] == r.bytes.value)
              && var b := ReadBody(r.source, size).0;
                 (body.Some? <==> b.Some?) && (body.Some? ==> body.value[..] == b.value)
    {
      hide ExactRead, ReadBody;
      var error;
      result, error := ReadExact(length, pick, patience);
      body := ReadPacketBody(size, pick);
      ghost var kept := (if result.Some? then {result.value} else {}) + if body.Some? then {body.value} else {};
      UsePool(uses, kept);
    }

    // -------------------------------------------------------------------------
    // Writing
    // -------------------------------------------------------------------------

    /** `WriteExact`; `patience` is the number of rounds after which the context is found
        cancelled, if it is. */
    method WriteExact(data: seq<byte>, patience: Option<nat>) returns (ok: bool)
      modifies writer
      ensures closed ==> !ok && writer.out == old(writer.out)
      ensures exists k :: 0 <= k <= |data| && writer.out == old(writer.out) + data[..k] && (ok ==> k == |data|)
      ensures old(writer.Reliable()) && !closed ==> (ok <==> data == [] || patience != Some(0))
    {
      assert data[..0] == [];
      if closed {
        return false;
      }
      var totalWritten, rounds := 0, patience;
      while totalWritten < |data|
        invariant totalWritten <= |data|
        invariant if totalWritten == 0 then rounds == patience else patience != Some(0)
        invariant old(writer.Reliable()) ==> totalWritten == |data| || rounds == patience
        invariant writer.out == old(writer.out) + data[..totalWritten]
        invariant old(writer.Reliable()) ==> writer.Reliable()
      {
        if rounds == Some(0) {
          return false;
        }
        var n, written := writer.Write(data[totalWritten..]);
        FrontGrows(data, totalWritten, n);
        totalWritten := totalWritten + n;
        if !written {
          return false;
        }
        rounds := Tick(rounds);
      }
      return true;
    }

    /** `writeRateLimitedData`: when it succeeds it has written exactly the bytes a direct write
        would have, and has taken at least length/rate seconds over it. */
    method WriteRateLimitedData(data: seq<byte>, rate: int) returns (ok: bool)
      modifies writer, clock
      ensures clock.now >= old(clock.now)
      ensures exists k :: 0 <= k <= |data| && writer.out == old(writer.out) + data[..k] && (ok ==> k == |data|)
      ensures ok ==> 0 < rate && |data| as real <= Flow(rate as real, clock.now - old(clock.now))
      ensures old(writer.Reliable()) && clock.cancelledAt.None? && 0 < rate ==> ok
    {
      assert data[..0] == [];
      if rate <= 0 {
        return false;
      }
      ghost var began := clock.now;
      var tokenBucket := new TokenBucket(rate, clock.now);
      var limited := new RateLimiterWriter(writer, tokenBucket, clock);
      var totalWritten := 0;
      while totalWritten < |data|
        invariant totalWritten <= |data|
        invariant writer.out == old(writer.out) + data[..totalWritten]
        invariant tokenBucket.Valid() && tokenBucket.lastRefill <= clock.now && tokenBucket.peak == rate
        invariant tokenBucket.granted == totalWritten && began <= clock.now && !limited.closed
        invariant old(writer.Reliable()) ==> writer.Reliable()
      {
        var n, written := limited.Write(data[totalWritten..]);
        assert data[..totalWritten] + data[totalWritten..][..n] == data[..totalWritten + n];
        if !written {
          return false;
        }
        totalWritten := totalWritten + n;
      }
      LongerFlowsMore(rate as real, tokenBucket.lastRefill - tokenBucket.created, clock.now - began);
      return true;
    }

    /** `WritePacket`: what reaches the writer is always a prefix of Wire; success means all of
        it, with the right count, and nothing but a fault of the writer, a cancellation or a
        body that cannot be produced prevents success. */
    method WritePacket(pkt: Option<TransferPacket>, useCompression: bool, rate: int) returns (total: nat, ok: bool)
      modifies writer, clock
      ensures closed || pkt.None? ==> !ok && total == 0 && writer.out == old(writer.out)
      ensures !closed && pkt.Some? ==>
                var wire := Wire(codec, pkt.value, useCompression);
                exists k :: 0 <= k <= |wire| && writer.out == old(writer.out) + wire[..k] && total <= k && (ok ==> total == |wire|)
      ensures !closed && pkt.Some? && BodyFails(codec, pkt.value, useCompression) ==> !ok
      ensures !closed && pkt.Some? && old(writer.Reliable()) && clock.cancelledAt.None? ==>
                (ok <==> !BodyFails(codec, pkt.value, useCompression))
    {
      if closed || pkt.None? {
        return 0, false;
      }
      var p := pkt.value;
      var packetType := WireType(p, useCompression);
      FlagsOfWireType(p, useCompression);
      hide Base, IsEncrypted, IsCompressed, CarriesCommand, WireType, RawBody, PutUint32;
      ghost var wire := Wire(codec, p, useCompression);

      var n, written := writer.Write([packetType]);
      assert wire[..n] == [packetType][..n];
      if !written {
        return 0, false;
      }
      if IsHeartbeat(packetType) {
        return PACKET_TYPE_SIZE, true;
      }
      ghost var typed := writer.out;
      total, ok := WriteContent(p, useCompression, rate);
      ghost var content := wire[PACKET_TYPE_SIZE..];
      ghost var k :| 0 <= k <= |content| && writer.out == typed + content[..k]
                     && total <= PACKET_TYPE_SIZE + k && (ok ==> total == PACKET_TYPE_SIZE + |content|);
      assert wire[..PACKET_TYPE_SIZE + k] == [packetType] + content[..k];
    }

    /** WritePacket once the type byte of a packet that is not a heartbeat has been written. */
    method WriteContent(p: TransferPacket, useCompression: bool, rate: int) returns (total: nat, ok: bool)
      requires !IsHeartbeat(p.packetType)
      modifies writer, clock
      ensures var content := Wire(codec, p, useCompression)[PACKET_TYPE_SIZE..];
              exists k :: 0 <= k <= |content| && writer.out == old(writer.out) + content[..k]
                          && total <= PACKET_TYPE_SIZE + k && (ok ==> total == PACKET_TYPE_SIZE + |content|)
      ensures BodyFails(codec, p, useCompression) ==> !ok
      ensures old(writer.Reliable()) && clock.cancelledAt.None? ==> (ok <==> !BodyFails(codec, p, useCompression))
    {
      hide Base, IsEncrypted, IsCompressed, CarriesCommand, WireType, RawBody;
      ghost var content := Wire(codec, p, useCompression)[PACKET_TYPE_SIZE..];
      assert content[..0] == [];
      total := PACKET_TYPE_SIZE;
      var raw := RawBody(codec, p);
      if raw.None? {
        return total, false;
      }
      if raw.value == [] {
        return total, true;
      }
      var body := if useCompression then codec.compress(raw.value) else raw;
      if body.None? {
        return total, false;
      }
      var sizeField := PutUint32(|body.value|);
      assert content == sizeField + body.value;
      total, ok := WriteBody(sizeField, body.value, rate);
    }

    /** The size field and the body of a packet whose type byte has been written. */
    method WriteBody(sizeField: seq<byte>, body: seq<byte>, rate: int) returns (total: nat, ok: bool)
      requires |sizeField| == PACKET_BODY_SIZE_BYTES
      modifies writer, clock
      ensures var rest := sizeField + body;
              exists k :: 0 <= k <= |rest| && writer.out == old(writer.out) + rest[..k]
                          && total <= PACKET_TYPE_SIZE + k && (ok ==> total == PACKET_TYPE_SIZE + |rest|)
      ensures old(writer.Reliable()) && clock.cancelledAt.None? ==> ok
    {
      ghost var rest := sizeField + body;
      total := PACKET_TYPE_SIZE;
      var n, written := writer.Write(sizeField);
      assert rest[..n] == sizeField[..n];
      if !written {
        return total, false;
      }
      total := total + PACKET_BODY_SIZE_BYTES;
      ghost var before := writer.out;
      ghost var k: nat;
      if rate > 0 {
        ok := WriteRateLimitedData(body, rate);
        k :| 0 <= k <= |body| && writer.out == before + body[..k] && (ok ==> k == |body|);
      } else {
        k, ok := writer.Write(body);
      }
      assert rest[..|sizeField| + k] == sizeField + body[..k];
      if ok {
        total := total + |body|;
      }
    }
  }
}
