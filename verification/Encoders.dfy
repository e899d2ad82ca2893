/** The encoders: they fill a caller's buffer from the front, advancing an offset. */
module Encoders {
  import opened Basics
  import opened Packets
  import opened WireFormat
  import Length = RemainingLength
  import RoundTrip
  import Utf8

  /** Exactly the bytes of `chunk` were written, at `start`; all others are untouched. */
  ghost predicate Wrote(before: Bytes, after: Bytes, start: nat, chunk: Bytes) {
    && |after| == |before|
    && start + |chunk| <= |before|
    && forall i {:trigger after[i]} :: 0 <= i < |before| ==>
         after[i] == if start <= i < start + |chunk| then chunk[i - start] else before[i]
  }

  /** Writing one chunk and another behind it is writing both. */
  lemma {:induction false} WroteBoth(b0: Bytes, b1: Bytes, b2: Bytes, start: nat, c1: Bytes, c2: Bytes)
    requires Wrote(b0, b1, start, c1) && Wrote(b1, b2, start + |c1|, c2)
    ensures Wrote(b0, b2, start, c1 + c2)
  {
  }

  lemma {:induction false} WrotePrefix(before: Bytes, after: Bytes, chunk: Bytes)
    requires Wrote(before, after, 0, chunk)
    ensures after[..|chunk|] == chunk
  {
  }

  method WriteBytes(chunk: Bytes, buffer: array<byte>, offset: nat)
    requires offset + |chunk| <= buffer.Length
    modifies buffer
    ensures Wrote(old(buffer[..]), buffer[..], offset, chunk)
  {
    forall i | 0 <= i < |chunk| {
      buffer[offset + i] := chunk[i];
    }
  }

  /** `write_variable_length` on the part of the buffer behind `start`. */
  method WriteVariableLength(value: nat, buffer: array<byte>, start: nat) returns (r: Result<nat>)
    requires start <= buffer.Length
    modifies buffer
    ensures r.Success? <==> value <= 268_435_455 && start + |Length.Encode(value)| <= buffer.Length
    ensures r.Success? ==> r.value == |Length.Encode(value)|
    ensures r.Success? ==> Wrote(old(buffer[..]), buffer[..], start, Length.Encode(value))
    ensures r.Failure? ==> r.error == if value > 268_435_455 then InvalidPacketLength else BufferTooSmall
  {
    if value > Length.MAX_LENGTH {
      return Failure(InvalidPacketLength);
    }
    var encoded := value;
    var bytesWritten := 0;
    ghost var written: Bytes := [];
    assert written + Length.Encode(encoded) == Length.Encode(value);
    while true
      invariant start + bytesWritten <= buffer.Length && |written| == bytesWritten
      invariant written + Length.Encode(encoded) == Length.Encode(value)
      invariant Wrote(old(buffer[..]), buffer[..], start, written)
      decreases encoded
    {
      if start + bytesWritten >= buffer.Length {
        return Failure(BufferTooSmall);
      }
      var b: byte := encoded % 128;
      ghost var rest := Length.Encode(encoded);
      encoded := encoded / 128;
      if encoded > 0 {
        b := b + 128;
      }
      ghost var before := buffer[..];
      buffer[start + bytesWritten] := b;
      assert Wrote(before, buffer[..], start + bytesWritten, [b]);
      WroteBoth(old(buffer[..]), before, buffer[..], start, written, [b]);
      assert rest[0] == b;
      written := written + [b];
      bytesWritten := bytesWritten + 1;
      if encoded == 0 {
        assert rest == [b];
        break;
      }
      Assoc(written[..bytesWritten - 1], [b], Length.Encode(encoded));
    }
    return Success(bytesWritten);
  }

  /** `write_string` and `write_binary`; returns the new offset. */
  method WriteField(s: Bytes, buffer: array<byte>, offset: nat) returns (r: Result<nat>)
    modifies buffer
    ensures r == if offset + |Field(s)| <= buffer.Length then Success(offset + |Field(s)|) else Failure(BufferTooSmall)
    ensures r.Success? ==> Wrote(old(buffer[..]), buffer[..], offset, Field(s))
  {
    if offset + 2 + |s| > buffer.Length {
      return Failure(BufferTooSmall);
    }
    WriteBytes(U16(|s| % 0x1_0000), buffer, offset);
    ghost var between := buffer[..];
    WriteBytes(s, buffer, offset + 2);
    WroteBoth(old(buffer[..]), between, buffer[..], offset, U16(|s| % 0x1_0000), s);
    return Success(offset + 2 + |s|);
  }

  /** The first byte and the Remaining Length, as all encoders of variable size begin. */
  method WriteHeader(first: byte, remainingLength: nat, buffer: array<byte>) returns (r: Result<nat>)
    requires remainingLength <= Length.MAX_LENGTH
    modifies buffer
    ensures var header := [first] + Length.Encode(remainingLength);
            && r == (if |header| <= buffer.Length then Success(|header|) else Failure(BufferTooSmall))
            && (r.Success? ==> Wrote(old(buffer[..]), buffer[..], 0, header))
  {
    if buffer.Length == 0 {
      return Failure(BufferTooSmall);
    }
    buffer[0] := first;
    ghost var between := buffer[..];
    assert Wrote(old(buffer[..]), between, 0, [first]);
    var size := WriteVariableLength(remainingLength, buffer, 1);
    if size.Failure? {
      return Failure(size.error);
    }
    WroteBoth(old(buffer[..]), between, buffer[..], 0, [first], Length.Encode(remainingLength));
    return Success(1 + size.value);
  }

  /** The result of encoding into a buffer of this size. CONNECT is written without
      checks in three places, where a short buffer makes the code panic. */
  function EncodeOutcome(p: Packet, size: nat): Result<nat> {
    var header := |WireHeader(p)|;
    if p.Connect? && (size == 0 || header + 6 <= size < header + 10) then Failure(OutOfBounds)
    else if LacksId(p) then
      Failure(if header + |Field(Utf8.AsStr(p.publish.topic))| + 2 <= size then MissingPacketId else BufferTooSmall)
    else if |Wire(p)| <= size then Success(|Wire(p)|)
    else Failure(BufferTooSmall)
  }

  /** What every encoder promises. */
  ghost predicate Encoded(p: Packet, before: Bytes, after: Bytes, r: Result<nat>) {
    && |before| == |after|
    && r == EncodeOutcome(p, |before|)
    && (r.Success? ==> Wrote(before, after, 0, Wire(p)))
  }

  method EncodePublish(p: PublishPacket, buffer: array<byte>) returns (r: Result<nat>)
    requires |p.topic| <= 0xFF && |p.payload| <= 0xFFFF
    modifies buffer
    ensures Encoded(Publish(p), old(buffer[..]), buffer[..], r)
  {
    var remainingLength := 2 + |p.topic|;
    if p.qos != AtMostOnce {
      remainingLength := remainingLength + 2;
    }
    remainingLength := remainingLength + |p.payload|;
    ghost var b0 := buffer[..];
    var at :- WriteHeader(FirstByte(Publish(p)), remainingLength, buffer);
    ghost var b1 := buffer[..];
    var shown := p.(topic := Utf8.AsStr(p.topic));
    r := WritePublishBody(shown, buffer, at);
    if r.Success? {
      WroteBoth(b0, b1, buffer[..], 0, WireHeader(Publish(p)), PublishBody(shown));
    }
  }

  method WritePublishBody(p: PublishPacket, buffer: array<byte>, offset: nat) returns (r: Result<nat>)
    modifies buffer
    ensures r == if LacksId(Publish(p))
                 then Failure(if offset + |Field(p.topic)| + 2 <= buffer.Length then MissingPacketId else BufferTooSmall)
                 else if offset + |PublishBody(p)| <= buffer.Length
                 then Success(offset + |PublishBody(p)|) else Failure(BufferTooSmall)
    ensures r.Success? ==> Wrote(old(buffer[..]), buffer[..], offset, PublishBody(p))
  {
    ghost var b0 := buffer[..];
    var at :- WriteField(p.topic, buffer, offset);
    ghost var b1, start := buffer[..], at;
    if p.qos != AtMostOnce {
      if at + 2 > buffer.Length {
        return Failure(BufferTooSmall);
      }
      if p.packetId.None? {
        return Failure(MissingPacketId);
      }
      WriteBytes(U16(p.packetId.value), buffer, at);
      at := at + 2;
    }
    ghost var b2 := buffer[..];
    assert Wrote(b1, b2, start, PublishId(p));
    if at + |p.payload| > buffer.Length {
      return Failure(BufferTooSmall);
    }
    WriteBytes(p.payload, buffer, at);
    WroteBoth(b1, b2, buffer[..], start, PublishId(p), p.payload);
    WroteBoth(b0, b1, buffer[..], offset, Field(p.topic), PublishId(p) + p.payload);
    return Success(at + |p.payload|);
  }

  /** The result for these two kinds, by the sizes of header and body. */
  lemma {:induction false} FilterOutcome(p: Packet, body: Bytes, size: nat)
    requires (p.Subscribe? || p.Unsubscribe?) && Body(Shown(p)) == body
    ensures Wire(p) == WireHeader(p) + body
    ensures var total := |WireHeader(p)| + |body|;
            EncodeOutcome(p, size) == if total <= size then Success(total) else Failure(BufferTooSmall)
  {
  }

  method EncodeSubscribe(id: u16, filter: Bytes, qos: QoS, buffer: array<byte>) returns (r: Result<nat>)
    requires |filter| <= 0xFF
    modifies buffer
    ensures Encoded(Subscribe(id, filter, qos), old(buffer[..]), buffer[..], r)
  {
    ghost var p, b0 := Subscribe(id, filter, qos), buffer[..];
    ghost var body := U16(id) + (Field(Utf8.AsStr(filter)) + [QosByte(qos)]);
    FilterOutcome(p, body, buffer.Length);
    var at :- WriteHeader(FirstByte(Subscribe(id, filter, qos)), 2 + 2 + |filter| + 1, buffer);
    ghost var b1 := buffer[..];
    r := WriteSubscribeBody(id, Utf8.AsStr(filter), qos, buffer, at);
    if r.Success? {
      WroteBoth(b0, b1, buffer[..], 0, WireHeader(p), body);
    }
  }

  method WriteSubscribeBody(id: u16, filter: Bytes, qos: QoS, buffer: array<byte>, offset: nat) returns (r: Result<nat>)
    modifies buffer
    ensures var body := U16(id) + (Field(filter) + [QosByte(qos)]);
            && r == (if offset + |body| <= buffer.Length then Success(offset + |body|) else Failure(BufferTooSmall))
            && (r.Success? ==> Wrote(old(buffer[..]), buffer[..], offset, body))
  {
    ghost var b0 := buffer[..];
    if offset + 2 > buffer.Length {
      return Failure(BufferTooSmall);
    }
    WriteBytes(U16(id), buffer, offset);
    ghost var b1 := buffer[..];
    var at :- WriteField(filter, buffer, offset + 2);
    ghost var b2 := buffer[..];
    if at >= buffer.Length {
      return Failure(BufferTooSmall);
    }
    WriteBytes([QosByte(qos)], buffer, at);
    WroteBoth(b1, b2, buffer[..], offset + 2, Field(filter), [QosByte(qos)]);
    WroteBoth(b0, b1, buffer[..], offset, U16(id), Field(filter) + [QosByte(qos)]);
    return Success(at + 1);
  }

  method EncodeUnsubscribe(id: u16, filter: Bytes, buffer: array<byte>) returns (r: Result<nat>)
    requires |filter| <= 0xFF
    modifies buffer
    ensures Encoded(Unsubscribe(id, filter), old(buffer[..]), buffer[..], r)
  {
    ghost var p, b0 := Unsubscribe(id, filter), buffer[..];
    ghost var body := U16(id) + Field(Utf8.AsStr(filter));
    FilterOutcome(p, body, buffer.Length);
    var at :- WriteHeader(FirstByte(Unsubscribe(id, filter)), 2 + 2 + |filter|, buffer);
    ghost var b1 := buffer[..];
    r := WriteUnsubscribeBody(id, Utf8.AsStr(filter), buffer, at);
    if r.Success? {
      WroteBoth(b0, b1, buffer[..], 0, WireHeader(p), body);
    }
  }

  method WriteUnsubscribeBody(id: u16, filter: Bytes, buffer: array<byte>, offset: nat) returns (r: Result<nat>)
    modifies buffer
    ensures var body := U16(id) + Field(filter);
            && r == (if offset + |body| <= buffer.Length then Success(offset + |body|) else Failure(BufferTooSmall))
            && (r.Success? ==> Wrote(old(buffer[..]), buffer[..], offset, body))
  {
    ghost var b0 := buffer[..];
    if offset + 2 > buffer.Length {
      return Failure(BufferTooSmall);
    }
    WriteBytes(U16(id), buffer, offset);
    ghost var b1 := buffer[..];
    r := WriteField(filter, buffer, offset + 2);
    if r.Success? {
      WroteBoth(b0, b1, buffer[..], offset, U16(id), Field(filter));
    }
  }

  method EncodeConnect(c: ConnectPacket, buffer: array<byte>) returns (r: Result<nat>)
    requires |c.clientId| <= MAX_CLIENT_ID_LENGTH
    requires c.willTopic.Some? ==> |c.willTopic.value| <= 0xFF
    requires c.willPayload.Some? ==> |c.willPayload.value| <= 0xFFFF
    requires c.username.Some? ==> |c.username.value| <= 0xFF
    requires c.password.Some? ==> |c.password.value| <= 0xFF
    modifies buffer
    ensures Encoded(Connect(c), old(buffer[..]), buffer[..], r)
  {
    ghost var b0, header := buffer[..], WireHeader(Connect(c));
    var remainingLength := ConnectLength(c);
    var shown := Shown(Connect(c)).connect;
    ConnectOutcome(c, shown, buffer.Length);
    if buffer.Length == 0 {
      return Failure(OutOfBounds);
    }
    var at :- WriteHeader(FirstByte(Connect(c)), remainingLength, buffer);
    ghost var b1 := buffer[..];
    r := WriteConnectBody(shown, buffer, at);
    if r.Success? {
      WroteBoth(b0, b1, buffer[..], 0, header, ConnectBody(shown));
    }
  }

  /** The result for CONNECT, by the sizes of header and body. */
  lemma {:induction false} ConnectOutcome(c: ConnectPacket, shown: ConnectPacket, size: nat)
    requires Shown(Connect(c)) == Connect(shown)
    ensures Wire(Connect(c)) == WireHeader(Connect(c)) + ConnectBody(shown)
    ensures var h := |WireHeader(Connect(c))|;
            EncodeOutcome(Connect(c), size) ==
            if size == 0 || h + 6 <= size < h + 10 then Failure(OutOfBounds)
            else if h + |ConnectBody(shown)| <= size then Success(h + |ConnectBody(shown)|)
            else Failure(BufferTooSmall)
  {
  }

  /** The sum that `encode` computes in front of writing: the will topic counts with what
      it shows, the other strings with what they store. */
  method ConnectLength(c: ConnectPacket) returns (remainingLength: nat)
    requires |c.clientId| <= MAX_CLIENT_ID_LENGTH
    requires c.willTopic.Some? ==> |c.willTopic.value| <= 0xFF
    requires c.willPayload.Some? ==> |c.willPayload.value| <= 0xFFFF
    requires c.username.Some? ==> |c.username.value| <= 0xFF
    requires c.password.Some? ==> |c.password.value| <= 0xFF
    ensures remainingLength == Announced(Connect(c)) <= Length.MAX_LENGTH
  {
    remainingLength := 2 + |MQTT| + 1 + 1 + 2 + (2 + |c.clientId|);
    if c.willTopic.Some? {
      remainingLength := remainingLength + 2 + |Utf8.AsStr(c.willTopic.value)|;
    }
    if c.willPayload.Some? {
      remainingLength := remainingLength + 2 + |c.willPayload.value|;
    }
    if c.username.Some? {
      remainingLength := remainingLength + 2 + |c.username.value|;
    }
    if c.password.Some? {
      remainingLength := remainingLength + 2 + |c.password.value|;
    }
  }

  method WriteConnectBody(c: ConnectPacket, buffer: array<byte>, offset: nat) returns (r: Result<nat>)
    requires offset <= buffer.Length
    modifies buffer
    ensures r == if offset + 6 <= buffer.Length < offset + 10 then Failure(OutOfBounds)
                 else if offset + |ConnectBody(c)| <= buffer.Length then Success(offset + |ConnectBody(c)|)
                 else Failure(BufferTooSmall)
    ensures r.Success? ==> Wrote(old(buffer[..]), buffer[..], offset, ConnectBody(c))
  {
    ghost var b0 := buffer[..];
    ghost var fixed := [PROTOCOL_LEVEL, c.flags] + U16(c.keepAlive);
    ghost var tail := Field(c.clientId) + ConnectTail(c);
    Assoc(Field(MQTT), fixed, tail);
    assert |ConnectBody(c)| == |Field(MQTT)| + |fixed| + |tail|;
    var at :- WriteConnectFixed(c, buffer, offset);
    ghost var b1 := buffer[..];
    r := WriteConnectVariable(c, buffer, at);
    if r.Success? {
      WroteBoth(b0, b1, buffer[..], offset, Field(MQTT) + fixed, tail);
    }
  }

  /** Protocol name and level, flags and keep-alive; only the name is checked to fit. */
  method WriteConnectFixed(c: ConnectPacket, buffer: array<byte>, offset: nat) returns (r: Result<nat>)
    modifies buffer
    ensures r == if offset + 10 <= buffer.Length then Success(offset + 10)
                 else if offset + 6 <= buffer.Length then Failure(OutOfBounds)
                 else Failure(BufferTooSmall)
    ensures r.Success? ==> Wrote(old(buffer[..]), buffer[..], offset,
                                 Field(MQTT) + ([PROTOCOL_LEVEL, c.flags] + U16(c.keepAlive)))
  {
    ghost var b0 := buffer[..];
    var fixed := [PROTOCOL_LEVEL, c.flags] + U16(c.keepAlive);
    var at :- WriteField(MQTT, buffer, offset);
    ghost var b1 := buffer[..];
    if at + 4 > buffer.Length {
      return Failure(OutOfBounds);
    }
    WriteBytes(fixed, buffer, at);
    WroteBoth(b0, b1, buffer[..], offset, Field(MQTT), fixed);
    return Success(at + 4);
  }

  /** The client identifier and the optional fields. */
  method WriteConnectVariable(c: ConnectPacket, buffer: array<byte>, offset: nat) returns (r: Result<nat>)
    requires offset <= buffer.Length
    modifies buffer
    ensures var chunk := Field(c.clientId) + ConnectTail(c);
            && r == (if offset + |chunk| <= buffer.Length then Success(offset + |chunk|) else Failure(BufferTooSmall))
            && (r.Success? ==> Wrote(old(buffer[..]), buffer[..], offset, chunk))
  {
    ghost var b0 := buffer[..];
    var at :- WriteField(c.clientId, buffer, offset);
    ghost var b1 := buffer[..];
    r := WriteOptionals(c, buffer, at,
                        OptionalField(c.willTopic), OptionalField(c.willPayload),
                        OptionalField(c.username), OptionalField(c.password));
    if r.Success? {
      WroteBoth(b0, b1, buffer[..], offset, Field(c.clientId), ConnectTail(c));
    }
  }

  /** The four optional fields. */
  method WriteOptionals(
      c: ConnectPacket, buffer: array<byte>, offset: nat, ghost c1: Bytes, ghost c2: Bytes, ghost c3: Bytes, ghost c4: Bytes)
    returns (r: Result<nat>)
    requires c1 == OptionalField(c.willTopic) && c2 == OptionalField(c.willPayload)
    requires c3 == OptionalField(c.username) && c4 == OptionalField(c.password)
    requires offset <= buffer.Length
    modifies buffer
    ensures var end := offset + |c1| + |c2| + |c3| + |c4|;
            r == if end <= buffer.Length then Success(end) else Failure(BufferTooSmall)
    ensures r.Success? ==> Wrote(old(buffer[..]), buffer[..], offset, c1 + (c2 + (c3 + c4)))
  {
    ghost var b0 := buffer[..];
    var at :- WriteOptional(c.willTopic, buffer, offset, c1);
    ghost var b1 := buffer[..];
    at :- WriteOptional(c.willPayload, buffer, at, c2);
    ghost var b2 := buffer[..];
    at :- WriteOptional(c.username, buffer, at, c3);
    ghost var b3 := buffer[..];
    at :- WriteOptional(c.password, buffer, at, c4);
    WroteFour(b0, b1, b2, b3, buffer[..], offset, c1, c2, c3, c4);
    return Success(at);
  }

  lemma {:induction false} WroteFour(
      b0: Bytes, b1: Bytes, b2: Bytes, b3: Bytes, b4: Bytes, start: nat, c1: Bytes, c2: Bytes, c3: Bytes, c4: Bytes)
    requires Wrote(b0, b1, start, c1) && Wrote(b1, b2, start + |c1|, c2)
    requires Wrote(b2, b3, start + |c1| + |c2|, c3) && Wrote(b3, b4, start + |c1| + |c2| + |c3|, c4)
    ensures Wrote(b0, b4, start, c1 + (c2 + (c3 + c4)))
  {
    WroteBoth(b2, b3, b4, start + |c1| + |c2|, c3, c4);
    WroteBoth(b1, b2, b4, start + |c1|, c2, c3 + c4);
    WroteBoth(b0, b1, b4, start, c1, c2 + (c3 + c4));
  }

  /** Writes a field when it is present; `chunk` is what that amounts to. */
  method WriteOptional(o: Option<Bytes>, buffer: array<byte>, offset: nat, ghost chunk: Bytes) returns (r: Result<nat>)
    requires chunk == OptionalField(o) && offset <= buffer.Length
    modifies buffer
    ensures r == if offset + |chunk| <= buffer.Length then Success(offset + |chunk|) else Failure(BufferTooSmall)
    ensures r.Success? ==> Wrote(old(buffer[..]), buffer[..], offset, chunk)
  {
    if o.None? {
      return Success(offset);
    }
    r := WriteField(o.value, buffer, offset);
  }

  /** All kinds whose size is fixed: the length is one byte, then at most three more. */
  method EncodeSmall(p: Packet, buffer: array<byte>) returns (r: Result<nat>)
    requires !p.Connect? && !p.Publish? && !p.Subscribe? && !p.Unsubscribe?
    modifies buffer
    ensures Encoded(p, old(buffer[..]), buffer[..], r)
  {
    var body := Body(p);
    assert Length.Encode(|body|) == [|body|];
    assert Wire(p) == [FirstByte(p), |body|] + body;
    if buffer.Length < 2 + |body| {
      return Failure(BufferTooSmall);
    }
    WriteBytes([FirstByte(p), |body|] + body, buffer, 0);
    return Success(2 + |body|);
  }

  /** `Packet::encode`, for every packet value and every buffer: the exact result, the
      bytes written, and no change behind them. */
  method Encode(build: Build, p: Packet, buffer: array<byte>) returns (r: Result<nat>)
    requires build.Ok() && Storable(build, p)
    modifies buffer
    ensures Encoded(p, old(buffer[..]), buffer[..], r)
  {
    match p
    case Connect(c) => r := EncodeConnect(c, buffer);
    case Publish(q) => r := EncodePublish(q, buffer);
    case Subscribe(id, filter, qos) => r := EncodeSubscribe(id, filter, qos, buffer);
    case Unsubscribe(id, filter) => r := EncodeUnsubscribe(id, filter, buffer);
    case _ => r := EncodeSmall(p, buffer);
  }

  // ---------- the result in numbers ----------

  /** PUBLISH above QoS 0 without identifier: which of the two errors. */
  lemma {:induction false} MissingIdInNumbers(q: PublishPacket, size: nat)
    requires q.qos != AtMostOnce && q.packetId.None? && |q.topic| <= 0xFF && |q.payload| <= 0xFFFF
    ensures var n := 4 + |q.topic| + |q.payload|;
            var needed := 1 + Length.Size(n) + 2 + (if Utf8.Valid(q.topic) then |q.topic| else 0) + 2;
            EncodeOutcome(Publish(q), size) == Failure(if needed <= size then MissingPacketId else BufferTooSmall)
  {
    Length.EncodeSize(4 + |q.topic| + |q.payload|);
  }

  function SizeOf(o: Option<Bytes>): nat {
    if o.None? then 0 else 2 + |o.value|
  }

  /** CONNECT: how long its header is, and on which buffers the code panics. */
  lemma {:induction false} ConnectInNumbers(build: Build, c: ConnectPacket, size: nat)
    requires build.Ok() && Storable(build, Connect(c))
    ensures var n := 12 + |c.clientId| + SizeOf(ShownOption(c.willTopic)) + SizeOf(c.willPayload)
                     + SizeOf(c.username) + SizeOf(c.password);
            && Announced(Connect(c)) == n
            && (EncodeOutcome(Connect(c), size) == Failure(OutOfBounds) <==>
                  size == 0 || 7 + Length.Size(n) <= size <= 10 + Length.Size(n))
  {
    var n := Announced(Connect(c));
    AnnouncedConnect(c);
    StorableFits(build, Connect(c));
    ShownConnectSize(c);
    Length.EncodeSize(n);
    ConnectOutcome(c, Shown(Connect(c)).connect, size);
  }

  lemma {:induction false} AnnouncedConnect(c: ConnectPacket)
    ensures Announced(Connect(c)) ==
            12 + |c.clientId| + SizeOf(ShownOption(c.willTopic)) + SizeOf(c.willPayload)
            + SizeOf(c.username) + SizeOf(c.password)
  {
  }

  // ---------- when the written bytes are the packet's frame ----------

  /** Every string field is UTF-8. */
  predicate StringsAreText(p: Packet) {
    match p
    case Connect(c) => SizedStringsAreText(p) && (c.willTopic.Some? ==> Utf8.Valid(c.willTopic.value))
    case _ => SizedStringsAreText(p)
  }

  /** Every string field whose stored length goes into the Remaining Length is UTF-8. */
  predicate SizedStringsAreText(p: Packet) {
    match p
    case Connect(c) => Utf8.Valid(c.clientId) && (c.username.Some? ==> Utf8.Valid(c.username.value))
    case Publish(q) => Utf8.Valid(q.topic)
    case Subscribe(_, filter, _) => Utf8.Valid(filter)
    case Unsubscribe(_, filter) => Utf8.Valid(filter)
    case _ => true
  }

  lemma {:induction false} ShownConnectSize(c: ConnectPacket)
    ensures |Body(Shown(Connect(c)))| <= Announced(Connect(c)) <= |Body(Connect(c))|
    ensures |Body(Shown(Connect(c)))| == Announced(Connect(c)) <==> SizedStringsAreText(Connect(c))
    ensures |Body(Shown(Connect(c)))| == |Body(Connect(c))| <==> StringsAreText(Connect(c))
  {
    assert Utf8.Valid([]);
  }

  /** What is written is no longer than announced, and shorter exactly when a string
      whose stored length was announced shows as nothing. */
  lemma {:induction false} ShownSize(p: Packet)
    requires !LacksId(p)
    ensures |Body(Shown(p))| <= Announced(p) <= |Body(p)|
    ensures |Body(Shown(p))| == Announced(p) <==> SizedStringsAreText(p)
    ensures |Body(Shown(p))| == |Body(p)| <==> StringsAreText(p)
  {
    assert Utf8.Valid([]);
    if p.Connect? {
      ShownConnectSize(p.connect);
    }
  }

  lemma {:induction false} StorableFits(build: Build, p: Packet)
    requires build.Ok() && Storable(build, p)
    ensures |Body(p)| <= Length.MAX_LENGTH
  {
  }

  lemma {:induction false} LengthSizeMonotone(m: nat, n: nat)
    requires m <= n <= Length.MAX_LENGTH
    ensures |Length.Encode(m)| <= |Length.Encode(n)|
  {
    Length.EncodeSize(m);
    Length.EncodeSize(n);
  }

  /** A successful encoder writes the packet's frame if and only if every string field is
      UTF-8. */
  lemma {:induction false} WireIsFrameIff(build: Build, p: Packet)
    requires build.Ok() && Storable(build, p) && !LacksId(p)
    ensures Wire(p) == Frame(p) <==> StringsAreText(p)
    ensures |Wire(p)| <= |Frame(p)|
  {
    ShownSize(p);
    StorableFits(build, p);
    LengthSizeMonotone(Announced(p), |Body(p)|);
    if StringsAreText(p) {
      assert Shown(p) == p;
    }
  }

  /** A first byte, a length and a body make an exact frame if and only if the length is
      that of the body. */
  lemma {:induction false} LengthFramesIff(first: byte, n: nat, body: Bytes)
    requires n <= Length.MAX_LENGTH
    ensures Framed([first] + Length.Encode(n) + body) <==> n == |body|
  {
    var e := Length.Encode(n);
    Length.WriteThenRead(n, body);
    assert ([first] + e + body)[1..] == e + body;
  }

  /** What is written is a frame of its own announced length if and only if every string
      but the will topic is UTF-8. */
  lemma {:induction false} WireIsFramedIff(build: Build, p: Packet)
    requires build.Ok() && Storable(build, p) && !LacksId(p)
    ensures Framed(Wire(p)) <==> SizedStringsAreText(p)
  {
    ShownSize(p);
    StorableFits(build, p);
    LengthFramesIff(FirstByte(p), Announced(p), Body(Shown(p)));
  }

  /** Well-formed packets, so all that were decoded, have only such strings. */
  lemma {:induction false} WellFormedWire(build: Build, p: Packet)
    requires build.Ok() && PacketOk(build, p)
    ensures Storable(build, p) && !LacksId(p) && Wire(p) == Frame(p)
  {
    WireIsFrameIff(build, p);
  }

  /** Whatever an encoder has written decodes to the packet it was given: from the bytes
      that it counts, and from the whole buffer with what stood behind them. */
  lemma {:induction false} WrittenDecodes(build: Build, p: Packet, before: Bytes, after: Bytes, r: Result<nat>)
    requires build.Ok() && PacketOk(build, p) && Encoded(p, before, after, r) && r.Success?
    ensures r.value <= |after| && Decode(build, after[..r.value]) == Success(p) == Decode(build, after)
  {
    WellFormedWire(build, p);
    WroteInFront(before, after, Frame(p), r.value);
    RoundTrip.FrameRoundTrip(build, p, []);
    RoundTrip.FrameRoundTrip(build, p, after[r.value..]);
  }

  lemma {:induction false} WroteInFront(before: Bytes, after: Bytes, chunk: Bytes, n: nat)
    requires Wrote(before, after, 0, chunk) && n == |chunk|
    ensures n <= |after| && after[..n] == chunk + [] && after == chunk + after[n..]
  {
  }

  /** The smallest case: one byte of a character that was cut when it was stored. Four
      bytes are written that announce five. */
  lemma {:induction false} CutTopicIsMisframed(build: Build)
    requires build.Ok() && build.topic >= 1
    ensures var p := Publish(PublishPacket([0xC3], None, [], AtMostOnce, false, false));
            && Storable(build, p)
            && Wire(p) == [0x30, 3, 0, 0] && Frame(p) == [0x30, 3, 0, 1, 0xC3]
            && !Framed(Wire(p))
  {
    var p := Publish(PublishPacket([0xC3], None, [], AtMostOnce, false, false));
    WireIsFramedIff(build, p);
    assert Body(Shown(p)) == [0, 0] && Body(p) == [0, 1, 0xC3];
  }

  /** The size of the buffer that the server encodes outgoing packets in. */
  function FrameBuffer(build: Build): nat {
    5 + build.payload + build.topic
  }

  /** `encode_frame`: the written bytes, or an error when the server's buffer is too small. */
  method EncodeFrame(build: Build, p: Packet) returns (r: Result<Bytes>)
    requires build.Ok() && Storable(build, p)
    ensures match EncodeOutcome(p, FrameBuffer(build))
            case Failure(e) => r == Failure(e)
            case Success(_) => r == Success(Wire(p))
    ensures PacketOk(build, p) && !p.Connect? ==>
              r == if |Frame(p)| <= FrameBuffer(build) then Success(Frame(p)) else Failure(BufferTooSmall)
  {
    var buffer := new byte[FrameBuffer(build)](_ => 0);
    ghost var before := buffer[..];
    if PacketOk(build, p) {
      WellFormedWire(build, p);
    }
    var size :- Encode(build, p, buffer);
    WrotePrefix(before, buffer[..], Wire(p));
    assert buffer[..size] == buffer[..][..size];
    return Success(buffer[..size]);
  }

  /** Exactly the PUBLISH packets that fit: the length field beyond two bytes and the
      packet identifier have to come out of unused topic or payload capacity. */
  lemma {:induction false} PublishFits(build: Build, p: PublishPacket)
    requires build.Ok() && PublishOk(build, p)
    ensures |Frame(Publish(p))| <= FrameBuffer(build) <==>
            Length.Size(|PublishBody(p)|) - 2 + (if p.qos == AtMostOnce then 0 else 2)
            <= build.topic - |p.topic| + build.payload - |p.payload|
  {
    Length.EncodeSize(|PublishBody(p)|);
  }

  /** So whatever the capacities, some well-formed PUBLISH cannot be sent. */
  lemma {:induction false} SomePublishDoesNotFit(build: Build) returns (p: PublishPacket)
    requires build.Ok() && build.topic > 0
    ensures PublishOk(build, p) && |Frame(Publish(p))| > FrameBuffer(build)
  {
    p := PublishPacket(seq(build.topic, _ => 120), Some(1), seq(build.payload, _ => 0), AtLeastOnce, false, false);
    Utf8.AsciiIsText(p.topic);
    PublishFits(build, p);
  }
}
