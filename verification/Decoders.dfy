/** The decoders: they walk over a received frame, advancing an offset, and are proved
    to compute what the wire format says the frame means. */
module Decoders {
  import opened Basics
  import opened Packets
  import opened WireFormat
  import Length = RemainingLength
  import Framing
  import Utf8

  /** Reading at an offset agrees with taking from the front of what is left. */
  ghost predicate Agrees<T>(spec: Result<(T, Bytes)>, bytes: Bytes, r: Result<T>, next: nat) {
    match spec
    case Failure(e) => r == Failure(e)
    case Success((v, rest)) => r == Success(v) && next <= |bytes| && rest == bytes[next..]
  }

  /** `read_binary` */
  method ReadBinary(bytes: Bytes, offset: nat) returns (r: Result<Bytes>, next: nat)
    requires offset <= |bytes|
    ensures Agrees(TakeField(bytes[offset..]), bytes, r, next)
  {
    next := offset;
    if offset + 2 > |bytes| {
      return Failure(IncompletePacket), next;
    }
    var len := ReadU16(bytes[offset..]);
    next := offset + 2;
    if next + len > |bytes| {
      return Failure(IncompletePacket), next;
    }
    assert bytes[offset..][2..2 + len] == bytes[next..next + len];
    return Success(bytes[next..next + len]), next + len;
  }

  /** `read_string` */
  method ReadString(bytes: Bytes, offset: nat) returns (r: Result<Bytes>, next: nat)
    requires offset <= |bytes|
    ensures Agrees(TakeString(bytes[offset..]), bytes, r, next)
  {
    r, next := ReadBinary(bytes, offset);
    if r.Success? && !Utf8.Valid(r.value) {
      r := Failure(InvalidUtf8String);
    }
  }

  /** A string that is stored as a topic name. */
  method ReadTopic(build: Build, bytes: Bytes, offset: nat) returns (r: Result<Bytes>, next: nat)
    requires offset <= |bytes|
    ensures Agrees(TakeTopic(build, bytes[offset..]), bytes, r, next)
  {
    r, next := ReadString(bytes, offset);
    if r.Success? {
      if r.value == [] {
        r := Failure(TopicEmpty);
      } else if |r.value| > build.topic {
        r := Failure(TopicNameLengthExceeded);
      }
    }
  }

  method ReadPacketId(bytes: Bytes, offset: nat) returns (r: Result<u16>, next: nat)
    requires offset <= |bytes|
    ensures Agrees(TakePacketId(bytes[offset..]), bytes, r, next)
  {
    next := offset;
    if offset + 2 > |bytes| {
      return Failure(IncompletePacket), next;
    }
    var id := ReadU16(bytes[offset..]);
    if id == 0 {
      return Failure(MissingPacketId), next;
    }
    return Success(id), offset + 2;
  }

  /** `read_variable_length` behind the first byte; `next` is where the body starts. */
  method ReadLength(bytes: Bytes) returns (r: Result<nat>, next: nat)
    requires bytes != []
    ensures Agrees(TakeLength(bytes[1..]), bytes, r, next)
  {
    next := 1;
    var length := Length.ReadVariableLength(bytes[1..]);
    if length.Incomplete? {
      return Failure(IncompletePacket), next;
    }
    if length.Malformed? {
      return Failure(InvalidPacketLength), next;
    }
    next := 1 + length.size;
    assert bytes[1..][length.size..] == bytes[next..];
    return Success(length.value), next;
  }

  /** The type check in front of every decoder of variable size, on an empty slice too. */
  function Expecting(kind: byte, build: Build, bytes: Bytes): Result<Packet>
    requires kind in {1, 3, 8, 10}
  {
    if bytes == [] then Failure(if kind == 1 then OutOfBounds else IncompletePacket)
    else if bytes[0] / 16 != kind then Failure(InvalidPacketType)
    else DecodeVariable(build, bytes)
  }

  method ReadPublishHead(build: Build, qos: QoS, bytes: Bytes, start: nat)
    returns (r: Result<PublishHead>, next: nat)
    requires start <= |bytes|
    ensures Agrees(TakePublishHead(build, qos, bytes[start..]), bytes, r, next)
  {
    var topic;
    topic, next := ReadTopic(build, bytes, start);
    if topic.Failure? {
      return Failure(topic.error), next;
    }
    var packetId: Option<u16> := None;
    if qos != AtMostOnce {
      var id;
      id, next := ReadPacketId(bytes, next);
      if id.Failure? {
        return Failure(id.error), next;
      }
      packetId := Some(id.value);
    }
    return Success(PublishHead(topic.value, packetId)), next;
  }

  method DecodePublishPacket(build: Build, bytes: Bytes) returns (r: Result<Packet>)
    ensures r == Expecting(3, build, bytes)
  {
    if bytes == [] {
      return Failure(IncompletePacket);
    }
    var first := bytes[0];
    if first / 16 != 3 {
      return Failure(InvalidPacketType);
    }
    var qos :- QosOf(first / 2 % 4);
    var length, start := ReadLength(bytes);
    if length.Failure? {
      return Failure(length.error);
    }
    var head, offset := ReadPublishHead(build, qos, bytes, start);
    if head.Failure? {
      return Failure(head.error);
    }
    var payloadEnd := start + length.value;
    if payloadEnd > |bytes| {
      return Failure(IncompletePacket);
    }
    if offset > payloadEnd {
      return Failure(OutOfBounds);
    }
    var payload := bytes[offset..payloadEnd];
    assert payload == bytes[offset..][..payloadEnd - offset];
    if |payload| > build.payload {
      return Failure(PayloadTooLarge);
    }
    return Success(Publish(PublishPacket(
      head.value.topic, head.value.packetId, payload, qos, first / 8 % 2 == 1, first % 2 == 1)));
  }

  method DecodeSubscribePacket(build: Build, bytes: Bytes) returns (r: Result<Packet>)
    ensures r == Expecting(8, build, bytes)
  {
    if bytes == [] {
      return Failure(IncompletePacket);
    }
    if bytes[0] / 16 != 8 {
      return Failure(InvalidPacketType);
    }
    var length, start := ReadLength(bytes);
    if length.Failure? {
      return Failure(length.error);
    }
    var id, offset := ReadPacketId(bytes, start);
    if id.Failure? {
      return Failure(id.error);
    }
    var filter;
    filter, offset := ReadTopic(build, bytes, offset);
    if filter.Failure? {
      return Failure(filter.error);
    }
    if offset + 1 > |bytes| {
      return Failure(IncompletePacket);
    }
    var qos :- QosOf(bytes[offset]);
    offset := offset + 1;
    if offset - start != length.value {
      return Failure(InvalidPacketLength);
    }
    return Success(Subscribe(id.value, filter.value, qos));
  }

  method DecodeUnsubscribePacket(build: Build, bytes: Bytes) returns (r: Result<Packet>)
    ensures r == Expecting(10, build, bytes)
  {
    if bytes == [] {
      return Failure(IncompletePacket);
    }
    if bytes[0] / 16 != 10 {
      return Failure(InvalidPacketType);
    }
    var length, start := ReadLength(bytes);
    if length.Failure? {
      return Failure(length.error);
    }
    var id, offset := ReadPacketId(bytes, start);
    if id.Failure? {
      return Failure(id.error);
    }
    var filter;
    filter, offset := ReadTopic(build, bytes, offset);
    if filter.Failure? {
      return Failure(filter.error);
    }
    if offset - start != length.value {
      return Failure(InvalidPacketLength);
    }
    return Success(Unsubscribe(id.value, filter.value));
  }

  /** The part of CONNECT that is always there. */
  method ReadConnectHead(bytes: Bytes, start: nat) returns (r: Result<ConnectHead>, next: nat)
    requires start <= |bytes|
    ensures Agrees(TakeConnectHead(bytes[start..]), bytes, r, next)
  {
    next := start;
    if start >= |bytes| {
      return Failure(IncompletePacket), next;
    }
    var name, offset := ReadString(bytes, start);
    if name.Failure? {
      return Failure(name.error), next;
    }
    if name.value != MQTT {
      return Failure(InvalidProtocolName), next;
    }
    ghost var s1 := bytes[offset..];
    if offset >= |bytes| {
      return Failure(IncompletePacket), next;
    }
    if bytes[offset] != PROTOCOL_LEVEL {
      return Failure(UnsupportedProtocolLevel), next;
    }
    offset := offset + 1;
    if offset >= |bytes| {
      return Failure(IncompletePacket), next;
    }
    var flags := bytes[offset];
    offset := offset + 1;
    if Bit(flags, 0) {
      return Failure(InvalidConnectFlags), next;
    }
    if offset + 2 > |bytes| {
      return Failure(IncompletePacket), next;
    }
    var keepAlive := ReadU16(bytes[offset..]);
    assert s1[2..] == bytes[offset..];
    offset := offset + 2;
    assert s1[4..] == bytes[offset..];
    var clientId;
    clientId, next := ReadString(bytes, offset);
    if clientId.Failure? {
      return Failure(clientId.error), next;
    }
    if clientId.value == [] && !Bit(flags, 1) {
      return Failure(ClientIdEmpty), next;
    }
    if |clientId.value| > MAX_CLIENT_ID_LENGTH {
      return Failure(ClientIdLengthExceeded), next;
    }
    return Success(ConnectHead(flags, keepAlive, clientId.value)), next;
  }

  method ReadWill(build: Build, present: bool, bytes: Bytes, offset: nat)
    returns (r: Result<(Option<Bytes>, Option<Bytes>)>, next: nat)
    requires offset <= |bytes|
    ensures Agrees(TakeWill(build, present, bytes[offset..]), bytes, r, next)
  {
    next := offset;
    if !present {
      return Success((None, None)), next;
    }
    var topic, payload;
    topic, next := ReadTopic(build, bytes, offset);
    if topic.Failure? {
      return Failure(topic.error), next;
    }
    payload, next := ReadBinary(bytes, next);
    if payload.Failure? {
      return Failure(payload.error), next;
    }
    if |payload.value| > build.payload {
      return Failure(PayloadTooLarge), next;
    }
    return Success((Some(topic.value), Some(payload.value))), next;
  }

  method ReadUsername(build: Build, present: bool, bytes: Bytes, offset: nat)
    returns (r: Result<Option<Bytes>>, next: nat)
    requires offset <= |bytes|
    ensures Agrees(TakeUsername(build, present, bytes[offset..]), bytes, r, next)
  {
    next := offset;
    if !present {
      return Success(None), next;
    }
    var v;
    v, next := ReadString(bytes, offset);
    if v.Failure? {
      return Failure(v.error), next;
    }
    if |v.value| > build.topic {
      return Failure(UsernameLengthExceeded), next;
    }
    return Success(Some(v.value)), next;
  }

  method ReadPassword(build: Build, present: bool, bytes: Bytes, offset: nat)
    returns (r: Result<Option<Bytes>>, next: nat)
    requires offset <= |bytes|
    ensures Agrees(TakePassword(build, present, bytes[offset..]), bytes, r, next)
  {
    next := offset;
    if !present {
      return Success(None), next;
    }
    var v;
    v, next := ReadBinary(bytes, offset);
    if v.Failure? {
      return Failure(v.error), next;
    }
    if |v.value| > build.topic {
      return Failure(PasswordLengthExceeded), next;
    }
    return Success(Some(v.value)), next;
  }

  method DecodeConnectPacket(build: Build, bytes: Bytes) returns (r: Result<Packet>)
    ensures r == Expecting(1, build, bytes)
  {
    if bytes == [] {
      return Failure(OutOfBounds);
    }
    if bytes[0] / 16 != 1 {
      return Failure(InvalidPacketType);
    }
    var length, start := ReadLength(bytes);
    if length.Failure? {
      return Failure(length.error);
    }
    r := DecodeConnectFields(build, length.value, bytes, start);
  }

  /** Everything behind the Remaining Length. */
  method DecodeConnectFields(build: Build, remaining: nat, bytes: Bytes, start: nat) returns (r: Result<Packet>)
    requires start <= |bytes|
    ensures r == DecodeConnect(build, remaining, bytes[start..])
  {
    var head, offset := ReadConnectHead(bytes, start);
    if head.Failure? {
      return Failure(head.error);
    }
    var h := head.value;
    var will, username, password;
    will, offset := ReadWill(build, Bit(h.flags, 2), bytes, offset);
    if will.Failure? {
      return Failure(will.error);
    }
    username, offset := ReadUsername(build, Bit(h.flags, 7), bytes, offset);
    if username.Failure? {
      return Failure(username.error);
    }
    password, offset := ReadPassword(build, Bit(h.flags, 6), bytes, offset);
    if password.Failure? {
      return Failure(password.error);
    }
    if offset - start != remaining {
      return Failure(InvalidPacketLength);
    }
    return Success(Connect(ConnectPacket(
      h.flags, h.keepAlive, h.clientId, will.value.0, will.value.1, username.value, password.value)));
  }

  // ---------- kinds of fixed size ----------

  /** A decoder of fixed size checks the type between the size and the length. */
  function OfKind<T>(kind: byte, size: nat, bytes: Bytes, r: Result<T>): Result<T>
    requires size > 0
  {
    if |bytes| >= size && bytes[0] / 16 != kind then Failure(InvalidPacketType) else r
  }

  /** `validate_buffer_size`, `validate_packet_type` and `validate_remaining_length`. */
  method ValidateFixed(build: Build, kind: byte, size: nat, bytes: Bytes) returns (r: Result<()>)
    requires size > 0
    ensures r == OfKind(kind, size, bytes, CheckFixed(build, bytes, size))
  {
    if |bytes| < size {
      return Failure(BufferTooSmall);
    }
    if bytes[0] / 16 != kind {
      return Failure(InvalidPacketType);
    }
    var remaining, _ := ReadLength(bytes);
    if remaining.Failure? {
      return Failure(remaining.error);
    }
    var intLength := Length.Size(remaining.value);
    if build.overflowChecks && size - intLength - 1 < 0 {
      return Failure(Overflow);
    }
    if remaining.value != size - intLength - 1 {
      return Failure(InvalidPacketLength);
    }
    return Success(());
  }

  /** PUBACK, PUBREC, PUBREL, PUBCOMP and UNSUBACK. */
  method DecodeIdPacket(build: Build, kind: byte, bytes: Bytes) returns (r: Result<u16>)
    ensures r == OfKind(kind, 4, bytes, DecodeFixedId(build, bytes))
  {
    var _ :- ValidateFixed(build, kind, 4, bytes);
    var high: nat := bytes[2];
    return Success(256 * high + bytes[3]);
  }

  method DecodeConnAckPacket(build: Build, bytes: Bytes) returns (r: Result<Packet>)
    ensures r == OfKind(2, 4, bytes, DecodeConnAck(build, bytes))
  {
    var _ :- ValidateFixed(build, 2, 4, bytes);
    var sessionPresent;
    match bytes[2] {
      case 0 => sessionPresent := false;
      case 1 => sessionPresent := true;
      case _ => return Failure(InvalidSessionPresentFlag);
    }
    var code :- ReturnCodeOf(bytes[3]);
    return Success(ConnAck(sessionPresent, code));
  }

  method DecodeSubAckPacket(bytes: Bytes) returns (r: Result<Packet>)
    ensures r == OfKind(9, 5, bytes, DecodeSubAck(bytes))
  {
    if |bytes| < 5 {
      return Failure(IncompletePacket);
    }
    if bytes[0] / 16 != 9 {
      return Failure(InvalidPacketType);
    }
    var remaining, _ := ReadLength(bytes);
    if remaining.Failure? {
      return Failure(remaining.error);
    }
    if remaining.value != 3 {
      return Failure(InvalidPacketLength);
    }
    var high: nat := bytes[2];
    var id := 256 * high + bytes[3];
    var qos :- QosOf(bytes[4]);
    return Success(SubAck(id, qos));
  }

  /** PINGREQ, PINGRESP and DISCONNECT. */
  method DecodeEmptyPacket(build: Build, kind: byte, p: Packet, bytes: Bytes) returns (r: Result<Packet>)
    ensures r == OfKind(kind, 2, bytes, DecodeEmpty(build, bytes, p))
  {
    var _ :- ValidateFixed(build, kind, 2, bytes);
    return Success(p);
  }

  /** `Packet::decode` */
  method DecodePacket(build: Build, bytes: Bytes) returns (r: Result<Packet>)
    ensures r == Decode(build, bytes)
  {
    if bytes == [] {
      return Failure(OutOfBounds);
    }
    var id;
    match bytes[0] / 16 {
      case 1 => r := DecodeConnectPacket(build, bytes);
      case 2 => r := DecodeConnAckPacket(build, bytes);
      case 3 => r := DecodePublishPacket(build, bytes);
      case 4 => id :- DecodeIdPacket(build, 4, bytes); r := Success(PubAck(id));
      case 5 => id :- DecodeIdPacket(build, 5, bytes); r := Success(PubRec(id));
      case 6 => id :- DecodeIdPacket(build, 6, bytes); r := Success(PubRel(id));
      case 7 => id :- DecodeIdPacket(build, 7, bytes); r := Success(PubComp(id));
      case 8 => r := DecodeSubscribePacket(build, bytes);
      case 9 => r := DecodeSubAckPacket(bytes);
      case 10 => r := DecodeUnsubscribePacket(build, bytes);
      case 11 => id :- DecodeIdPacket(build, 11, bytes); r := Success(UnsubAck(id));
      case 12 => r := DecodeEmptyPacket(build, 12, PingReq, bytes);
      case 13 => r := DecodeEmptyPacket(build, 13, PingResp, bytes);
      case 14 => r := DecodeEmptyPacket(build, 14, Disconnect, bytes);
      case _ => r := Failure(InvalidPacketType);
    }
  }

  /** `read_packet`, with the socket replaced by the pieces it will deliver. */
  method ReadPacket(build: Build, input: Framing.Input) returns (outcome: Framing.Outcome, left: Framing.Input)
    ensures (outcome, left) == Framing.ReadOne(build, input)
  {
    left := ReceiveAtLeast(input, 2);
    if |left.buffer| < 2 {
      return Framing.EndOfStream, left;
    }
    var length := Length.ParseRemainingLength(left.buffer);
    if length.Incomplete? {
      return Framing.Rejected(IncompletePacket), left;
    }
    if length.Malformed? {
      return Framing.Rejected(InvalidPacketLength), left;
    }
    var total := 1 + length.size + length.value;
    left := ReceiveAtLeast(left, total);
    if |left.buffer| < total {
      return Framing.Rejected(IncompletePacket), left;
    }
    var packet := DecodePacket(build, left.buffer[..total]);
    if packet.Failure? {
      return Framing.Rejected(packet.error), left;
    }
    left := left.(buffer := left.buffer[total..]);
    return Framing.Got(packet.value), left;
  }

  /** The waiting loop: append what the socket delivers until there is enough. */
  method ReceiveAtLeast(input: Framing.Input, n: nat) returns (left: Framing.Input)
    ensures left == Framing.Fill(input, n)
  {
    left := input;
    while |left.buffer| < n && left.pieces != []
      invariant Framing.Fill(left, n) == Framing.Fill(input, n)
      decreases |left.pieces|
    {
      left := Framing.Advance(left);
    }
  }

  /** Reading packet after packet, as a connection handler does, from any input. */
  method ReadAll(build: Build, input: Framing.Input) returns (packets: seq<Packet>, last: Framing.Outcome)
    ensures (packets, last) == Framing.ReadList(build, input)
  {
    packets := [];
    var left := input;
    assert [] + Framing.ReadList(build, input).0 == Framing.ReadList(build, input).0;
    while true
      invariant Framing.ReadList(build, input) ==
                (packets + Framing.ReadList(build, left).0, Framing.ReadList(build, left).1)
      decreases |Framing.Stream(left)|
    {
      ghost var before := left;
      last, left := ReadPacket(build, left);
      if !last.Got? {
        assert packets + [] == packets;
        return;
      }
      Framing.ReadOneConsumes(build, before);
      Assoc(packets, [last.packet], Framing.ReadList(build, left).0);
      packets := packets + [last.packet];
    }
  }
}
