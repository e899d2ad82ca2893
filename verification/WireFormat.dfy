/** The layout of every packet on the wire, and the meaning of a received frame. */
module WireFormat {
  import opened Basics
  import opened Packets
  import Length = RemainingLength
  import Utf8

  /** What is fixed when the library is built: the two capacities that bound what a packet
      can hold, and whether arithmetic is checked for overflow (it is by default; release
      builds wrap). */
  datatype Build = Build(topic: nat, payload: nat, overflowChecks: bool) {
    /** The lengths that the capacities bound are stored in a `u8` and a `u16`. */
    ghost predicate Ok() {
      topic <= 0xFF && payload <= 0xFFFF
    }
  }

  const MAX_CLIENT_ID_LENGTH: nat := 23
  const MQTT: Bytes := [77, 81, 84, 84]
  const PROTOCOL_LEVEL: byte := 4

  datatype ProtocolError =
    | BufferTooSmall
    | ClientIdEmpty
    | ClientIdLengthExceeded
    | IncompletePacket
    | InvalidConnectFlags
    | InvalidConnectReturnCode
    | InvalidPacketLength
    | InvalidPacketType
    | InvalidProtocolName
    | InvalidSessionPresentFlag
    | InvalidUtf8String
    | MissingPacketId
    | PasswordLengthExceeded
    | PayloadTooLarge
    | InvalidQosLevel
    | TopicEmpty
    | TopicNameLengthExceeded
    | UnsupportedProtocolLevel
    | UsernameLengthExceeded
    | OutOfBounds // no error value of the library: an index past the end, where the code panics
    | Overflow // nor is this: a subtraction below zero, where a build with overflow checks panics

  /** The code stops with a panic instead of returning an error. */
  predicate IsPanic(e: ProtocolError) {
    e.OutOfBounds? || e.Overflow?
  }

  datatype Result<+T> = Success(value: T) | Failure(error: ProtocolError) {
    predicate IsFailure() {
      Failure?
    }

    function PropagateFailure<U>(): Result<U>
      requires Failure?
    {
      Failure(error)
    }

    function Extract(): T
      requires Success?
    {
      value
    }
  }

  // ---------- what is written ----------

  function U16(n: u16): Bytes {
    [n / 256, n % 256]
  }

  /** A length-prefixed string or binary field (section 1.5.3). The prefix is cast to
      16 bits. */
  function Field(s: Bytes): Bytes {
    U16(|s| % 0x1_0000) + s
  }

  function OptionalField(o: Option<Bytes>): Bytes {
    if o.None? then [] else Field(o.value)
  }

  function QosByte(q: QoS): byte {
    match q
    case AtMostOnce => 0
    case AtLeastOnce => 1
    case ExactlyOnce => 2
  }

  function ReturnCodeByte(c: ReturnCode): byte {
    match c
    case Accepted => 0
    case UnacceptableProtocolVersion => 1
    case IdentifierRejected => 2
    case ServerUnavailable => 3
    case BadUserNameOrPassword => 4
    case NotAuthorized => 5
  }

  function TypeNibble(p: Packet): (t: byte)
    ensures 1 <= t <= 14
  {
    match p
    case Connect(_) => 1
    case ConnAck(_, _) => 2
    case Publish(_) => 3
    case PubAck(_) => 4
    case PubRec(_) => 5
    case PubRel(_) => 6
    case PubComp(_) => 7
    case Subscribe(_, _, _) => 8
    case SubAck(_, _) => 9
    case Unsubscribe(_, _) => 10
    case UnsubAck(_) => 11
    case PingReq => 12
    case PingResp => 13
    case Disconnect => 14
  }

  /** The low four bits of the first byte; only PUBLISH varies them. */
  function FlagsNibble(p: Packet): (n: byte)
    ensures n < 16
  {
    match p
    case Publish(p) => (if p.dup then 8 else 0) + 2 * QosByte(p.qos) + (if p.retain then 1 else 0)
    case PubRel(_) => 2
    case Subscribe(_, _, _) => 2
    case Unsubscribe(_, _) => 2
    case _ => 0
  }

  function FirstByte(p: Packet): byte {
    16 * TypeNibble(p) + FlagsNibble(p)
  }

  function ConnectTail(c: ConnectPacket): Bytes {
    OptionalField(c.willTopic)
    + (OptionalField(c.willPayload) + (OptionalField(c.username) + OptionalField(c.password)))
  }

  function ConnectBody(c: ConnectPacket): Bytes {
    Field(MQTT) + ([PROTOCOL_LEVEL, c.flags] + U16(c.keepAlive) + (Field(c.clientId) + ConnectTail(c)))
  }

  function PublishId(p: PublishPacket): Bytes {
    if p.qos != AtMostOnce && p.packetId.Some? then U16(p.packetId.value) else []
  }

  function PublishBody(p: PublishPacket): Bytes {
    Field(p.topic) + (PublishId(p) + p.payload)
  }

  /** Everything after the Remaining Length. */
  function Body(p: Packet): Bytes {
    match p
    case Connect(c) => ConnectBody(c)
    case ConnAck(sessionPresent, code) => [if sessionPresent then 1 else 0, ReturnCodeByte(code)]
    case Publish(p) => PublishBody(p)
    case Subscribe(id, filter, qos) => U16(id) + (Field(filter) + [QosByte(qos)])
    case SubAck(id, qos) => U16(id) + [QosByte(qos)]
    case Unsubscribe(id, filter) => U16(id) + Field(filter)
    case PubAck(id) => U16(id)
    case PubRec(id) => U16(id)
    case PubRel(id) => U16(id)
    case PubComp(id) => U16(id)
    case UnsubAck(id) => U16(id)
    case PingReq => []
    case PingResp => []
    case Disconnect => []
  }

  function Header(p: Packet): Bytes {
    [FirstByte(p)] + Length.Encode(|Body(p)|)
  }

  /** The whole packet on the wire. */
  function Frame(p: Packet): Bytes {
    Header(p) + Body(p)
  }

  // ---------- what the encoders make of strings that are not UTF-8 ----------

  function ShownOption(o: Option<Bytes>): Option<Bytes> {
    if o.None? then None else Some(Utf8.AsStr(o.value))
  }

  /** The packet with each string replaced by what it shows. */
  function Shown(p: Packet): (q: Packet)
    ensures FirstByte(q) == FirstByte(p)
  {
    match p
    case Connect(c) => Connect(c.(
        clientId := Utf8.AsStr(c.clientId),
        willTopic := ShownOption(c.willTopic),
        username := ShownOption(c.username)))
    case Publish(q) => Publish(q.(topic := Utf8.AsStr(q.topic)))
    case Subscribe(id, filter, qos) => Subscribe(id, Utf8.AsStr(filter), qos)
    case Unsubscribe(id, filter) => Unsubscribe(id, Utf8.AsStr(filter))
    case _ => p
  }

  /** The Remaining Length that the encoders write: computed from the stored lengths,
      except for the will topic, and with room for an identifier above QoS 0. */
  function Announced(p: Packet): nat {
    match p
    case Connect(c) => |ConnectBody(c.(willTopic := ShownOption(c.willTopic)))|
    case Publish(q) => 2 + |q.topic| + (if q.qos == AtMostOnce then 0 else 2) + |q.payload|
    case _ => |Body(p)|
  }

  function WireHeader(p: Packet): Bytes {
    [FirstByte(p)] + Length.Encode(Announced(p))
  }

  /** The bytes that the encoders write. */
  function Wire(p: Packet): Bytes {
    WireHeader(p) + Body(Shown(p))
  }

  // ---------- which packets the format can carry ----------

  predicate Bit(flags: byte, k: nat)
    requires k < 8
  {
    flags / [1, 2, 4, 8, 16, 32, 64, 128][k] % 2 == 1
  }

  predicate Text(s: Bytes, max: nat) {
    Utf8.Valid(s) && |s| <= max
  }

  predicate TopicOk(build: Build, s: Bytes) {
    s != [] && Text(s, build.topic)
  }

  predicate ConnectOk(build: Build, c: ConnectPacket) {
    && !Bit(c.flags, 0)
    && Text(c.clientId, MAX_CLIENT_ID_LENGTH)
    && (c.clientId == [] ==> Bit(c.flags, 1))
    && (c.willTopic.Some? <==> Bit(c.flags, 2))
    && (c.willTopic.Some? ==> TopicOk(build, c.willTopic.value))
    && (c.willPayload.Some? <==> Bit(c.flags, 2))
    && (c.willPayload.Some? ==> |c.willPayload.value| <= build.payload)
    && (c.username.Some? <==> Bit(c.flags, 7))
    && (c.username.Some? ==> Text(c.username.value, build.topic))
    && (c.password.Some? <==> Bit(c.flags, 6))
    && (c.password.Some? ==> |c.password.value| <= build.topic)
  }

  predicate PublishOk(build: Build, p: PublishPacket) {
    && TopicOk(build, p.topic)
    && |p.payload| <= build.payload
    && (p.packetId.Some? <==> p.qos != AtMostOnce)
    && (p.packetId.Some? ==> p.packetId.value != 0)
  }

  predicate PacketOk(build: Build, p: Packet) {
    match p
    case Connect(c) => ConnectOk(build, c)
    case Publish(p) => PublishOk(build, p)
    case Subscribe(id, filter, _) => id != 0 && TopicOk(build, filter)
    case Unsubscribe(id, filter) => id != 0 && TopicOk(build, filter)
    case _ => true
  }

  /** Every field fits the container that holds it; any packet value does. */
  predicate Storable(build: Build, p: Packet) {
    match p
    case Connect(c) =>
      && |c.clientId| <= MAX_CLIENT_ID_LENGTH
      && (c.willTopic.Some? ==> |c.willTopic.value| <= build.topic)
      && (c.willPayload.Some? ==> |c.willPayload.value| <= build.payload)
      && (c.username.Some? ==> |c.username.value| <= build.topic)
      && (c.password.Some? ==> |c.password.value| <= build.topic)
    case Publish(p) => |p.topic| <= build.topic && |p.payload| <= build.payload
    case Subscribe(_, filter, _) => |filter| <= build.topic
    case Unsubscribe(_, filter) => |filter| <= build.topic
    case _ => true
  }

  /** A PUBLISH above QoS 0 without packet identifier cannot be written. */
  predicate LacksId(p: Packet) {
    p.Publish? && p.publish.qos != AtMostOnce && p.publish.packetId.None?
  }

  // ---------- what is read ----------

  /** A slice that holds exactly one frame, as the server cuts it out. */
  predicate Framed(bytes: Bytes) {
    && bytes != []
    && Length.Read(bytes[1..]).Length?
    && |bytes| == 1 + Length.Read(bytes[1..]).size + Length.Read(bytes[1..]).value
  }

  function BodyStart(bytes: Bytes): (k: nat)
    requires Framed(bytes)
    ensures 2 <= k <= |bytes|
  {
    1 + Length.Read(bytes[1..]).size
  }

  function BodyOf(bytes: Bytes): Bytes
    requires Framed(bytes)
  {
    bytes[BodyStart(bytes)..]
  }

  function QosOf(b: byte): Result<QoS> {
    match b
    case 0 => Success(AtMostOnce)
    case 1 => Success(AtLeastOnce)
    case 2 => Success(ExactlyOnce)
    case _ => Failure(InvalidQosLevel)
  }

  function ReturnCodeOf(b: byte): Result<ReturnCode> {
    match b
    case 0 => Success(Accepted)
    case 1 => Success(UnacceptableProtocolVersion)
    case 2 => Success(IdentifierRejected)
    case 3 => Success(ServerUnavailable)
    case 4 => Success(BadUserNameOrPassword)
    case 5 => Success(NotAuthorized)
    case _ => Failure(InvalidConnectReturnCode)
  }

  function ReadU16(s: Bytes): u16
    requires |s| >= 2
  {
    var high: nat := s[0];
    256 * high + s[1]
  }

  /** Takes a length-prefixed field off the front. */
  function TakeField(s: Bytes): Result<(Bytes, Bytes)> {
    if |s| < 2 then Failure(IncompletePacket)
    else
      var n := ReadU16(s);
      if |s| < 2 + n then Failure(IncompletePacket) else Success((s[2..2 + n], s[2 + n..]))
  }

  function TakeString(s: Bytes): Result<(Bytes, Bytes)> {
    var (v, rest) :- TakeField(s);
    if Utf8.Valid(v) then Success((v, rest)) else Failure(InvalidUtf8String)
  }

  /** A topic: a string that is neither empty nor too long. */
  function TakeTopic(build: Build, s: Bytes): Result<(Bytes, Bytes)> {
    var (v, rest) :- TakeString(s);
    if v == [] then Failure(TopicEmpty)
    else if |v| > build.topic then Failure(TopicNameLengthExceeded)
    else Success((v, rest))
  }

  function TakeWill(build: Build, present: bool, s: Bytes): Result<((Option<Bytes>, Option<Bytes>), Bytes)> {
    if !present then Success(((None, None), s))
    else
      var (topic, s1) :- TakeTopic(build, s);
      var (payload, s2) :- TakeField(s1);
      if |payload| > build.payload then Failure(PayloadTooLarge) else Success(((Some(topic), Some(payload)), s2))
  }

  function TakeUsername(build: Build, present: bool, s: Bytes): Result<(Option<Bytes>, Bytes)> {
    if !present then Success((None, s))
    else
      var (v, rest) :- TakeString(s);
      if |v| > build.topic then Failure(UsernameLengthExceeded) else Success((Some(v), rest))
  }

  function TakePassword(build: Build, present: bool, s: Bytes): Result<(Option<Bytes>, Bytes)> {
    if !present then Success((None, s))
    else
      var (v, rest) :- TakeField(s);
      if |v| > build.topic then Failure(PasswordLengthExceeded) else Success((Some(v), rest))
  }

  datatype ConnectHead = ConnectHead(flags: byte, keepAlive: u16, clientId: Bytes)

  function TakeConnectHead(s: Bytes): Result<(ConnectHead, Bytes)> {
    if s == [] then Failure(IncompletePacket)
    else
      var (name, s1) :- TakeString(s);
      if name != MQTT then Failure(InvalidProtocolName) else TakeBehindName(s1)
  }

  /** Level, flags, keep-alive and client identifier. */
  function TakeBehindName(s: Bytes): Result<(ConnectHead, Bytes)> {
    if s == [] then Failure(IncompletePacket)
    else if s[0] != PROTOCOL_LEVEL then Failure(UnsupportedProtocolLevel)
    else if |s| < 2 then Failure(IncompletePacket)
    else if Bit(s[1], 0) then Failure(InvalidConnectFlags)
    else if |s| < 4 then Failure(IncompletePacket)
    else
      var (clientId, rest) :- TakeString(s[4..]);
      if clientId == [] && !Bit(s[1], 1) then Failure(ClientIdEmpty)
      else if |clientId| > MAX_CLIENT_ID_LENGTH then Failure(ClientIdLengthExceeded)
      else Success((ConnectHead(s[1], ReadU16(s[2..]), clientId), rest))
  }

  /** The Remaining Length, taken off the front. */
  function TakeLength(s: Bytes): Result<(nat, Bytes)> {
    match Length.Read(s)
    case Incomplete => Failure(IncompletePacket)
    case Malformed => Failure(InvalidPacketLength)
    case Length(value, size) => Success((value, s[size..]))
  }

  /** `s` is what follows the Remaining Length `n`, up to the end of the slice. */
  function DecodeConnect(build: Build, n: nat, s: Bytes): Result<Packet> {
    var (head, s1) :- TakeConnectHead(s);
    var (will, s2) :- TakeWill(build, Bit(head.flags, 2), s1);
    var (username, s3) :- TakeUsername(build, Bit(head.flags, 7), s2);
    var (password, s4) :- TakePassword(build, Bit(head.flags, 6), s3);
    if |s| - |s4| != n then Failure(InvalidPacketLength)
    else Success(Connect(ConnectPacket(head.flags, head.keepAlive, head.clientId, will.0, will.1, username, password)))
  }

  /** A packet identifier, which must not be zero. */
  function TakePacketId(s: Bytes): Result<(u16, Bytes)> {
    if |s| < 2 then Failure(IncompletePacket)
    else if ReadU16(s) == 0 then Failure(MissingPacketId)
    else Success((ReadU16(s), s[2..]))
  }

  function TakePublishId(qos: QoS, s: Bytes): Result<(Option<u16>, Bytes)> {
    if qos == AtMostOnce then Success((None, s))
    else
      var (id, rest) :- TakePacketId(s);
      Success((Some(id), rest))
  }

  datatype PublishHead = PublishHead(topic: Bytes, packetId: Option<u16>)

  function TakePublishHead(build: Build, qos: QoS, s: Bytes): Result<(PublishHead, Bytes)> {
    var (topic, s1) :- TakeTopic(build, s);
    var (id, s2) :- TakePublishId(qos, s1);
    Success((PublishHead(topic, id), s2))
  }

  /** The payload ends where the Remaining Length says; a topic or identifier that goes
      beyond that place makes the slice bounds cross. */
  function DecodePublish(build: Build, first: byte, qos: QoS, n: nat, s: Bytes): Result<Packet> {
    var (head, s1) :- TakePublishHead(build, qos, s);
    var consumed := |s| - |s1|;
    if n > |s| then Failure(IncompletePacket)
    else if consumed > n then Failure(OutOfBounds)
    else if n - consumed > build.payload then Failure(PayloadTooLarge)
    else Success(Publish(PublishPacket(
           head.topic, head.packetId, s1[..n - consumed], qos, first / 8 % 2 == 1, first % 2 == 1)))
  }

  function DecodeSubscribe(build: Build, n: nat, s: Bytes): Result<Packet> {
    var (id, s1) :- TakePacketId(s);
    var (filter, s2) :- TakeTopic(build, s1);
    if s2 == [] then Failure(IncompletePacket)
    else
      var qos :- QosOf(s2[0]);
      if |s| - |s2| + 1 != n then Failure(InvalidPacketLength) else Success(Subscribe(id, filter, qos))
  }

  function DecodeUnsubscribe(build: Build, n: nat, s: Bytes): Result<Packet> {
    var (id, s1) :- TakePacketId(s);
    var (filter, s2) :- TakeTopic(build, s1);
    if |s| - |s2| != n then Failure(InvalidPacketLength) else Success(Unsubscribe(id, filter))
  }

  /** The checks shared by the packets of fixed size. The length expected in front of the
      comparison comes out below zero when the size of `n` alone exceeds the packet;
      without overflow checks it wraps to a number above every length. */
  function CheckFixed(build: Build, bytes: Bytes, size: nat): Result<()>
    requires size > 0
  {
    if |bytes| < size then Failure(BufferTooSmall)
    else
      var (n, _) :- TakeLength(bytes[1..]);
      if build.overflowChecks && Length.Size(n) + 1 > size then Failure(Overflow)
      else if n != size - Length.Size(n) - 1 then Failure(InvalidPacketLength)
      else Success(())
  }

  /** Four bytes in all; the identifier is read at a fixed place. */
  function DecodeFixedId(build: Build, bytes: Bytes): Result<u16> {
    var _ :- CheckFixed(build, bytes, 4);
    Success(ReadU16(bytes[2..]))
  }

  function DecodeConnAck(build: Build, bytes: Bytes): Result<Packet> {
    var _ :- CheckFixed(build, bytes, 4);
    if bytes[2] > 1 then Failure(InvalidSessionPresentFlag)
    else
      var code :- ReturnCodeOf(bytes[3]);
      Success(ConnAck(bytes[2] == 1, code))
  }

  function DecodeSubAck(bytes: Bytes): Result<Packet> {
    if |bytes| < 5 then Failure(IncompletePacket)
    else
      var (n, _) :- TakeLength(bytes[1..]);
      if n != 3 then Failure(InvalidPacketLength)
      else
        var qos :- QosOf(bytes[4]);
        Success(SubAck(ReadU16(bytes[2..]), qos))
  }

  function DecodeEmpty(build: Build, bytes: Bytes, p: Packet): Result<Packet> {
    var _ :- CheckFixed(build, bytes, 2);
    Success(p)
  }

  /** The four kinds of variable size. */
  function DecodeVariable(build: Build, bytes: Bytes): Result<Packet>
    requires bytes != [] && bytes[0] / 16 in {1, 3, 8, 10}
  {
    match bytes[0] / 16
    case 1 => var (n, s) :- TakeLength(bytes[1..]); DecodeConnect(build, n, s)
    case 3 =>
      var qos :- QosOf(bytes[0] / 2 % 4);
      var (n, s) :- TakeLength(bytes[1..]);
      DecodePublish(build, bytes[0], qos, n, s)
    case 8 => var (n, s) :- TakeLength(bytes[1..]); DecodeSubscribe(build, n, s)
    case _ => var (n, s) :- TakeLength(bytes[1..]); DecodeUnsubscribe(build, n, s)
  }

  /** The meaning of any slice that is handed to `Packet::decode`. */
  function Decode(build: Build, bytes: Bytes): Result<Packet> {
    if bytes == [] then Failure(OutOfBounds)
    else
      match bytes[0] / 16
      case 1 => DecodeVariable(build, bytes)
      case 2 => DecodeConnAck(build, bytes)
      case 3 => DecodeVariable(build, bytes)
      case 4 => var id :- DecodeFixedId(build, bytes); Success(PubAck(id))
      case 5 => var id :- DecodeFixedId(build, bytes); Success(PubRec(id))
      case 6 => var id :- DecodeFixedId(build, bytes); Success(PubRel(id))
      case 7 => var id :- DecodeFixedId(build, bytes); Success(PubComp(id))
      case 8 => DecodeVariable(build, bytes)
      case 9 => DecodeSubAck(bytes)
      case 10 => DecodeVariable(build, bytes)
      case 11 => var id :- DecodeFixedId(build, bytes); Success(UnsubAck(id))
      case 12 => DecodeEmpty(build, bytes, PingReq)
      case 13 => DecodeEmpty(build, bytes, PingResp)
      case 14 => DecodeEmpty(build, bytes, Disconnect)
      case _ => Failure(InvalidPacketType)
  }
}
