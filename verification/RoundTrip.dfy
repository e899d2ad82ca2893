/** Printer and parser undo each other, for every kind of packet and both ways round. */
module RoundTrip {
  import opened Basics
  import opened Packets
  import opened WireFormat
  import Length = RemainingLength
  import Utf8

  // ---------- fields ----------

  lemma {:induction false} U16RoundTrip(n: u16, rest: Bytes)
    ensures ReadU16(U16(n) + rest) == n && (U16(n) + rest)[2..] == rest
  {
  }

  lemma {:induction false} U16Reverse(s: Bytes)
    requires |s| >= 2
    ensures s == U16(ReadU16(s)) + s[2..]
  {
  }

  lemma {:induction false} FieldRoundTrip(v: Bytes, rest: Bytes)
    requires |v| <= 0xFFFF
    ensures TakeField(Field(v) + rest) == Success((v, rest))
  {
    Assoc(U16(|v|), v, rest);
    U16RoundTrip(|v|, v + rest);
    SplitAt(Field(v), rest, U16(|v|), v);
  }

  lemma {:induction false} SplitAt(ab: Bytes, c: Bytes, a: Bytes, b: Bytes)
    requires ab == a + b
    ensures (ab + c)[|a|..|a| + |b|] == b && (ab + c)[|a| + |b|..] == c
  {
  }

  lemma {:induction false} FieldReverse(s: Bytes)
    requires TakeField(s).Success?
    ensures var (v, rest) := TakeField(s).value; |v| <= 0xFFFF && s == Field(v) + rest
  {
    var (v, rest) := TakeField(s).value;
    U16Reverse(s);
    CutInTwo(s, 2, 2 + |v|);
    Assoc(U16(|v|), v, rest);
  }

  lemma {:induction false} CutInTwo(s: Bytes, i: nat, j: nat)
    requires i <= j <= |s|
    ensures s[i..] == s[i..j] + s[j..]
  {
  }

  lemma {:induction false} TopicRoundTrip(build: Build, v: Bytes, rest: Bytes)
    requires build.Ok() && TopicOk(build, v)
    ensures TakeTopic(build, Field(v) + rest) == Success((v, rest))
  {
    FieldRoundTrip(v, rest);
  }

  lemma {:induction false} TopicReverse(build: Build, s: Bytes)
    requires TakeTopic(build, s).Success?
    ensures var (v, rest) := TakeTopic(build, s).value; TopicOk(build, v) && s == Field(v) + rest
  {
    FieldReverse(s);
  }

  // ---------- CONNECT ----------

  lemma {:induction false} ConnectHeadRoundTrip(c: ConnectPacket, rest: Bytes)
    requires !Bit(c.flags, 0) && Text(c.clientId, MAX_CLIENT_ID_LENGTH) && (c.clientId == [] ==> Bit(c.flags, 1))
    ensures TakeConnectHead(Field(MQTT) + ([PROTOCOL_LEVEL, c.flags] + U16(c.keepAlive) + (Field(c.clientId) + rest)))
            == Success((ConnectHead(c.flags, c.keepAlive, c.clientId), rest))
  {
    var s1 := [PROTOCOL_LEVEL, c.flags] + U16(c.keepAlive) + (Field(c.clientId) + rest);
    FieldRoundTrip(MQTT, s1);
    assert Utf8.Valid(MQTT) by {
      MqttIsText();
    }
    assert s1[4..] == Field(c.clientId) + rest;
    assert s1[2..] == U16(c.keepAlive) + (Field(c.clientId) + rest);
    U16RoundTrip(c.keepAlive, Field(c.clientId) + rest);
    FieldRoundTrip(c.clientId, rest);
  }

  lemma {:induction false} MqttIsText()
    ensures Utf8.Valid(MQTT)
  {
    assert MQTT[1..] == [81, 84, 84] && MQTT[1..][1..] == [84, 84] && MQTT[1..][1..][1..] == [84];
    assert Utf8.Valid([84]);
    assert Utf8.Valid([84, 84]) by { assert [84, 84][1..] == [84]; }
    assert Utf8.Valid([81, 84, 84]);
  }

  lemma {:induction false} ConnectFixedReverse(s: Bytes)
    requires |s| >= 4
    ensures s == [s[0], s[1]] + U16(ReadU16(s[2..])) + s[4..]
  {
    U16Reverse(s[2..]);
    assert s[2..][2..] == s[4..];
    assert s == [s[0], s[1]] + s[2..];
  }

  lemma {:induction false} ConnectHeadReverse(s: Bytes)
    requires TakeConnectHead(s).Success?
    ensures var (h, rest) := TakeConnectHead(s).value;
            && !Bit(h.flags, 0) && Text(h.clientId, MAX_CLIENT_ID_LENGTH) && (h.clientId == [] ==> Bit(h.flags, 1))
            && s == Field(MQTT) + ([PROTOCOL_LEVEL, h.flags] + U16(h.keepAlive) + (Field(h.clientId) + rest))
  {
    ConnectHeadShape(s);
    var (h, rest) := TakeConnectHead(s).value;
    var s1 := TakeField(s).value.1;
    FieldReverse(s);
    FieldReverse(s1[4..]);
    ConnectFixedReverse(s1);
  }

  /** The steps that a successful reading took. */
  lemma {:induction false} ConnectHeadShape(s: Bytes)
    requires TakeConnectHead(s).Success?
    ensures TakeField(s).Success? && TakeField(s).value.0 == MQTT
    ensures var s1 := TakeField(s).value.1;
            var (h, rest) := TakeConnectHead(s).value;
            && |s1| >= 4 && s1[0] == PROTOCOL_LEVEL && s1[1] == h.flags && ReadU16(s1[2..]) == h.keepAlive
            && TakeField(s1[4..]) == Success((h.clientId, rest))
            && !Bit(h.flags, 0) && Text(h.clientId, MAX_CLIENT_ID_LENGTH) && (h.clientId == [] ==> Bit(h.flags, 1))
  {
  }

  lemma {:induction false} WillRoundTrip(build: Build, topic: Option<Bytes>, payload: Option<Bytes>, rest: Bytes)
    requires build.Ok() && (topic.Some? <==> payload.Some?)
    requires topic.Some? ==> TopicOk(build, topic.value) && |payload.value| <= build.payload
    ensures TakeWill(build, topic.Some?, OptionalField(topic) + (OptionalField(payload) + rest)) ==
            Success(((topic, payload), rest))
  {
    if topic.Some? {
      TopicRoundTrip(build, topic.value, Field(payload.value) + rest);
      FieldRoundTrip(payload.value, rest);
    } else {
      assert [] + ([] + rest) == rest;
    }
  }

  lemma {:induction false} WillReverse(build: Build, present: bool, s: Bytes)
    requires TakeWill(build, present, s).Success?
    ensures var ((topic, payload), rest) := TakeWill(build, present, s).value;
            && topic.Some? == payload.Some? == present
            && (present ==> TopicOk(build, topic.value) && |payload.value| <= build.payload)
            && s == OptionalField(topic) + (OptionalField(payload) + rest)
  {
    if present {
      TopicReverse(build, s);
      FieldReverse(TakeTopic(build, s).value.1);
    } else {
      assert [] + ([] + s) == s;
    }
  }

  lemma {:induction false} UsernameRoundTrip(build: Build, v: Option<Bytes>, rest: Bytes)
    requires build.Ok() && (v.Some? ==> Text(v.value, build.topic))
    ensures TakeUsername(build, v.Some?, OptionalField(v) + rest) == Success((v, rest))
  {
    if v.Some? {
      FieldRoundTrip(v.value, rest);
    } else {
      assert [] + rest == rest;
    }
  }

  lemma {:induction false} PasswordRoundTrip(build: Build, v: Option<Bytes>, rest: Bytes)
    requires build.Ok() && (v.Some? ==> |v.value| <= build.topic)
    ensures TakePassword(build, v.Some?, OptionalField(v) + rest) == Success((v, rest))
  {
    if v.Some? {
      FieldRoundTrip(v.value, rest);
    } else {
      assert [] + rest == rest;
    }
  }

  lemma {:induction false} UsernameReverse(build: Build, present: bool, s: Bytes)
    requires TakeUsername(build, present, s).Success?
    ensures var (v, rest) := TakeUsername(build, present, s).value;
            && v.Some? == present && (present ==> Text(v.value, build.topic)) && s == OptionalField(v) + rest
  {
    if present {
      FieldReverse(s);
    } else {
      assert [] + s == s;
    }
  }

  lemma {:induction false} PasswordReverse(build: Build, present: bool, s: Bytes)
    requires TakePassword(build, present, s).Success?
    ensures var (v, rest) := TakePassword(build, present, s).value;
            && v.Some? == present && (present ==> |v.value| <= build.topic) && s == OptionalField(v) + rest
  {
    if present {
      FieldReverse(s);
    } else {
      assert [] + s == s;
    }
  }

  lemma {:induction false} TailThen(a: Bytes, b: Bytes, c: Bytes, d: Bytes, rest: Bytes)
    ensures a + (b + (c + d)) + rest == a + (b + (c + (d + rest)))
  {
    Assoc(c, d, rest);
    Assoc(b, c + d, rest);
    Assoc(a, b + (c + d), rest);
  }

  lemma {:induction false} ConnectBodyThen(c: ConnectPacket, rest: Bytes)
    ensures ConnectBody(c) + rest ==
            Field(MQTT) + ([PROTOCOL_LEVEL, c.flags] + U16(c.keepAlive) + (Field(c.clientId) + (ConnectTail(c) + rest)))
  {
    TailThen(Field(MQTT), [PROTOCOL_LEVEL, c.flags] + U16(c.keepAlive), Field(c.clientId), ConnectTail(c), rest);
  }

  /** Whatever follows the body. */
  lemma {:induction false} ConnectRoundTrip(build: Build, c: ConnectPacket, rest: Bytes)
    requires build.Ok() && ConnectOk(build, c)
    ensures DecodeConnect(build, |ConnectBody(c)|, ConnectBody(c) + rest) == Success(Connect(c))
  {
    ConnectBodyThen(c, rest);
    ConnectHeadRoundTrip(c, ConnectTail(c) + rest);
    var f3, f4 := OptionalField(c.username), OptionalField(c.password);
    TailThen(OptionalField(c.willTopic), OptionalField(c.willPayload), f3, f4, rest);
    WillRoundTrip(build, c.willTopic, c.willPayload, f3 + (f4 + rest));
    UsernameRoundTrip(build, c.username, f4 + rest);
    PasswordRoundTrip(build, c.password, rest);
  }

  lemma {:induction false} ConnectReverse(build: Build, body: Bytes)
    requires DecodeConnect(build, |body|, body).Success?
    ensures var p := DecodeConnect(build, |body|, body).value;
            p.Connect? && ConnectOk(build, p.connect) && body == ConnectBody(p.connect)
  {
    var (head, s1) := TakeConnectHead(body).value;
    var (will, s2) := TakeWill(build, Bit(head.flags, 2), s1).value;
    var (username, s3) := TakeUsername(build, Bit(head.flags, 7), s2).value;
    var (password, s4) := TakePassword(build, Bit(head.flags, 6), s3).value;
    ConnectHeadReverse(body);
    WillReverse(build, Bit(head.flags, 2), s1);
    UsernameReverse(build, Bit(head.flags, 7), s2);
    PasswordReverse(build, Bit(head.flags, 6), s3);
    assert s4 == [];
    assert OptionalField(password) + [] == OptionalField(password);
  }

  // ---------- PUBLISH ----------

  /** The three flags occupy disjoint bits. */
  lemma {:induction false} FlagsRoundTrip(p: PublishPacket)
    ensures var first := FirstByte(Publish(p));
            && QosOf(first / 2 % 4) == Success(p.qos)
            && (first / 8 % 2 == 1 <==> p.dup)
            && (first % 2 == 1 <==> p.retain)
  {
  }

  /** The bits of the low nibble, taken from the whole byte. */
  lemma {:induction false} NibbleHigh(q: nat, n: nat)
    requires n < 16
    ensures (16 * q + n) / 8 % 2 == n / 8
  {
    assert (16 * q + n) / 8 == 2 * q + n / 8;
  }

  lemma {:induction false} NibbleMiddle(q: nat, n: nat)
    requires n < 16
    ensures (16 * q + n) / 2 % 4 == n / 2 % 4
  {
    assert (16 * q + n) / 2 == 4 * (2 * q) + n / 2;
  }

  lemma {:induction false} NibbleSum(q: nat, n: nat)
    requires n < 16
    ensures n == 8 * (n / 8) + 2 * (n / 2 % 4) + n % 2
    ensures (16 * q + n) % 2 == n % 2
  {
    assert (16 * q + n) % 2 == (2 * (8 * q) + n) % 2;
  }

  lemma {:induction false} FlagsReverse(first: byte, p: PublishPacket)
    requires QosOf(first / 2 % 4) == Success(p.qos)
    requires (first / 8 % 2 == 1 <==> p.dup) && (first % 2 == 1 <==> p.retain)
    ensures FlagsNibble(Publish(p)) == first % 16
  {
    var n := first % 16;
    NibbleHigh(first / 16, n);
    NibbleMiddle(first / 16, n);
    NibbleSum(first / 16, n);
  }

  lemma {:induction false} PublishIdRoundTrip(build: Build, p: PublishPacket, rest: Bytes)
    requires PublishOk(build, p)
    ensures TakePublishId(p.qos, PublishId(p) + rest) == Success((p.packetId, rest))
  {
    if p.packetId.Some? {
      U16RoundTrip(p.packetId.value, rest);
    } else {
      assert [] + rest == rest;
    }
  }

  /** Whatever follows the body. */
  lemma {:induction false} PublishRoundTrip(build: Build, p: PublishPacket, rest: Bytes)
    requires build.Ok() && PublishOk(build, p)
    ensures QosOf(FirstByte(Publish(p)) / 2 % 4) == Success(p.qos)
    ensures DecodePublish(build, FirstByte(Publish(p)), p.qos, |PublishBody(p)|, PublishBody(p) + rest)
            == Success(Publish(p))
  {
    FlagsRoundTrip(p);
    Assoc(Field(p.topic), PublishId(p) + p.payload, rest);
    Assoc(PublishId(p), p.payload, rest);
    TopicRoundTrip(build, p.topic, PublishId(p) + (p.payload + rest));
    PublishIdRoundTrip(build, p, p.payload + rest);
    assert (p.payload + rest)[..|p.payload|] == p.payload;
  }

  lemma {:induction false} PublishIdReverse(p: PublishPacket, s: Bytes)
    requires TakePublishId(p.qos, s) == Success((p.packetId, p.payload))
    ensures s == PublishId(p) + p.payload && (p.packetId.Some? <==> p.qos != AtMostOnce)
    ensures p.packetId.Some? ==> p.packetId.value != 0
  {
    if p.qos == AtMostOnce {
      assert [] + s == s;
    } else {
      U16Reverse(s);
    }
  }

  lemma {:induction false} PublishReverse(build: Build, first: byte, qos: QoS, body: Bytes)
    requires QosOf(first / 2 % 4) == Success(qos) && DecodePublish(build, first, qos, |body|, body).Success?
    ensures var p := DecodePublish(build, first, qos, |body|, body).value;
            && p.Publish? && PublishOk(build, p.publish) && body == PublishBody(p.publish)
            && FlagsNibble(p) == first % 16
  {
    var p := DecodePublish(build, first, qos, |body|, body).value.publish;
    var (_, s1) := TakePublishHead(build, qos, body).value;
    assert s1[..|s1|] == s1 == p.payload;
    FlagsReverse(first, p);
    TopicReverse(build, body);
    PublishIdReverse(p, TakeTopic(build, body).value.1);
  }

  // ---------- SUBSCRIBE and UNSUBSCRIBE ----------

  lemma {:induction false} FilterRoundTrip(build: Build, id: u16, filter: Bytes, rest: Bytes)
    requires build.Ok() && id != 0 && TopicOk(build, filter)
    ensures TakePacketId(U16(id) + (Field(filter) + rest)) == Success((id, Field(filter) + rest))
    ensures TakeTopic(build, Field(filter) + rest) == Success((filter, rest))
  {
    U16RoundTrip(id, Field(filter) + rest);
    TopicRoundTrip(build, filter, rest);
  }

  /** Whatever follows the body. */
  lemma {:induction false} SubscribeRoundTrip(build: Build, id: u16, filter: Bytes, qos: QoS, rest: Bytes)
    requires build.Ok() && id != 0 && TopicOk(build, filter)
    ensures var body := Body(Subscribe(id, filter, qos));
            DecodeSubscribe(build, |body|, body + rest) == Success(Subscribe(id, filter, qos))
  {
    Assoc(U16(id), Field(filter) + [QosByte(qos)], rest);
    Assoc(Field(filter), [QosByte(qos)], rest);
    FilterRoundTrip(build, id, filter, [QosByte(qos)] + rest);
  }

  /** Whatever follows the body. */
  lemma {:induction false} UnsubscribeRoundTrip(build: Build, id: u16, filter: Bytes, rest: Bytes)
    requires build.Ok() && id != 0 && TopicOk(build, filter)
    ensures var body := Body(Unsubscribe(id, filter));
            DecodeUnsubscribe(build, |body|, body + rest) == Success(Unsubscribe(id, filter))
  {
    Assoc(U16(id), Field(filter), rest);
    FilterRoundTrip(build, id, filter, rest);
  }

  lemma {:induction false} FilterReverse(build: Build, s: Bytes)
    requires TakePacketId(s).Success? && TakeTopic(build, s[2..]).Success?
    ensures var (filter, rest) := TakeTopic(build, s[2..]).value;
            TopicOk(build, filter) && s == U16(ReadU16(s)) + (Field(filter) + rest)
  {
    U16Reverse(s);
    TopicReverse(build, s[2..]);
  }

  lemma {:induction false} SubscribeReverse(build: Build, body: Bytes)
    requires DecodeSubscribe(build, |body|, body).Success?
    ensures var p := DecodeSubscribe(build, |body|, body).value; p.Subscribe? && PacketOk(build, p) && body == Body(p)
  {
    FilterReverse(build, body);
    var (filter, s2) := TakeTopic(build, body[2..]).value;
    assert s2 == [s2[0]];
  }

  lemma {:induction false} UnsubscribeReverse(build: Build, body: Bytes)
    requires DecodeUnsubscribe(build, |body|, body).Success?
    ensures var p := DecodeUnsubscribe(build, |body|, body).value; p.Unsubscribe? && PacketOk(build, p) && body == Body(p)
  {
    FilterReverse(build, body);
    var (filter, s2) := TakeTopic(build, body[2..]).value;
    assert s2 == [];
    assert Field(filter) + [] == Field(filter);
  }

  // ---------- frames ----------

  /** No body comes near the largest Remaining Length. */
  lemma {:induction false} BodyFits(build: Build, p: Packet)
    requires build.Ok() && PacketOk(build, p)
    ensures |Body(p)| <= Length.MAX_LENGTH
  {
  }

  /** A first byte, the length of a body and the body make an exact frame. */
  lemma {:induction false} LengthFramesBody(first: byte, body: Bytes)
    requires |body| <= Length.MAX_LENGTH
    ensures var f := [first] + Length.Encode(|body|) + body;
            Framed(f) && BodyStart(f) == 1 + Length.Size(|body|) && BodyOf(f) == body
  {
    var e := Length.Encode(|body|);
    var f := [first] + e + body;
    Length.WriteThenRead(|body|, body);
    assert f[1..] == e + body;
  }

  lemma {:induction false} FrameIsFramed(build: Build, p: Packet)
    requires build.Ok() && PacketOk(build, p)
    ensures Framed(Frame(p)) && Frame(p)[0] == FirstByte(p)
    ensures BodyStart(Frame(p)) == 1 + Length.Size(|Body(p)|)
    ensures BodyOf(Frame(p)) == Body(p)
  {
    BodyFits(build, p);
    LengthFramesBody(FirstByte(p), Body(p));
  }

  /** The Remaining Length in front of a body is taken off, whatever follows. */
  lemma {:induction false} TakeWrittenLength(first: byte, body: Bytes, rest: Bytes)
    requires |body| <= Length.MAX_LENGTH
    ensures var bytes := [first] + Length.Encode(|body|) + body + rest;
            bytes[0] == first && TakeLength(bytes[1..]) == Success((|body|, body + rest))
  {
    var e := Length.Encode(|body|);
    var bytes := [first] + e + body + rest;
    DropFirst(first, e, body, rest);
    Length.WriteThenRead(|body|, body + rest);
    assert (e + (body + rest))[|e|..] == body + rest;
  }

  lemma {:induction false} DropFirst(first: byte, e: Bytes, body: Bytes, rest: Bytes)
    ensures ([first] + e + body + rest)[0] == first && ([first] + e + body + rest)[1..] == e + (body + rest)
  {
  }

  lemma {:induction false} TakeLengthOfFrame(build: Build, p: Packet, rest: Bytes)
    requires build.Ok() && PacketOk(build, p)
    ensures (Frame(p) + rest)[0] == FirstByte(p)
    ensures TakeLength((Frame(p) + rest)[1..]) == Success((|Body(p)|, Body(p) + rest))
  {
    BodyFits(build, p);
    TakeWrittenLength(FirstByte(p), Body(p), rest);
  }

  /** The kinds of fixed size, whatever follows. */
  lemma {:induction false} SmallRoundTrip(build: Build, p: Packet, rest: Bytes)
    requires build.Ok() && !p.Connect? && !p.Publish? && !p.Subscribe? && !p.Unsubscribe?
    ensures Decode(build, Frame(p) + rest) == Success(p)
  {
    var bytes := Frame(p) + rest;
    TakeLengthOfFrame(build, p, rest);
    SmallFrame(p);
    SmallBytes(p, rest, bytes);
    assert bytes[0] / 16 == TypeNibble(p);
    DecodeByPlace(build, bytes, p, Body(p) + rest);
  }

  /** What stands at the right places is read. */
  lemma {:induction false} DecodeByPlace(build: Build, bytes: Bytes, p: Packet, s: Bytes)
    requires !p.Connect? && !p.Publish? && !p.Subscribe? && !p.Unsubscribe?
    requires |bytes| >= 2 + |Body(p)| && bytes[0] / 16 == TypeNibble(p)
    requires TakeLength(bytes[1..]) == Success((|Body(p)|, s))
    requires forall i :: 0 <= i < |Body(p)| ==> bytes[2 + i] == Body(p)[i]
    requires |Body(p)| >= 2 && !p.ConnAck? ==> ReadU16(bytes[2..]) == p.packetId
    ensures Decode(build, bytes) == Success(p)
  {
    if |Body(p)| >= 2 {
      assert bytes[2 + 0] == Body(p)[0] && bytes[2 + 1] == Body(p)[1];
      assert p.SubAck? ==> bytes[2 + 2] == Body(p)[2];
    }
  }

  /** Where the fields of such a packet stand. */
  lemma {:induction false} SmallBytes(p: Packet, rest: Bytes, bytes: Bytes)
    requires !p.Connect? && !p.Publish? && !p.Subscribe? && !p.Unsubscribe?
    requires |Body(p)| <= 3 && bytes == [FirstByte(p), |Body(p)|] + Body(p) + rest
    ensures |bytes| >= 2 + |Body(p)|
    ensures forall i :: 0 <= i < |Body(p)| ==> bytes[2 + i] == Body(p)[i]
    ensures |Body(p)| >= 2 && !p.ConnAck? ==> ReadU16(bytes[2..]) == p.packetId
  {
    if |Body(p)| >= 2 && !p.ConnAck? {
      assert Body(p)[..2] == U16(p.packetId);
    }
  }

  lemma {:induction false} SmallFrame(p: Packet)
    requires !p.Connect? && !p.Publish? && !p.Subscribe? && !p.Unsubscribe?
    ensures |Body(p)| <= 3 && Frame(p) == [FirstByte(p), |Body(p)|] + Body(p)
  {
    assert Length.Encode(|Body(p)|) == [|Body(p)|];
  }

  lemma {:induction false} VariableRoundTrip(build: Build, p: Packet, rest: Bytes)
    requires build.Ok() && PacketOk(build, p) && (p.Connect? || p.Publish? || p.Subscribe? || p.Unsubscribe?)
    ensures Decode(build, Frame(p) + rest) == Success(p)
  {
    var bytes := Frame(p) + rest;
    TakeLengthOfFrame(build, p, rest);
    assert bytes[0] / 16 == TypeNibble(p);
    DecodeByLength(build, bytes, |Body(p)|, Body(p) + rest);
    match p
    case Connect(c) => ConnectRoundTrip(build, c, rest);
    case Publish(q) => PublishRoundTrip(build, q, rest);
    case Subscribe(id, filter, qos) => SubscribeRoundTrip(build, id, filter, qos, rest);
    case Unsubscribe(id, filter) => UnsubscribeRoundTrip(build, id, filter, rest);
  }

  /** The kinds of variable size, once their length is known. */
  lemma {:induction false} DecodeByLength(build: Build, bytes: Bytes, n: nat, s: Bytes)
    requires bytes != [] && TakeLength(bytes[1..]) == Success((n, s))
    ensures bytes[0] / 16 == 1 ==> Decode(build, bytes) == DecodeConnect(build, n, s)
    ensures bytes[0] / 16 == 3 && QosOf(bytes[0] / 2 % 4).Success? ==>
              Decode(build, bytes) == DecodePublish(build, bytes[0], QosOf(bytes[0] / 2 % 4).value, n, s)
    ensures bytes[0] / 16 == 8 ==> Decode(build, bytes) == DecodeSubscribe(build, n, s)
    ensures bytes[0] / 16 == 10 ==> Decode(build, bytes) == DecodeUnsubscribe(build, n, s)
  {
  }

  /** Round trip: every well-formed packet of every kind is read back from its frame,
      whatever follows it in the slice. */
  lemma {:induction false} FrameRoundTrip(build: Build, p: Packet, rest: Bytes)
    requires build.Ok() && PacketOk(build, p)
    ensures Decode(build, Frame(p) + rest) == Success(p)
  {
    if p.Connect? || p.Publish? || p.Subscribe? || p.Unsubscribe? {
      VariableRoundTrip(build, p, rest);
    } else {
      SmallRoundTrip(build, p, rest);
    }
  }

  // ---------- cut frames ----------

  /** A packet of variable size is only returned when the slice holds as much as the
      Remaining Length announces. */
  lemma {:induction false} VariableNeedsBody(build: Build, bytes: Bytes)
    requires bytes != [] && bytes[0] / 16 in {1, 3, 8, 10} && Decode(build, bytes).Success?
    ensures TakeLength(bytes[1..]).Success?
    ensures var (n, s) := TakeLength(bytes[1..]).value; n <= |s|
  {
  }

  /** A slice that ends inside the Remaining Length, or inside the body. */
  lemma {:induction false} TakeCutLength(first: byte, body: Bytes, k: nat)
    requires |body| <= Length.MAX_LENGTH && 0 < k < 1 + |Length.Encode(|body|)| + |body|
    ensures var bytes := ([first] + Length.Encode(|body|) + body)[..k];
            && bytes[0] == first
            && var r := TakeLength(bytes[1..]); r.Success? ==> r.value.0 == |body| > |r.value.1|
  {
    var e := Length.Encode(|body|);
    var bytes := ([first] + e + body)[..k];
    if k <= |e| {
      assert bytes[1..] == e[..k - 1];
      CutLengthIsIncomplete(|body|, k - 1);
    } else {
      var part := body[..k - 1 - |e|];
      CutConcat([first] + e, body, k);
      assert bytes == [first] + (e + part);
      Length.WriteThenRead(|body|, part);
    }
  }

  lemma {:induction false} CutConcat(a: Bytes, b: Bytes, k: nat)
    requires |a| <= k <= |a| + |b|
    ensures (a + b)[..k] == a + b[..k - |a|]
  {
  }

  lemma {:induction false} CutLengthIsIncomplete(n: nat, k: nat)
    requires n <= Length.MAX_LENGTH && k < |Length.Encode(n)|
    ensures Length.Read(Length.Encode(n)[..k]) == Length.Incomplete
  {
    Length.EncodeEnds(n);
    Length.EncodeSize(n);
    var t := Length.Encode(n)[..k];
    assert forall i :: 0 <= i < k ==> t[i] >= 128;
    assert Length.Terminator(t) == k;
  }

  /** No proper prefix of a frame is taken for a packet. */
  lemma {:induction false} CutFrameIsRejected(build: Build, p: Packet, k: nat)
    requires build.Ok() && PacketOk(build, p) && k < |Frame(p)|
    ensures Decode(build, Frame(p)[..k]).Failure?
  {
    if k > 0 {
      var bytes := Frame(p)[..k];
      BodyFits(build, p);
      TakeCutLength(FirstByte(p), Body(p), k);
      assert FirstByte(p) / 16 == TypeNibble(p);
      if p.Connect? || p.Publish? || p.Subscribe? || p.Unsubscribe? {
        if Decode(build, bytes).Success? {
          VariableNeedsBody(build, bytes);
        }
      } else {
        SmallFrame(p);
      }
    }
  }

  // ---------- slices on which the code panics ----------

  /** The topic and identifier of a PUBLISH reach beyond the announced length, which
      itself lies within the slice. */
  predicate Overruns(build: Build, bytes: Bytes) {
    && bytes != [] && bytes[0] / 16 == 3
    && QosOf(bytes[0] / 2 % 4).Success?
    && TakeLength(bytes[1..]).Success?
    && var (n, s) := TakeLength(bytes[1..]).value;
       var head := TakePublishHead(build, QosOf(bytes[0] / 2 % 4).value, s);
       n <= |s| && head.Success? && |s| - |head.value.1| > n
  }

  lemma {:induction false} TopicNeverPanics(build: Build, s: Bytes)
    ensures !Panics(TakeTopic(build, s))
  {
  }

  lemma {:induction false} ConnectHeadNeverPanics(s: Bytes)
    ensures !Panics(TakeConnectHead(s))
  {
  }

  lemma {:induction false} WillNeverPanics(build: Build, present: bool, s: Bytes)
    ensures !Panics(TakeWill(build, present, s))
  {
    TopicNeverPanics(build, s);
  }

  lemma {:induction false} ConnectNeverPanics(build: Build, n: nat, s: Bytes)
    ensures !Panics(DecodeConnect(build, n, s))
  {
    ConnectHeadNeverPanics(s);
    if TakeConnectHead(s).Success? {
      var (head, s1) := TakeConnectHead(s).value;
      WillNeverPanics(build, Bit(head.flags, 2), s1);
    }
  }

  lemma {:induction false} PublishPanicsIff(build: Build, first: byte, qos: QoS, n: nat, s: Bytes)
    ensures DecodePublish(build, first, qos, n, s) != Failure(Overflow)
    ensures DecodePublish(build, first, qos, n, s) == Failure(OutOfBounds) <==>
            var head := TakePublishHead(build, qos, s);
            n <= |s| && head.Success? && |s| - |head.value.1| > n
  {
    TopicNeverPanics(build, s);
  }

  lemma {:induction false} FilterNeverPanics(build: Build, n: nat, s: Bytes)
    ensures !Panics(DecodeSubscribe(build, n, s)) && !Panics(DecodeUnsubscribe(build, n, s))
  {
    if |s| >= 2 {
      TopicNeverPanics(build, s[2..]);
    }
  }

  lemma {:induction false} VariablePanicsIff(build: Build, bytes: Bytes)
    requires bytes != [] && bytes[0] / 16 in {1, 3, 8, 10}
    ensures DecodeVariable(build, bytes) == Failure(OutOfBounds) <==> Overruns(build, bytes)
  {
    if TakeLength(bytes[1..]).Success? {
      var (n, s) := TakeLength(bytes[1..]).value;
      match bytes[0] / 16
      case 1 => ConnectNeverPanics(build, n, s);
      case 3 =>
        if QosOf(bytes[0] / 2 % 4).Success? {
          PublishPanicsIff(build, bytes[0], QosOf(bytes[0] / 2 % 4).value, n, s);
        }
      case _ => FilterNeverPanics(build, n, s);
    }
  }

  /** The size of the kinds that are checked against one. */
  function FixedSize(kind: byte): Option<nat> {
    if kind in {2, 4, 5, 6, 7, 11} then Some(4) else if kind in {12, 13, 14} then Some(2) else None
  }

  /** The bytes of a length of this value, with the first byte, exceed the size of the kind. */
  predicate TooLongFor(kind: byte, n: nat) {
    FixedSize(kind).Some? && Length.Size(n) + 1 > FixedSize(kind).value
  }

  /** A kind of fixed size whose length does not fit in front of it. */
  predicate Underflows(bytes: Bytes) {
    && bytes != [] && FixedSize(bytes[0] / 16).Some? && |bytes| >= FixedSize(bytes[0] / 16).value
    && TakeLength(bytes[1..]).Success? && TooLongFor(bytes[0] / 16, TakeLength(bytes[1..]).value.0)
  }

  predicate Panics<T>(r: Result<T>) {
    r.Failure? && IsPanic(r.error)
  }

  lemma {:induction false} VariableNeverOverflows(build: Build, bytes: Bytes)
    requires bytes != [] && bytes[0] / 16 in {1, 3, 8, 10}
    ensures DecodeVariable(build, bytes) != Failure(Overflow)
  {
    if TakeLength(bytes[1..]).Success? {
      var (n, s) := TakeLength(bytes[1..]).value;
      match bytes[0] / 16
      case 1 => ConnectNeverPanics(build, n, s);
      case 3 =>
        if QosOf(bytes[0] / 2 % 4).Success? {
          PublishPanicsIff(build, bytes[0], QosOf(bytes[0] / 2 % 4).value, n, s);
        }
      case _ => FilterNeverPanics(build, n, s);
    }
  }

  lemma {:induction false} FixedPanicsIff(build: Build, bytes: Bytes)
    requires bytes != [] && bytes[0] / 16 !in {1, 3, 8, 10}
    ensures Decode(build, bytes) != Failure(OutOfBounds) && !Overruns(build, bytes)
    ensures Decode(build, bytes) == Failure(Overflow) <==> build.overflowChecks && Underflows(bytes)
  {
    assert CheckFixed(build, bytes, 4) != Failure(OutOfBounds) && CheckFixed(build, bytes, 2) != Failure(OutOfBounds);
  }

  /** Exactly the slices on which `Packet::decode` panics: those where a PUBLISH overruns
      its length, and in builds with overflow checks also those where a kind of fixed size
      has a length that alone exceeds it. */
  lemma {:induction false} DecodePanicsIff(build: Build, bytes: Bytes)
    ensures Decode(build, bytes) == Failure(OutOfBounds) <==> bytes == [] || Overruns(build, bytes)
    ensures Decode(build, bytes) == Failure(Overflow) <==> build.overflowChecks && Underflows(bytes)
  {
    if bytes != [] {
      if bytes[0] / 16 in {1, 3, 8, 10} {
        VariablePanicsIff(build, bytes);
        VariableNeverOverflows(build, bytes);
      } else {
        FixedPanicsIff(build, bytes);
      }
    }
  }

  /** Of the slices that hold exactly one frame, as the server cuts them, the code panics
      on those of fixed size with a body this long, and only with overflow checks. */
  lemma {:induction false} FramedPanicsIff(build: Build, bytes: Bytes)
    requires Framed(bytes)
    ensures Panics(Decode(build, bytes)) <==>
            build.overflowChecks && TooLongFor(bytes[0] / 16, |BodyOf(bytes)|)
  {
    DecodePanicsIff(build, bytes);
    TakeBody(bytes);
  }

  /** In terms of the body: 128 bytes where none are expected, 2097152 where two are. */
  lemma {:induction false} TooLongIff(kind: byte, n: nat)
    ensures TooLongFor(kind, n) <==> (kind in {12, 13, 14} && n >= 128) || (kind in {2, 4, 5, 6, 7, 11} && n >= 2097152)
  {
  }

  /** The smallest case: a PINGREQ that announces 128 bytes and has them. It stops a build
      with overflow checks; the others reject it. */
  lemma {:induction false} LongPingPanics(build: Build, body: Bytes)
    requires |body| == 128
    ensures var bytes := [0xC0, 0x80, 1] + body;
            && Framed(bytes)
            && Decode(build, bytes) == Failure(if build.overflowChecks then Overflow else InvalidPacketLength)
  {
    var bytes: Bytes := [0xC0, 0x80, 1] + body;
    assert Length.Encode(128) == [0x80, 1];
    assert bytes == [0xC0] + Length.Encode(|body|) + body;
    LengthFramesBody(0xC0, body);
    TakeBody(bytes);
  }

  // ---------- and back ----------

  /** The Remaining Length has no superfluous zero byte at its end. */
  predicate MinimalLength(bytes: Bytes)
    requires Framed(bytes)
  {
    var k := Length.Read(bytes[1..]).size;
    k == 1 || bytes[1..][k - 1] != 0
  }

  /** Framing a received body again reproduces the frame exactly when the first byte is
      the same and the length was minimal. */
  lemma {:induction false} ReframeBody(bytes: Bytes, first: byte)
    requires Framed(bytes)
    ensures [first] + Length.Encode(|BodyOf(bytes)|) + BodyOf(bytes) == bytes <==>
            first == bytes[0] && MinimalLength(bytes)
  {
    var s, body := bytes[1..], BodyOf(bytes);
    var k := Length.Read(s).size;
    Length.RereadIffMinimal(s);
    var e, f := Length.Encode(|body|), [first] + Length.Encode(|body|) + body;
    assert bytes == [bytes[0]] + s[..k] + body;
    if f == bytes {
      assert |e| == k;
      assert f[1..][..k] == e && bytes[1..][..k] == s[..k];
      assert f[0] == first;
    }
  }

  /** The kinds that are read at fixed places carry at most three bytes of body; behind
      a minimal length these are the body. */
  lemma {:induction false} SmallReverse(build: Build, bytes: Bytes)
    requires Framed(bytes) && Decode(build, bytes).Success? && bytes[0] / 16 !in {1, 3, 8, 10}
    ensures var p := Decode(build, bytes).value;
            && PacketOk(build, p) && TypeNibble(p) == bytes[0] / 16
            && |Body(p)| == |BodyOf(bytes)| <= 3
            && (MinimalLength(bytes) ==> Body(p) == BodyOf(bytes))
  {
    var p, n := Decode(build, bytes).value, |BodyOf(bytes)|;
    SmallLength(build, bytes);
    if MinimalLength(bytes) {
      Length.RereadIffMinimal(bytes[1..]);
      assert Length.Encode(n) == [n];
      assert BodyOf(bytes) == bytes[2..];
      if n >= 2 && !p.ConnAck? {
        U16Reverse(bytes[2..]);
      }
    }
  }

  lemma {:induction false} SmallLength(build: Build, bytes: Bytes)
    requires Framed(bytes) && Decode(build, bytes).Success? && bytes[0] / 16 !in {1, 3, 8, 10}
    ensures var p := Decode(build, bytes).value;
            PacketOk(build, p) && TypeNibble(p) == bytes[0] / 16 && |Body(p)| == |BodyOf(bytes)| <= 3
  {
  }

  lemma {:induction false} TakeBody(bytes: Bytes)
    requires Framed(bytes)
    ensures TakeLength(bytes[1..]) == Success((|BodyOf(bytes)|, BodyOf(bytes)))
  {
    assert bytes[1..][BodyStart(bytes) - 1..] == BodyOf(bytes);
  }

  /** The other kinds are read from the body alone and account for all of it. */
  lemma {:induction false} BodyReverse(build: Build, bytes: Bytes)
    requires Framed(bytes) && Decode(build, bytes).Success? && bytes[0] / 16 in {1, 3, 8, 10}
    ensures var p := Decode(build, bytes).value;
            PacketOk(build, p) && TypeNibble(p) == bytes[0] / 16 && Body(p) == BodyOf(bytes)
  {
    TakeBody(bytes);
    match bytes[0] / 16
    case 1 => ConnectReverse(build, BodyOf(bytes));
    case 3 => PublishReverse(build, bytes[0], QosOf(bytes[0] / 2 % 4).value, BodyOf(bytes));
    case 8 => SubscribeReverse(build, BodyOf(bytes));
    case _ => UnsubscribeReverse(build, BodyOf(bytes));
  }

  /** Reverse round trip, for every kind: what decodes is well formed, and encoding it
      again gives back the received frame if and only if the Remaining Length was
      minimal and the flag bits were the ones the kind prescribes. */
  lemma {:induction false} FrameReverse(build: Build, bytes: Bytes)
    requires Framed(bytes)
    ensures Decode(build, bytes).Success? ==>
              var p := Decode(build, bytes).value;
              && PacketOk(build, p)
              && TypeNibble(p) == bytes[0] / 16
              && (Frame(p) == bytes <==> MinimalLength(bytes) && bytes[0] % 16 == FlagsNibble(p))
  {
    if Decode(build, bytes).Success? {
      var p, body := Decode(build, bytes).value, BodyOf(bytes);
      ReframeBody(bytes, FirstByte(p));
      if bytes[0] / 16 in {1, 3, 8, 10} {
        BodyReverse(build, bytes);
      } else {
        SmallReverse(build, bytes);
        if !MinimalLength(bytes) {
          assert Length.Encode(|body|) == [|body|];
          assert |Frame(p)| == 2 + |body| < |bytes|;
        }
      }
      assert FirstByte(p) == bytes[0] <==> bytes[0] % 16 == FlagsNibble(p);
    }
  }

  /** For PUBLISH the flag bits are read, so only the length can be in the way. */
  lemma {:induction false} PublishFrameReverse(build: Build, bytes: Bytes)
    requires Framed(bytes)
    ensures Decode(build, bytes).Success? && Decode(build, bytes).value.Publish? ==>
              (Frame(Decode(build, bytes).value) == bytes <==> MinimalLength(bytes))
  {
    FrameReverse(build, bytes);
    if Decode(build, bytes).Success? && Decode(build, bytes).value.Publish? {
      TakeBody(bytes);
      PublishReverse(build, bytes[0], QosOf(bytes[0] / 2 % 4).value, BodyOf(bytes));
    }
  }

  /** Behind a length of two bytes a PUBACK is not read from its body: the identifier
      [a, b] comes out as [0, a]. */
  lemma {:induction false} LongLengthMisreadsId(build: Build, a: byte, b: byte)
    ensures var bytes := [64, 130, 0, a, b];
            Framed(bytes) && BodyOf(bytes) == [a, b] && Decode(build, bytes) == Success(PubAck(a))
  {
    var bytes: Bytes := [64, 130, 0, a, b];
    var s := bytes[1..];
    assert s == [130, 0, a, b];
    assert s[1..] == [0, a, b];
    assert Length.Terminator(s) == 1 + Length.Terminator(s[1..]) == 1;
    assert s[..2] == [130, 0] && s[..2][1..] == [0] && [0][1..] == [];
    assert Length.Value([0]) == 0 % 128 + 128 * Length.Value([]);
    assert Length.Value(s[..2]) == 130 % 128 + 128 * Length.Value([0]);
    assert Length.Read(s) == Length.Length(2, 2);
    assert BodyOf(bytes) == [a, b];
    assert bytes[2..] == [0, a, b];
  }
}
