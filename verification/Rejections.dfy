/** Why a slice is rejected: for every defect that a packet can be written with, the error
    that decoding it reports. Where several defects meet, the first in the order of the
    fields counts. */
module Rejections {
  import opened Basics
  import opened Packets
  import opened WireFormat
  import opened RoundTrip
  import Length = RemainingLength
  import Utf8
  import WireLiterals

  // ---------- unknown kinds ----------

  /** The type codes 0 and 15, and no others, are refused as such. */
  lemma {:induction false} KindReason(build: Build, bytes: Bytes)
    requires bytes != []
    ensures Decode(build, bytes) == Failure(InvalidPacketType) <==> bytes[0] / 16 in {0, 15}
  {
    if bytes[0] / 16 in {1, 3, 8, 10} {
      VariableKindIsKnown(build, bytes);
    } else if bytes[0] / 16 !in {0, 15} {
      assert CheckFixed(build, bytes, 4) != Failure(InvalidPacketType);
      assert CheckFixed(build, bytes, 2) != Failure(InvalidPacketType);
    }
  }

  lemma {:induction false} VariableKindIsKnown(build: Build, bytes: Bytes)
    requires bytes != [] && bytes[0] / 16 in {1, 3, 8, 10}
    ensures Decode(build, bytes) != Failure(InvalidPacketType)
  {
    if TakeLength(bytes[1..]).Success? {
      var (n, s) := TakeLength(bytes[1..]).value;
      match bytes[0] / 16
      case 1 => ConnectKindIsKnown(build, n, s);
      case _ =>
    }
  }

  lemma {:induction false} ConnectKindIsKnown(build: Build, n: nat, s: Bytes)
    ensures DecodeConnect(build, n, s) != Failure(InvalidPacketType)
  {
    ConnectHeadKindIsKnown(s);
    if TakeConnectHead(s).Success? {
      var (head, s1) := TakeConnectHead(s).value;
      WillKindIsKnown(build, Bit(head.flags, 2), s1);
      if TakeWill(build, Bit(head.flags, 2), s1).Success? {
        CredentialsKindIsKnown(build, Bit(head.flags, 7), TakeWill(build, Bit(head.flags, 2), s1).value.1);
      }
    }
  }

  lemma {:induction false} CredentialsKindIsKnown(build: Build, present: bool, s: Bytes)
    ensures TakeUsername(build, present, s) != Failure(InvalidPacketType)
  {
  }

  lemma {:induction false} ConnectHeadKindIsKnown(s: Bytes)
    ensures TakeConnectHead(s) != Failure(InvalidPacketType)
  {
  }

  lemma {:induction false} WillKindIsKnown(build: Build, present: bool, s: Bytes)
    ensures TakeWill(build, present, s) != Failure(InvalidPacketType)
  {
    assert TakeTopic(build, s) != Failure(InvalidPacketType);
  }

  // ---------- fields ----------

  /** A topic that was written with these bytes. */
  function TopicReason(build: Build, v: Bytes): Option<ProtocolError> {
    if !Utf8.Valid(v) then Some(InvalidUtf8String)
    else if v == [] then Some(TopicEmpty)
    else if |v| > build.topic then Some(TopicNameLengthExceeded)
    else None
  }

  lemma {:induction false} TakeTopicReason(build: Build, v: Bytes, rest: Bytes)
    requires |v| <= 0xFFFF
    ensures TakeTopic(build, Field(v) + rest) ==
            if TopicReason(build, v).Some? then Failure(TopicReason(build, v).value) else Success((v, rest))
  {
    FieldRoundTrip(v, rest);
  }

  lemma {:induction false} TakeIdReason(id: u16, rest: Bytes)
    ensures TakePacketId(U16(id) + rest) == if id == 0 then Failure(MissingPacketId) else Success((id, rest))
  {
    U16RoundTrip(id, rest);
  }

  // ---------- PUBLISH ----------

  function PublishReason(build: Build, q: PublishPacket): Option<ProtocolError> {
    if TopicReason(build, q.topic).Some? then TopicReason(build, q.topic)
    else if q.packetId == Some(0) then Some(MissingPacketId)
    else if |q.payload| > build.payload then Some(PayloadTooLarge)
    else None
  }

  lemma {:induction false} PublishIdReason(q: PublishPacket, rest: Bytes)
    requires q.packetId.Some? <==> q.qos != AtMostOnce
    ensures TakePublishId(q.qos, PublishId(q) + rest) ==
            if q.packetId == Some(0) then Failure(MissingPacketId) else Success((q.packetId, rest))
  {
    if q.packetId.Some? {
      TakeIdReason(q.packetId.value, rest);
    } else {
      assert [] + rest == rest;
    }
  }

  lemma {:induction false} PublishBodyReason(build: Build, q: PublishPacket)
    requires |q.topic| <= 0xFFFF && (q.packetId.Some? <==> q.qos != AtMostOnce)
    ensures DecodePublish(build, FirstByte(Publish(q)), q.qos, |PublishBody(q)|, PublishBody(q)) ==
            if PublishReason(build, q).Some? then Failure(PublishReason(build, q).value) else Success(Publish(q))
  {
    FlagsRoundTrip(q);
    TakeTopicReason(build, q.topic, PublishId(q) + q.payload);
    PublishIdReason(q, q.payload);
    assert q.payload[..|q.payload|] == q.payload;
  }

  /** The error for every PUBLISH that can be written; none exactly for the well-formed. */
  lemma {:induction false} PublishRejectedFor(build: Build, q: PublishPacket)
    requires |q.topic| <= 0xFFFF && (q.packetId.Some? <==> q.qos != AtMostOnce)
    requires |PublishBody(q)| <= Length.MAX_LENGTH
    ensures Decode(build, Frame(Publish(q))) ==
            if PublishReason(build, q).Some? then Failure(PublishReason(build, q).value) else Success(Publish(q))
    ensures PublishReason(build, q).None? <==> PublishOk(build, q)
  {
    var bytes := Frame(Publish(q));
    TakeLengthOfBody(Publish(q));
    FlagsRoundTrip(q);
    DecodeByLength(build, bytes, |PublishBody(q)|, PublishBody(q));
    PublishBodyReason(build, q);
  }

  lemma {:induction false} TakeLengthOfBody(p: Packet)
    requires |Body(p)| <= Length.MAX_LENGTH
    ensures Frame(p)[0] == FirstByte(p) && FirstByte(p) / 16 == TypeNibble(p)
    ensures TakeLength(Frame(p)[1..]) == Success((|Body(p)|, Body(p)))
  {
    TakeWrittenLength(FirstByte(p), Body(p), []);
    assert Frame(p) + [] == Frame(p) && Body(p) + [] == Body(p);
  }

  /** The QoS bits 3 are refused before anything else. */
  lemma {:induction false} PublishQosReason(build: Build, bytes: Bytes)
    requires bytes != [] && bytes[0] / 16 == 3
    ensures bytes[0] % 8 >= 6 ==> Decode(build, bytes) == Failure(InvalidQosLevel)
    ensures bytes[0] % 8 < 6 ==> Decode(build, bytes) != Failure(InvalidQosLevel)
  {
    assert bytes[0] / 2 % 4 == bytes[0] % 8 / 2;
  }

  // ---------- SUBSCRIBE and UNSUBSCRIBE ----------

  function FilterReason(build: Build, id: u16, filter: Bytes): Option<ProtocolError> {
    if id == 0 then Some(MissingPacketId) else TopicReason(build, filter)
  }

  lemma {:induction false} TakeFilterReason(build: Build, id: u16, filter: Bytes, rest: Bytes)
    requires |filter| <= 0xFFFF
    ensures TakePacketId(U16(id) + (Field(filter) + rest)) ==
            if id == 0 then Failure(MissingPacketId) else Success((id, Field(filter) + rest))
    ensures TakeTopic(build, Field(filter) + rest) ==
            if TopicReason(build, filter).Some? then Failure(TopicReason(build, filter).value) else Success((filter, rest))
  {
    TakeIdReason(id, Field(filter) + rest);
    TakeTopicReason(build, filter, rest);
  }

  /** SUBSCRIBE with any last byte in the place of the QoS, and any announced length. */
  lemma {:induction false} SubscribeRejectedFor(
      build: Build, id: u16, filter: Bytes, qos: byte, n: nat, rest: Bytes)
    requires |filter| <= 0xFFFF
    ensures var body := U16(id) + (Field(filter) + [qos]);
            var r := DecodeSubscribe(build, n, body + rest);
            if FilterReason(build, id, filter).Some? then r == Failure(FilterReason(build, id, filter).value)
            else if qos > 2 then r == Failure(InvalidQosLevel)
            else if n != |body| then r == Failure(InvalidPacketLength)
            else r == Success(Subscribe(id, filter, [AtMostOnce, AtLeastOnce, ExactlyOnce][qos]))
  {
    Assoc(U16(id), Field(filter) + [qos], rest);
    Assoc(Field(filter), [qos], rest);
    TakeFilterReason(build, id, filter, [qos] + rest);
    assert ([qos] + rest)[0] == qos;
  }

  lemma {:induction false} UnsubscribeRejectedFor(build: Build, id: u16, filter: Bytes, n: nat, rest: Bytes)
    requires |filter| <= 0xFFFF
    ensures var body := U16(id) + Field(filter);
            var r := DecodeUnsubscribe(build, n, body + rest);
            if FilterReason(build, id, filter).Some? then r == Failure(FilterReason(build, id, filter).value)
            else if n != |body| then r == Failure(InvalidPacketLength)
            else r == Success(Unsubscribe(id, filter))
  {
    Assoc(U16(id), Field(filter), rest);
    TakeFilterReason(build, id, filter, rest);
  }

  // ---------- CONNECT ----------

  /** A CONNECT that starts with this name, level, flags and client identifier. */
  function HeadReason(name: Bytes, level: byte, flags: byte, clientId: Bytes): Option<ProtocolError> {
    if !Utf8.Valid(name) then Some(InvalidUtf8String)
    else if name != [77, 81, 84, 84] then Some(InvalidProtocolName)
    else if level != 4 then Some(UnsupportedProtocolLevel)
    else if flags % 2 == 1 then Some(InvalidConnectFlags)
    else if !Utf8.Valid(clientId) then Some(InvalidUtf8String)
    else if clientId == [] && flags % 4 < 2 then Some(ClientIdEmpty)
    else if |clientId| > 23 then Some(ClientIdLengthExceeded)
    else None
  }

  lemma {:induction false} ConnectHeadRejectedFor(
      name: Bytes, level: byte, flags: byte, keepAlive: u16, clientId: Bytes, rest: Bytes)
    requires |name| <= 0xFFFF && |clientId| <= 0xFFFF
    ensures TakeConnectHead(Field(name) + ([level, flags] + U16(keepAlive) + (Field(clientId) + rest))) ==
            if HeadReason(name, level, flags, clientId).Some?
            then Failure(HeadReason(name, level, flags, clientId).value)
            else Success((ConnectHead(flags, keepAlive, clientId), rest))
  {
    var s1 := [level, flags] + U16(keepAlive) + (Field(clientId) + rest);
    FieldRoundTrip(name, s1);
    assert s1[0] == level && s1[1] == flags;
    assert s1[4..] == Field(clientId) + rest;
    assert s1[2..] == U16(keepAlive) + (Field(clientId) + rest);
    U16RoundTrip(keepAlive, Field(clientId) + rest);
    FieldRoundTrip(clientId, rest);
    WireLiterals.FlagBits(flags);
  }

  /** The optional fields of a CONNECT, in their order. */
  function TailReason(build: Build, c: ConnectPacket): Option<ProtocolError> {
    if c.willTopic.Some? && TopicReason(build, c.willTopic.value).Some? then TopicReason(build, c.willTopic.value)
    else if c.willPayload.Some? && |c.willPayload.value| > build.payload then Some(PayloadTooLarge)
    else if c.username.Some? && !Utf8.Valid(c.username.value) then Some(InvalidUtf8String)
    else if c.username.Some? && |c.username.value| > build.topic then Some(UsernameLengthExceeded)
    else if c.password.Some? && |c.password.value| > build.topic then Some(PasswordLengthExceeded)
    else None
  }

  ghost predicate Short(o: Option<Bytes>) {
    o.Some? ==> |o.value| <= 0xFFFF
  }

  lemma {:induction false} WillRejectedFor(build: Build, topic: Option<Bytes>, payload: Option<Bytes>, rest: Bytes)
    requires (topic.Some? <==> payload.Some?) && Short(topic) && Short(payload)
    ensures TakeWill(build, topic.Some?, OptionalField(topic) + (OptionalField(payload) + rest)) ==
            if topic.Some? && TopicReason(build, topic.value).Some? then Failure(TopicReason(build, topic.value).value)
            else if payload.Some? && |payload.value| > build.payload then Failure(PayloadTooLarge)
            else Success(((topic, payload), rest))
  {
    if topic.Some? {
      TakeTopicReason(build, topic.value, Field(payload.value) + rest);
      FieldRoundTrip(payload.value, rest);
    } else {
      assert [] + ([] + rest) == rest;
    }
  }

  lemma {:induction false} UsernameRejectedFor(build: Build, v: Option<Bytes>, rest: Bytes)
    requires Short(v)
    ensures TakeUsername(build, v.Some?, OptionalField(v) + rest) ==
            if v.Some? && !Utf8.Valid(v.value) then Failure(InvalidUtf8String)
            else if v.Some? && |v.value| > build.topic then Failure(UsernameLengthExceeded)
            else Success((v, rest))
  {
    if v.Some? {
      FieldRoundTrip(v.value, rest);
    } else {
      assert [] + rest == rest;
    }
  }

  lemma {:induction false} PasswordRejectedFor(build: Build, v: Option<Bytes>, rest: Bytes)
    requires Short(v)
    ensures TakePassword(build, v.Some?, OptionalField(v) + rest) ==
            if v.Some? && |v.value| > build.topic then Failure(PasswordLengthExceeded) else Success((v, rest))
  {
    if v.Some? {
      FieldRoundTrip(v.value, rest);
    } else {
      assert [] + rest == rest;
    }
  }

  /** The optional fields are there exactly when their bits are set. */
  predicate Consistent(c: ConnectPacket) {
    && (c.willTopic.Some? <==> c.flags % 8 >= 4) && (c.willPayload.Some? <==> c.flags % 8 >= 4)
    && (c.username.Some? <==> c.flags >= 128) && (c.password.Some? <==> c.flags % 128 >= 64)
  }

  /** The error for every CONNECT whose flags announce its fields, for any announced length
      and whatever follows; none exactly for the well-formed with their own length. */
  lemma {:induction false} ConnectRejectedFor(build: Build, c: ConnectPacket, n: nat, rest: Bytes)
    requires Consistent(c) && |c.clientId| <= 0xFFFF
    requires Short(c.willTopic) && Short(c.willPayload) && Short(c.username) && Short(c.password)
    ensures var r, head := DecodeConnect(build, n, ConnectBody(c) + rest), HeadReason(MQTT, 4, c.flags, c.clientId);
            if head.Some? then r == Failure(head.value)
            else if TailReason(build, c).Some? then r == Failure(TailReason(build, c).value)
            else if n != |ConnectBody(c)| then r == Failure(InvalidPacketLength)
            else r == Success(Connect(c))
  {
    ConnectBodyThen(c, rest);
    ConnectHeadRejectedFor(MQTT, 4, c.flags, c.keepAlive, c.clientId, ConnectTail(c) + rest);
    MqttIsText();
    WireLiterals.FlagBits(c.flags);
    var f3, f4 := OptionalField(c.username), OptionalField(c.password);
    TailThen(OptionalField(c.willTopic), OptionalField(c.willPayload), f3, f4, rest);
    WillRejectedFor(build, c.willTopic, c.willPayload, f3 + (f4 + rest));
    UsernameRejectedFor(build, c.username, f4 + rest);
    PasswordRejectedFor(build, c.password, rest);
  }

  // ---------- kinds of fixed size ----------

  /** CONNACK with any two bytes of body. */
  lemma {:induction false} ConnAckRejectedFor(build: Build, a: byte, b: byte)
    ensures var r := Decode(build, [0x20, 2, a, b]);
            if a > 1 then r == Failure(InvalidSessionPresentFlag)
            else if b > 5 then r == Failure(InvalidConnectReturnCode)
            else r.Success? && r.value.ConnAck? && r.value.sessionPresent == (a == 1)
  {
    var bytes: Bytes := [0x20, 2, a, b];
    TakeWrittenLength(0x20, [a, b], []);
    assert Length.Encode(2) == [2];
    assert bytes == [0x20] + Length.Encode(2) + [a, b] + [];
  }

  /** SUBACK with any three bytes of body. */
  lemma {:induction false} SubAckRejectedFor(build: Build, a: byte, b: byte, qos: byte)
    ensures var r := Decode(build, [0x90, 3, a, b, qos]);
            if qos > 2 then r == Failure(InvalidQosLevel)
            else r == Success(SubAck(256 * a + b, [AtMostOnce, AtLeastOnce, ExactlyOnce][qos]))
  {
    var bytes: Bytes := [0x90, 3, a, b, qos];
    TakeWrittenLength(0x90, [a, b, qos], []);
    assert Length.Encode(3) == [3];
    assert bytes == [0x90] + Length.Encode(3) + [a, b, qos] + [];
    assert bytes[2..] == [a, b, qos];
  }

  /** A kind of fixed size with another length than its own. */
  lemma {:induction false} FixedLengthReason(build: Build, bytes: Bytes)
    requires bytes != [] && FixedSize(bytes[0] / 16).Some? && TakeLength(bytes[1..]).Success?
    ensures var size, n := FixedSize(bytes[0] / 16).value, TakeLength(bytes[1..]).value.0;
            && (|bytes| < size ==> Decode(build, bytes) == Failure(BufferTooSmall))
            && (|bytes| >= size && n != size - 2 ==>
                  Decode(build, bytes) ==
                  Failure(if build.overflowChecks && TooLongFor(bytes[0] / 16, n) then Overflow else InvalidPacketLength))
  {
  }

  // ---------- cut slices ----------

  /** Behind a longer slice the same is read, unless the slice was too short for it. */
  ghost predicate Continues<T>(r: Result<(T, Bytes)>, longer: Result<(T, Bytes)>, more: Bytes) {
    match r
    case Success((v, rest)) => longer == Success((v, rest + more))
    case Failure(e) => e != IncompletePacket ==> longer == Failure(e)
  }

  lemma {:induction false} FieldContinues(s: Bytes, more: Bytes)
    ensures Continues(TakeField(s), TakeField(s + more), more)
  {
    if |s| >= 2 {
      var n: nat := ReadU16(s);
      assert (s + more)[0] == s[0] && (s + more)[1] == s[1];
      if |s| >= 2 + n {
        assert (s + more)[2..2 + n] == s[2..2 + n] && (s + more)[2 + n..] == s[2 + n..] + more;
      }
    }
  }

  lemma {:induction false} TopicContinues(build: Build, s: Bytes, more: Bytes)
    ensures Continues(TakeString(s), TakeString(s + more), more)
    ensures Continues(TakeTopic(build, s), TakeTopic(build, s + more), more)
  {
    FieldContinues(s, more);
  }

  lemma {:induction false} IdContinues(s: Bytes, more: Bytes)
    ensures Continues(TakePacketId(s), TakePacketId(s + more), more)
  {
    if |s| >= 2 {
      assert (s + more)[0] == s[0] && (s + more)[1] == s[1] && (s + more)[2..] == s[2..] + more;
    }
  }

  lemma {:induction false} WillContinues(build: Build, present: bool, s: Bytes, more: Bytes)
    ensures Continues(TakeWill(build, present, s), TakeWill(build, present, s + more), more)
  {
    TopicContinues(build, s, more);
    if TakeTopic(build, s).Success? {
      FieldContinues(TakeTopic(build, s).value.1, more);
    }
  }

  lemma {:induction false} CredentialsContinue(build: Build, present: bool, s: Bytes, more: Bytes)
    ensures Continues(TakeUsername(build, present, s), TakeUsername(build, present, s + more), more)
    ensures Continues(TakePassword(build, present, s), TakePassword(build, present, s + more), more)
  {
    TopicContinues(build, s, more);
    FieldContinues(s, more);
  }

  lemma {:induction false} FixedPartContinues(s: Bytes, more: Bytes)
    ensures forall i :: 0 <= i < |s| ==> (s + more)[i] == s[i]
    ensures |s| >= 4 ==> (s + more)[4..] == s[4..] + more && ReadU16((s + more)[2..]) == ReadU16(s[2..])
  {
  }

  lemma {:induction false} ConnectHeadContinues(build: Build, s: Bytes, more: Bytes)
    ensures Continues(TakeConnectHead(s), TakeConnectHead(s + more), more)
  {
    TopicContinues(build, s, more);
    if TakeString(s).Success? {
      BehindNameContinues(build, TakeString(s).value.1, more);
    }
  }

  lemma {:induction false} BehindNameContinues(build: Build, s: Bytes, more: Bytes)
    ensures Continues(TakeBehindName(s), TakeBehindName(s + more), more)
  {
    FixedPartContinues(s, more);
    if |s| >= 4 {
      TopicContinues(build, s[4..], more);
    }
  }

  /** A CONNECT body that ends too early, wherever. */
  lemma {:induction false} CutConnect(build: Build, s: Bytes, more: Bytes, n: nat)
    requires more != [] && n == |s + more| && DecodeConnect(build, n, s + more).Success?
    ensures DecodeConnect(build, n, s) == Failure(IncompletePacket)
  {
    ConnectHeadContinues(build, s, more);
    if TakeConnectHead(s).Success? {
      var (head, s1) := TakeConnectHead(s).value;
      WillContinues(build, Bit(head.flags, 2), s1, more);
      if TakeWill(build, Bit(head.flags, 2), s1).Success? {
        var s2 := TakeWill(build, Bit(head.flags, 2), s1).value.1;
        CredentialsContinue(build, Bit(head.flags, 7), s2, more);
        if TakeUsername(build, Bit(head.flags, 7), s2).Success? {
          var s3 := TakeUsername(build, Bit(head.flags, 7), s2).value.1;
          CredentialsContinue(build, Bit(head.flags, 6), s3, more);
        }
      }
    }
  }

  lemma {:induction false} CutPublish(build: Build, first: byte, qos: QoS, s: Bytes, more: Bytes, n: nat)
    requires more != [] && n == |s + more| && DecodePublish(build, first, qos, n, s + more).Success?
    ensures DecodePublish(build, first, qos, n, s) == Failure(IncompletePacket)
  {
    TopicContinues(build, s, more);
    if TakeTopic(build, s).Success? {
      IdContinues(TakeTopic(build, s).value.1, more);
    }
  }

  lemma {:induction false} CutFilter(build: Build, s: Bytes, more: Bytes, n: nat)
    requires more != [] && n == |s + more|
    ensures DecodeSubscribe(build, n, s + more).Success? ==> DecodeSubscribe(build, n, s) == Failure(IncompletePacket)
    ensures DecodeUnsubscribe(build, n, s + more).Success? ==> DecodeUnsubscribe(build, n, s) == Failure(IncompletePacket)
  {
    IdContinues(s, more);
    if TakePacketId(s).Success? {
      TopicContinues(build, TakePacketId(s).value.1, more);
    }
  }

  /** What is left of a frame that was cut inside its body. */
  lemma {:induction false} CutBody(build: Build, p: Packet, s: Bytes, more: Bytes, bytes: Bytes)
    requires build.Ok() && PacketOk(build, p) && (p.Connect? || p.Publish? || p.Subscribe? || p.Unsubscribe?)
    requires more != [] && s + more == Body(p)
    requires bytes != [] && bytes[0] == FirstByte(p) && TakeLength(bytes[1..]) == Success((|Body(p)|, s))
    ensures Decode(build, bytes) == Failure(IncompletePacket)
  {
    var n := |Body(p)|;
    assert FirstByte(p) / 16 == TypeNibble(p);
    assert Body(p) + [] == Body(p);
    DecodeByLength(build, bytes, n, s);
    match p
    case Connect(c) =>
      ConnectRoundTrip(build, c, []);
      CutConnect(build, s, more, n);
    case Publish(q) =>
      PublishRoundTrip(build, q, []);
      CutPublish(build, FirstByte(p), q.qos, s, more, n);
    case Subscribe(id, filter, qos) =>
      SubscribeRoundTrip(build, id, filter, qos, []);
      CutFilter(build, s, more, n);
    case Unsubscribe(id, filter) =>
      UnsubscribeRoundTrip(build, id, filter, []);
      CutFilter(build, s, more, n);
  }

  lemma {:induction false} CutLength(build: Build, p: Packet, k: nat)
    requires build.Ok() && PacketOk(build, p) && (p.Connect? || p.Publish? || p.Subscribe? || p.Unsubscribe?)
    requires 0 < k <= |Length.Encode(|Body(p)|)|
    ensures Decode(build, Frame(p)[..k]) == Failure(IncompletePacket)
  {
    var e, bytes := Length.Encode(|Body(p)|), Frame(p)[..k];
    BodyFits(build, p);
    CutHeader(FirstByte(p), e, Body(p), k);
    CutLengthIsIncomplete(|Body(p)|, k - 1);
    assert FirstByte(p) / 16 == TypeNibble(p);
    if p.Publish? {
      FlagsRoundTrip(p.publish);
    }
    NoLengthNoPacket(build, bytes);
  }

  lemma {:induction false} CutHeader(first: byte, e: Bytes, body: Bytes, k: nat)
    requires 0 < k <= |e|
    ensures var bytes := ([first] + e + body)[..k]; bytes[0] == first && bytes[1..] == e[..k - 1]
  {
  }

  lemma {:induction false} NoLengthNoPacket(build: Build, bytes: Bytes)
    requires bytes != [] && bytes[0] / 16 in {1, 3, 8, 10} && TakeLength(bytes[1..]) == Failure(IncompletePacket)
    requires bytes[0] / 16 == 3 ==> QosOf(bytes[0] / 2 % 4).Success?
    ensures Decode(build, bytes) == Failure(IncompletePacket)
  {
  }

  /** The error for every proper prefix of the frame of a well-formed packet. */
  lemma {:induction false} CutFrameReason(build: Build, p: Packet, k: nat)
    requires build.Ok() && PacketOk(build, p) && 0 < k < |Frame(p)|
    ensures Decode(build, Frame(p)[..k]) ==
            Failure(if p.Connect? || p.Publish? || p.Subscribe? || p.Unsubscribe? || p.SubAck?
                    then IncompletePacket else BufferTooSmall)
  {
    if p.Connect? || p.Publish? || p.Subscribe? || p.Unsubscribe? {
      CutVariable(build, p, k);
    } else {
      SmallFrame(p);
      CutFixed(build, p, Frame(p)[..k]);
    }
  }

  lemma {:induction false} CutVariable(build: Build, p: Packet, k: nat)
    requires build.Ok() && PacketOk(build, p) && (p.Connect? || p.Publish? || p.Subscribe? || p.Unsubscribe?)
    requires 0 < k < |Frame(p)|
    ensures Decode(build, Frame(p)[..k]) == Failure(IncompletePacket)
  {
    var e, body := Length.Encode(|Body(p)|), Body(p);
    if k <= |e| {
      CutLength(build, p, k);
    } else {
      var j := k - 1 - |e|;
      CutConcat([FirstByte(p)] + e, body, k);
      Rejoin(body, j);
      CutBehindLength(build, p, body[..j], body[j..]);
    }
  }

  lemma {:induction false} Rejoin(s: Bytes, j: nat)
    requires j < |s|
    ensures s[..j] + s[j..] == s && s[j..] != []
  {
  }

  lemma {:induction false} CutBehindLength(build: Build, p: Packet, s: Bytes, more: Bytes)
    requires build.Ok() && PacketOk(build, p) && (p.Connect? || p.Publish? || p.Subscribe? || p.Unsubscribe?)
    requires s + more == Body(p) && more != []
    ensures Decode(build, [FirstByte(p)] + Length.Encode(|Body(p)|) + s) == Failure(IncompletePacket)
  {
    BodyFits(build, p);
    TakeAnyLength(FirstByte(p), |Body(p)|, s);
    CutBody(build, p, s, more, [FirstByte(p)] + Length.Encode(|Body(p)|) + s);
  }

  lemma {:induction false} CutFixed(build: Build, p: Packet, bytes: Bytes)
    requires !p.Connect? && !p.Publish? && !p.Subscribe? && !p.Unsubscribe?
    requires 0 < |bytes| < 2 + |Body(p)| && bytes[0] == FirstByte(p)
    ensures Decode(build, bytes) == Failure(if p.SubAck? then IncompletePacket else BufferTooSmall)
  {
    assert bytes[0] / 16 == TypeNibble(p);
  }

  /** A length in front of anything. */
  lemma {:induction false} TakeAnyLength(first: byte, n: nat, s: Bytes)
    requires n <= Length.MAX_LENGTH
    ensures var bytes := [first] + Length.Encode(n) + s;
            bytes[0] == first && TakeLength(bytes[1..]) == Success((n, s))
  {
    var e := Length.Encode(n);
    Length.WriteThenRead(n, s);
    Assoc([first], e, s);
    assert ([first] + (e + s))[1..] == e + s;
    assert (e + s)[|e|..] == s;
  }

  /** Four bytes that all announce another one, and a fifth to see it. */
  lemma {:induction false} EndlessLengthReason(build: Build, bytes: Bytes)
    requires |bytes| >= 6 && (forall i :: 1 <= i <= 4 ==> bytes[i] >= 128) && bytes[0] / 16 !in {0, 15}
    ensures Decode(build, bytes) ==
            Failure(if bytes[0] / 16 == 3 && bytes[0] % 8 >= 6 then InvalidQosLevel else InvalidPacketLength)
  {
    var s := bytes[1..];
    assert s[0] >= 128 && s[1] >= 128 && s[2] >= 128 && s[3] >= 128;
    assert Length.Terminator(s) >= 4;
    assert TakeLength(s) == Failure(InvalidPacketLength);
    assert bytes[0] / 2 % 4 == bytes[0] % 8 / 2;
  }
}
