/** The format in bytes, as MQTT 3.1.1 prints it: type codes, flag bits, field order and
    reason codes, for every packet. */
module WireLiterals {
  import opened Basics
  import opened Packets
  import opened WireFormat
  import opened RoundTrip
  import Length = RemainingLength
  import Utf8

  // ---------- what is written ----------

  /** Two bytes of length, most significant first, and the contents (section 1.5.3). */
  lemma {:induction false} FieldBytes(v: Bytes)
    requires |v| <= 0xFFFF
    ensures Field(v) == [|v| / 256, |v| % 256] + v
    ensures OptionalField(Some(v)) == Field(v) && OptionalField(None) == []
  {
  }

  /** Type and flags (sections 2.2.1 and 2.2.2). */
  lemma {:induction false} FirstByteOf(p: Packet)
    ensures FirstByte(p) ==
            match p
            case Connect(_) => 0x10
            case ConnAck(_, _) => 0x20
            case Publish(q) =>
              0x30 + (if q.dup then 8 else 0)
              + (match q.qos case AtMostOnce => 0 case AtLeastOnce => 2 case ExactlyOnce => 4)
              + (if q.retain then 1 else 0)
            case PubAck(_) => 0x40
            case PubRec(_) => 0x50
            case PubRel(_) => 0x62
            case PubComp(_) => 0x70
            case Subscribe(_, _, _) => 0x82
            case SubAck(_, _) => 0x90
            case Unsubscribe(_, _) => 0xA2
            case UnsubAck(_) => 0xB0
            case PingReq => 0xC0
            case PingResp => 0xD0
            case Disconnect => 0xE0
  {
  }

  /** Header and body. */
  lemma {:induction false} FrameLayout(p: Packet)
    ensures Frame(p) == [FirstByte(p)] + Length.Encode(|Body(p)|) + Body(p)
  {
  }

  /** CONNECT (section 3.1): name, level, flags, keep-alive, then the fields in order. */
  lemma {:induction false} ConnectBytes(c: ConnectPacket)
    ensures Body(Connect(c)) ==
            [0, 4, 77, 81, 84, 84, 4, c.flags, c.keepAlive / 256, c.keepAlive % 256]
            + (Field(c.clientId)
               + (OptionalField(c.willTopic)
                  + (OptionalField(c.willPayload) + (OptionalField(c.username) + OptionalField(c.password)))))
  {
    var tail := Field(c.clientId) + ConnectTail(c);
    var fixed := [PROTOCOL_LEVEL, c.flags] + U16(c.keepAlive);
    assert Field(MQTT) == [0, 4, 77, 81, 84, 84];
    assert fixed == [4, c.flags, c.keepAlive / 256, c.keepAlive % 256];
    Assoc(Field(MQTT), fixed, tail);
    assert Field(MQTT) + fixed == [0, 4, 77, 81, 84, 84, 4, c.flags, c.keepAlive / 256, c.keepAlive % 256];
  }

  /** PUBLISH (section 3.3): topic, identifier above QoS 0, payload. */
  lemma {:induction false} PublishBytes(q: PublishPacket)
    requires !LacksId(Publish(q))
    ensures Body(Publish(q)) ==
            Field(q.topic)
            + ((if q.qos == AtMostOnce then [] else [q.packetId.value / 256, q.packetId.value % 256]) + q.payload)
  {
  }

  /** The other kinds (sections 3.2 and 3.4 to 3.14). */
  lemma {:induction false} SmallBodyBytes(p: Packet)
    ensures match p
            case ConnAck(present, code) =>
              Body(p) == [if present then 1 else 0,
                          match code
                          case Accepted => 0
                          case UnacceptableProtocolVersion => 1
                          case IdentifierRejected => 2
                          case ServerUnavailable => 3
                          case BadUserNameOrPassword => 4
                          case NotAuthorized => 5]
            case PubAck(id) => Body(p) == [id / 256, id % 256]
            case PubRec(id) => Body(p) == [id / 256, id % 256]
            case PubRel(id) => Body(p) == [id / 256, id % 256]
            case PubComp(id) => Body(p) == [id / 256, id % 256]
            case UnsubAck(id) => Body(p) == [id / 256, id % 256]
            case SubAck(id, qos) =>
              Body(p) == [id / 256, id % 256, match qos case AtMostOnce => 0 case AtLeastOnce => 1 case ExactlyOnce => 2]
            case PingReq => Body(p) == []
            case PingResp => Body(p) == []
            case Disconnect => Body(p) == []
            case _ => true
  {
  }

  /** SUBSCRIBE and UNSUBSCRIBE (sections 3.8 and 3.10): identifier, filter, requested QoS. */
  lemma {:induction false} FilterBytes(id: u16, filter: Bytes, qos: QoS)
    ensures Body(Subscribe(id, filter, qos)) ==
            [id / 256, id % 256]
            + (Field(filter) + [match qos case AtMostOnce => 0 case AtLeastOnce => 1 case ExactlyOnce => 2])
    ensures Body(Unsubscribe(id, filter)) == [id / 256, id % 256] + Field(filter)
  {
  }

  // ---------- CONNECT flags ----------

  /** The bits of the flags byte (section 3.1.2.3). */
  lemma {:induction false} FlagBits(flags: byte)
    ensures Bit(flags, 0) <==> flags % 2 == 1
    ensures Bit(flags, 1) <==> flags % 4 >= 2
    ensures Bit(flags, 2) <==> flags % 8 >= 4
    ensures Bit(flags, 6) <==> flags % 128 >= 64
    ensures Bit(flags, 7) <==> flags >= 128
  {
    LowBits(flags);
    HighBits(flags);
  }

  lemma {:induction false} LowBits(flags: byte)
    ensures flags / 2 % 2 == 1 <==> flags % 4 >= 2
    ensures flags / 4 % 2 == 1 <==> flags % 8 >= 4
  {
  }

  lemma {:induction false} HighBits(flags: byte)
    ensures flags / 64 % 2 == 1 <==> flags % 128 >= 64
    ensures flags / 128 % 2 == 1 <==> flags >= 128
  {
  }

  /** Which CONNECT packets are well formed. */
  lemma {:induction false} WellFormedConnect(build: Build, c: ConnectPacket)
    ensures ConnectOk(build, c) <==>
            && c.flags % 2 == 0
            && Utf8.Valid(c.clientId) && |c.clientId| <= 23
            && (c.clientId == [] ==> c.flags % 4 >= 2)
            && (c.willTopic.Some? <==> c.flags % 8 >= 4)
            && (c.willTopic.Some? ==> 0 < |c.willTopic.value| <= build.topic && Utf8.Valid(c.willTopic.value))
            && (c.willPayload.Some? <==> c.flags % 8 >= 4)
            && (c.willPayload.Some? ==> |c.willPayload.value| <= build.payload)
            && (c.username.Some? <==> c.flags >= 128)
            && (c.username.Some? ==> Utf8.Valid(c.username.value) && |c.username.value| <= build.topic)
            && (c.password.Some? <==> c.flags % 128 >= 64)
            && (c.password.Some? ==> |c.password.value| <= build.topic)
  {
    FlagBits(c.flags);
  }

  /** The presence of each field of a decoded CONNECT is its bit of the flags. */
  lemma {:induction false} DecodedConnectFlags(build: Build, n: nat, s: Bytes)
    requires DecodeConnect(build, n, s).Success?
    ensures var p := DecodeConnect(build, n, s).value;
            && p.Connect?
            && var c := p.connect;
               && c.flags % 2 == 0
               && (c.username.Some? <==> c.flags >= 128)
               && (c.password.Some? <==> c.flags % 128 >= 64)
               && (c.willTopic.Some? <==> c.flags % 8 >= 4)
               && (c.willPayload.Some? <==> c.flags % 8 >= 4)
               && (c.clientId == [] ==> c.flags % 4 >= 2)
               && |c.clientId| <= 23
  {
    var (head, s1) := TakeConnectHead(s).value;
    var (will, s2) := TakeWill(build, Bit(head.flags, 2), s1).value;
    var (username, s3) := TakeUsername(build, Bit(head.flags, 7), s2).value;
    ConnectHeadShape(s);
    WillReverse(build, Bit(head.flags, 2), s1);
    UsernameReverse(build, Bit(head.flags, 7), s2);
    PasswordReverse(build, Bit(head.flags, 6), s3);
    FlagBits(head.flags);
  }

  /** The same of whatever `Packet::decode` returns. */
  lemma {:induction false} DecodedFlags(build: Build, bytes: Bytes)
    requires Decode(build, bytes).Success? && Decode(build, bytes).value.Connect?
    ensures var c := Decode(build, bytes).value.connect;
            && c.flags % 2 == 0
            && (c.username.Some? <==> c.flags >= 128)
            && (c.password.Some? <==> c.flags % 128 >= 64)
            && (c.willTopic.Some? <==> c.flags % 8 >= 4)
            && (c.willPayload.Some? <==> c.flags % 8 >= 4)
            && (c.clientId == [] ==> c.flags % 4 >= 2)
            && |c.clientId| <= 23
  {
    DecodedKind(build, bytes);
    var (n, s) := TakeLength(bytes[1..]).value;
    DecodeByLength(build, bytes, n, s);
    DecodedConnectFlags(build, n, s);
  }

  lemma {:induction false} DecodedKind(build: Build, bytes: Bytes)
    requires Decode(build, bytes).Success? && Decode(build, bytes).value.Connect?
    ensures bytes != [] && bytes[0] / 16 == 1 && TakeLength(bytes[1..]).Success?
  {
    if bytes[0] / 16 in {3, 8, 10} {
      OtherVariableKinds(build, bytes);
    }
  }

  lemma {:induction false} OtherVariableKinds(build: Build, bytes: Bytes)
    requires bytes != [] && bytes[0] / 16 in {3, 8, 10} && Decode(build, bytes).Success?
    ensures !Decode(build, bytes).value.Connect?
  {
  }
}
