/** The packets of MQTT 3.1.1 as values. Strings and payloads are the visible contents
    of the containers that hold them. */
module Packets {
  import opened Basics

  type u16 = x: int | 0 <= x < 0x1_0000

  datatype QoS = AtMostOnce | AtLeastOnce | ExactlyOnce

  datatype ReturnCode =
    | Accepted
    | UnacceptableProtocolVersion
    | IdentifierRejected
    | ServerUnavailable
    | BadUserNameOrPassword
    | NotAuthorized

  datatype ConnectPacket = ConnectPacket(
    flags: byte,
    keepAlive: u16,
    clientId: Bytes,
    willTopic: Option<Bytes>,
    willPayload: Option<Bytes>,
    username: Option<Bytes>,
    password: Option<Bytes>)

  datatype PublishPacket = PublishPacket(
    topic: Bytes,
    packetId: Option<u16>,
    payload: Bytes,
    qos: QoS,
    dup: bool,
    retain: bool)

  datatype Packet =
    | Connect(connect: ConnectPacket)
    | ConnAck(sessionPresent: bool, returnCode: ReturnCode)
    | Publish(publish: PublishPacket)
    | PubAck(packetId: u16)
    | PubRec(packetId: u16)
    | PubRel(packetId: u16)
    | PubComp(packetId: u16)
    | Subscribe(packetId: u16, filter: Bytes, qos: QoS)
    | SubAck(packetId: u16, qos: QoS)
    | Unsubscribe(packetId: u16, filter: Bytes)
    | UnsubAck(packetId: u16)
    | PingReq
    | PingResp
    | Disconnect
}

/** Capacities and error conditions shared by the two registries and the broker. */
module BrokerTypes {
  import opened Basics

  /** The const generics of the broker, which size its containers. */
  datatype Limits = Limits(queueSize: nat, maxSessions: nat, maxTopics: nat, maxSubscribers: nat) {
    /** The containers count their elements in a `u16`. */
    predicate Ok() {
      queueSize <= 0xFFFF && maxSessions <= 0xFFFF && maxTopics <= 0xFFFF && maxSubscribers <= 0xFFFF
    }
  }

  datatype BrokerError =
    | SessionNotFound(id: SessionId)
    | SessionAlreadyExists(id: SessionId)
    | MaxSessionsReached
    | SessionQueueFull(id: SessionId)
    | MaxTopicsReached
    | MaxSubscribersPerTopicReached
    | BufferFull

  datatype Status = Ok | Err(error: BrokerError)
}
