/** The broker as a pure state machine: what one received packet does, and what
    draining all receive queues does. */
module BrokerModel {
  import opened Basics
  import opened BrokerTypes
  import opened Packets
  import Sessions = SessionModel
  import Topics = TopicIndex

  /** `inbox` logs every packet ever accepted from a client, with its sender. */
  datatype Broker = Broker(
    topics: seq<Topics.TopicEntry>,
    sessions: seq<Sessions.Session>,
    inbox: seq<(SessionId, Packet)>)

  datatype Step = Step(b: Broker, status: Status)

  /** A packet on its way into the transmit queue of `to`. */
  datatype Message = Message(to: SessionId, item: Sessions.Outbound)

  /** The broker's invariant: both registries are well formed and agree on who exists. */
  ghost predicate Inv(lim: Limits, b: Broker) {
    && Topics.WellFormed(lim, b.topics)
    && Sessions.WellFormed(lim, b.sessions)
    && SubscribersAreLive(b)
  }

  ghost predicate SubscribersAreLive(b: Broker) {
    forall p :: p in Topics.Pairs(b.topics) ==> Sessions.Live(b.sessions, p.1)
  }

  // ---------- one packet ----------

  function Copies(subs: seq<SessionId>, copy: Sessions.Outbound): (msgs: seq<Message>)
    ensures |msgs| == |subs|
    ensures forall i :: 0 <= i < |subs| ==> msgs[i] == Message(subs[i], copy)
  {
    seq(|subs|, i requires 0 <= i < |subs| => Message(subs[i], copy))
  }

  predicate WantsAck(p: PublishPacket) {
    p.qos != AtMostOnce && p.packetId.Some?
  }

  /** Everything a packet asks the broker to send, in the order it is queued. */
  function Replies(lim: Limits, ts: seq<Topics.TopicEntry>, from: SessionId, item: Sessions.Inbound): seq<Message> {
    var reply := (p: Packet) => Message(from, Sessions.Outbound(p, from, item.n));
    match item.packet
    case Connect(_) => [reply(ConnAck(false, Accepted))]
    case Publish(p) =>
      Copies(Topics.Subscribers(lim, ts, p.topic), Sessions.Outbound(item.packet, from, item.n))
      + if WantsAck(p) then [reply(PubAck(p.packetId.value))] else []
    case Subscribe(packetId, _, qos) => [reply(SubAck(packetId, qos))]
    case PingReq => [reply(PingResp)]
    case _ => []
  }

  /** What a packet changes before anything is sent. */
  function Prepare(lim: Limits, b: Broker, from: SessionId, item: Sessions.Inbound): Step {
    match item.packet
    case Connect(c) =>
      if !Sessions.Live(b.sessions, from) then Step(b, Err(SessionNotFound(from)))
      else
        var s1 := if c.clientId == [] then b.sessions else Sessions.SetClientId(b.sessions, from, c.clientId).0;
        var s2 := Sessions.SetKeepAlive(s1, from, c.keepAlive).0;
        Step(b.(sessions := Sessions.SetState(s2, from, Sessions.Connected).0), Ok)
    case Subscribe(_, filter, _) =>
      var (ts, status) := Topics.Subscribe(lim, b.topics, from, filter);
      Step(b.(topics := ts), status)
    case Disconnect =>
      var (ss, status) := Sessions.SetState(b.sessions, from, Sessions.Disconnected);
      Step(b.(sessions := ss), status)
    case _ => Step(b, Ok)
  }

  datatype Delivery = Delivery(sessions: seq<Sessions.Session>, status: Status, sent: nat)

  /** Queues messages one by one and stops at the first that cannot be queued. */
  function Deliver(lim: Limits, ss: seq<Sessions.Session>, msgs: seq<Message>): Delivery
    decreases |msgs|
  {
    if msgs == [] then Delivery(ss, Ok, 0)
    else
      var (ss1, status) := Sessions.QueueTx(lim, ss, msgs[0].to, msgs[0].item);
      if status.Err? then Delivery(ss1, status, 0)
      else
        var rest := Deliver(lim, ss1, msgs[1..]);
        rest.(sent := rest.sent + 1)
  }

  function Handle(lim: Limits, b: Broker, from: SessionId, item: Sessions.Inbound): Step {
    var prepared := Prepare(lim, b, from, item);
    if prepared.status.Err? then prepared
    else
      var d := Deliver(lim, prepared.b.sessions, Replies(lim, prepared.b.topics, from, item));
      Step(prepared.b.(sessions := d.sessions), d.status)
  }

  // ---------- all received packets ----------

  /** All received packets in the order they are handled: session by session in
      registry order, each session's queue front to back. */
  function Agenda(ss: seq<Sessions.Session>): seq<(SessionId, Sessions.Inbound)> {
    if ss == [] then [] else Queue(ss[0].id, ss[0].rx) + Agenda(ss[1..])
  }

  function Queue(id: SessionId, rx: seq<Sessions.Inbound>): (r: seq<(SessionId, Sessions.Inbound)>)
    ensures |r| == |rx| && forall i :: 0 <= i < |rx| ==> r[i] == (id, rx[i])
  {
    seq(|rx|, i requires 0 <= i < |rx| => (id, rx[i]))
  }

  /** `handled` counts the packets handled without error. */
  datatype Outcome = Outcome(b: Broker, status: Status, handled: nat)

  /** Handles a list of packets, each taken off its queue first; stops at an error. */
  function Fold(lim: Limits, b: Broker, agenda: seq<(SessionId, Sessions.Inbound)>): Outcome
    decreases |agenda|
  {
    if agenda == [] then Outcome(b, Ok, 0)
    else
      var (from, item) := agenda[0];
      var step := Handle(lim, b.(sessions := Sessions.DropRx(b.sessions, from)), from, item);
      if step.status.Err? then Outcome(step.b, step.status, 0)
      else
        var rest := Fold(lim, step.b, agenda[1..]);
        rest.(handled := rest.handled + 1)
  }

  function Process(lim: Limits, b: Broker): Outcome {
    Fold(lim, b, Agenda(b.sessions))
  }

  // ---------- the other operations ----------

  const EMPTY: Broker := Broker([], [], [])

  function RegisterSession(lim: Limits, b: Broker, id: SessionId, keepAlive: u16, now: nat): Step {
    var (ss, status) := Sessions.Register(lim, b.sessions, id, keepAlive, now);
    Step(b.(sessions := ss), status)
  }

  function MarkDisconnected(b: Broker, id: SessionId): Step {
    var (ss, status) := Sessions.SetState(b.sessions, id, Sessions.Disconnected);
    Step(b.(sessions := ss), status)
  }

  /** Queues a received packet. The client counts as heard from even if the packet
      does not fit; only an accepted packet enters the log. */
  function Receive(lim: Limits, b: Broker, id: SessionId, packet: Packet, now: nat): Step {
    var (ss, found) := Sessions.SetActivity(b.sessions, id, now);
    if found.Err? then Step(b, found)
    else
      var (ss1, status) := Sessions.QueueRx(lim, ss, id, Sessions.Inbound(packet, |b.inbox|));
      Step(Broker(b.topics, ss1, if status.Ok? then b.inbox + [(id, packet)] else b.inbox), status)
  }

  /** Removes sessions together with their subscriptions. */
  function Purge(b: Broker, gone: set<SessionId>): Broker {
    b.(topics := Topics.Restrict(b.topics, gone), sessions := Sessions.Without(b.sessions, gone))
  }

  function Cleanup(b: Broker, now: nat): Broker {
    Purge(b, Sessions.DoomedIds(b.sessions, now))
  }

  // ---------- delivery in closed form ----------

  /** The messages for one session, in order. */
  function Addressed(id: SessionId, msgs: seq<Message>): seq<Sessions.Outbound> {
    if msgs == [] then []
    else (if msgs[0].to == id then [msgs[0].item] else []) + Addressed(id, msgs[1..])
  }

  ghost predicate AllLive(ss: seq<Sessions.Session>, msgs: seq<Message>) {
    forall j :: 0 <= j < |msgs| ==> Sessions.Live(ss, msgs[j].to)
  }

  /** There is room for the j-th message after all earlier ones were queued. */
  ghost predicate Room(lim: Limits, ss: seq<Sessions.Session>, msgs: seq<Message>, j: nat)
    requires j < |msgs|
  {
    |Sessions.Tx(ss, msgs[j].to)| + |Addressed(msgs[j].to, msgs[..j])| < lim.queueSize
  }

  lemma {:induction false} AddressedStep(id: SessionId, msgs: seq<Message>, k: nat)
    requires 0 < k <= |msgs|
    ensures Addressed(id, msgs[..k]) ==
            (if msgs[0].to == id then [msgs[0].item] else []) + Addressed(id, msgs[1..][..k - 1])
  {
    assert msgs[..k][1..] == msgs[1..][..k - 1];
  }

  /** What a delivery amounts to: it stops exactly at the first message without room;
      every session then holds what it held, followed by the messages before that one
      addressed to it. */
  ghost predicate DeliversExactly(lim: Limits, ss: seq<Sessions.Session>, msgs: seq<Message>, d: Delivery) {
    && d.sent <= |msgs|
    && Sessions.SameButTx(ss, d.sessions)
    && (forall i :: 0 <= i < |ss| ==> d.sessions[i].tx == ss[i].tx + Addressed(ss[i].id, msgs[..d.sent]))
    && (forall j :: 0 <= j < d.sent ==> Room(lim, ss, msgs, j))
    && (d.sent < |msgs| ==> !Room(lim, ss, msgs, d.sent))
    && d.status == if d.sent == |msgs| then Ok else Err(SessionQueueFull(msgs[d.sent].to))
  }

  lemma {:induction false} DeliverExact(lim: Limits, ss: seq<Sessions.Session>, msgs: seq<Message>)
    requires Sessions.UniqueIds(ss) && AllLive(ss, msgs)
    ensures DeliversExactly(lim, ss, msgs, Deliver(lim, ss, msgs))
    decreases |msgs|
  {
    if msgs == [] {
      assert forall i :: 0 <= i < |ss| ==> Addressed(ss[i].id, msgs[..0]) == [];
    } else {
      var (ss1, status) := Sessions.QueueTx(lim, ss, msgs[0].to, msgs[0].item);
      assert Addressed(msgs[0].to, msgs[..0]) == [];
      if status.Err? {
        assert forall i :: 0 <= i < |ss| ==> Addressed(ss[i].id, msgs[..0]) == [];
      } else {
        forall j | 0 <= j < |msgs| - 1
          ensures Sessions.Live(ss1, msgs[1..][j].to)
        {
          Sessions.FindSameIds(ss, ss1, msgs[j + 1].to);
        }
        DeliverExact(lim, ss1, msgs[1..]);
        DeliverFirst(lim, ss, msgs, ss1, Deliver(lim, ss1, msgs[1..]));
      }
    }
  }

  /** The inductive step: the first message had room. */
  lemma {:induction false} DeliverFirst(
      lim: Limits, ss: seq<Sessions.Session>, msgs: seq<Message>, ss1: seq<Sessions.Session>, rest: Delivery)
    requires Sessions.UniqueIds(ss) && msgs != []
    requires Sessions.QueueTx(lim, ss, msgs[0].to, msgs[0].item) == (ss1, Ok)
    requires DeliversExactly(lim, ss1, msgs[1..], rest)
    ensures DeliversExactly(lim, ss, msgs, rest.(sent := rest.sent + 1))
  {
    forall i | 0 <= i < |ss|
      ensures rest.sessions[i] == ss[i].(tx := ss[i].tx + Addressed(ss[i].id, msgs[..rest.sent + 1]))
    {
      FirstTx(lim, ss, msgs, ss1, rest, i);
    }
    FirstRoom(lim, ss, msgs, ss1, rest);
  }

  lemma {:induction false} FirstTx(
      lim: Limits, ss: seq<Sessions.Session>, msgs: seq<Message>, ss1: seq<Sessions.Session>, rest: Delivery, i: nat)
    requires Sessions.UniqueIds(ss) && msgs != [] && i < |ss|
    requires Sessions.QueueTx(lim, ss, msgs[0].to, msgs[0].item) == (ss1, Ok)
    requires DeliversExactly(lim, ss1, msgs[1..], rest)
    ensures rest.sessions[i] == ss[i].(tx := ss[i].tx + Addressed(ss[i].id, msgs[..rest.sent + 1]))
  {
    TxShift(lim, ss, msgs, ss1, i);
    AddressedStep(ss[i].id, msgs, rest.sent + 1);
    Assoc(ss[i].tx, if msgs[0].to == ss[i].id then [msgs[0].item] else [], Addressed(ss[i].id, msgs[1..][..rest.sent]));
  }

  lemma {:induction false} FirstRoom(
      lim: Limits, ss: seq<Sessions.Session>, msgs: seq<Message>, ss1: seq<Sessions.Session>, rest: Delivery)
    requires Sessions.UniqueIds(ss) && msgs != []
    requires Sessions.QueueTx(lim, ss, msgs[0].to, msgs[0].item) == (ss1, Ok)
    requires DeliversExactly(lim, ss1, msgs[1..], rest)
    ensures forall j :: 0 <= j < rest.sent + 1 ==> Room(lim, ss, msgs, j)
    ensures rest.sent + 1 < |msgs| ==> !Room(lim, ss, msgs, rest.sent + 1)
  {
    forall j | 0 <= j < rest.sent + 1
      ensures Room(lim, ss, msgs, j)
    {
      if j == 0 {
        assert Addressed(msgs[0].to, msgs[..0]) == [];
      } else {
        RoomShift(lim, ss, msgs, ss1, j - 1);
      }
    }
    if rest.sent + 1 < |msgs| {
      RoomShift(lim, ss, msgs, ss1, rest.sent);
    }
  }

  lemma {:induction false} TxShift(
      lim: Limits, ss: seq<Sessions.Session>, msgs: seq<Message>, ss1: seq<Sessions.Session>, i: nat)
    requires Sessions.UniqueIds(ss) && msgs != [] && i < |ss|
    requires Sessions.QueueTx(lim, ss, msgs[0].to, msgs[0].item) == (ss1, Ok)
    ensures ss1[i] == ss[i].(tx := ss[i].tx + if msgs[0].to == ss[i].id then [msgs[0].item] else [])
  {
    Sessions.FindAt(ss, i);
  }

  lemma {:induction false} RoomShift(
      lim: Limits, ss: seq<Sessions.Session>, msgs: seq<Message>, ss1: seq<Sessions.Session>, j: nat)
    requires Sessions.UniqueIds(ss) && j + 1 < |msgs|
    requires Sessions.QueueTx(lim, ss, msgs[0].to, msgs[0].item) == (ss1, Ok)
    ensures Room(lim, ss1, msgs[1..], j) <==> Room(lim, ss, msgs, j + 1)
  {
    var to := msgs[j + 1].to;
    Sessions.FindSameIds(ss, ss1, to);
    AddressedStep(to, msgs, j + 1);
    var i := Sessions.Find(ss, to);
    if i < |ss| {
      TxShift(lim, ss, msgs, ss1, i);
    }
  }
}
