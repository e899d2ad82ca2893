/** The broker that mutates its two registries. Every method is proved to do, on the
    value `Model()`, what the pure state machine says, and to keep the invariant. */
module Brokers {
  import opened Basics
  import opened BrokerTypes
  import opened Packets
  import opened BrokerModel
  import opened BrokerInvariant
  import opened TopicRegistries
  import opened SessionRegistries
  import Runs
  import Sessions = SessionModel
  import Topics = TopicIndex

  /** Draining from a state where the k-th session is the first with received packets. */
  lemma {:induction false} DrainStep(lim: Limits, b: Broker, k: nat)
    requires Inv(lim, b) && k < |b.sessions| && b.sessions[k].rx != []
    requires forall i :: 0 <= i < k ==> b.sessions[i].rx == []
    ensures var from, item := b.sessions[k].id, b.sessions[k].rx[0];
            var b1 := b.(sessions := Sessions.DropRx(b.sessions, from));
            var step := Handle(lim, b1, from, item);
            && Inv(lim, b1) && Sessions.Live(b1.sessions, from)
            && Inv(lim, step.b)
            && step.b.inbox == b.inbox
            && |Agenda(step.b.sessions)| < |Agenda(b.sessions)|
            && |step.b.sessions| == |b.sessions|
            && (forall i :: 0 <= i < |b.sessions| ==> step.b.sessions[i].id == b.sessions[i].id)
            && (forall i :: 0 <= i < k ==> step.b.sessions[i].rx == [])
            && Process(lim, b).b == (if step.status.Err? then step.b else Process(lim, step.b).b)
            && Process(lim, b).status == (if step.status.Err? then step.status else Process(lim, step.b).status)
  {
    var from, item := b.sessions[k].id, b.sessions[k].rx[0];
    var b1 := b.(sessions := Sessions.DropRx(b.sessions, from));
    AgendaHead(b.sessions, k);
    TakeNext(lim, b);
    FoldStep(lim, b);
    HandleKeepsInv(lim, b1, from, item);
  }

  lemma {:induction false} DrainEnd(lim: Limits, b: Broker)
    requires forall i :: 0 <= i < |b.sessions| ==> b.sessions[i].rx == []
    ensures Process(lim, b) == Outcome(b, Ok, 0)
  {
    AgendaEmpty(b.sessions);
  }

  lemma {:induction false} DeliverUnroll(lim: Limits, ss: seq<Sessions.Session>, msgs: seq<Message>, i: nat)
    requires i < |msgs|
    ensures var (ss1, status) := Sessions.QueueTx(lim, ss, msgs[i].to, msgs[i].item);
            var d, rest := Deliver(lim, ss, msgs[i..]), Deliver(lim, ss1, msgs[i + 1..]);
            && d.sessions == (if status.Err? then ss1 else rest.sessions)
            && d.status == (if status.Err? then status else rest.status)
  {
    assert msgs[i..][1..] == msgs[i + 1..];
  }

  lemma {:induction false} DeliverOne(lim: Limits, ss: seq<Sessions.Session>, m: Message)
    ensures var d, (ss1, status) := Deliver(lim, ss, [m]), Sessions.QueueTx(lim, ss, m.to, m.item);
            d.sessions == ss1 && d.status == status
  {
    assert [m][1..] == [];
  }

  lemma {:induction false} PurgeCompose(b: Broker, x: set<SessionId>, y: set<SessionId>)
    ensures Purge(Purge(b, x), y) == Purge(b, x + y)
  {
    Topics.RestrictCompose(b.topics, x, y);
    Sessions.WithoutCompose(b.sessions, x, y);
  }

  lemma {:induction false} PurgeNobody(lim: Limits, b: Broker)
    requires Inv(lim, b)
    ensures Purge(b, {}) == b
  {
    Topics.RestrictNobody(b.topics);
    Sessions.WithoutNobody(b.sessions);
  }

  class PicoBroker {
    const lim: Limits
    const topics: TopicRegistry
    const sessions: SessionRegistry
    ghost var inbox: seq<(SessionId, Packet)>

    ghost function Model(): Broker
      reads this, topics, sessions
    {
      Broker(topics.topics, sessions.model, inbox)
    }

    /** Each registry is in order for itself. */
    ghost predicate Parts()
      reads this, topics, sessions
    {
      && topics.lim == sessions.lim == lim
      && sessions.Valid()
      && topics.Valid()
    }

    /** And they agree on who exists. */
    ghost predicate Valid()
      reads this, topics, sessions
    {
      Parts() && Inv(lim, Model())
    }

    constructor (lim: Limits)
      requires lim.Ok()
      ensures Valid() && fresh(topics) && fresh(sessions) && this.lim == lim
      ensures Model() == EMPTY
    {
      this.lim := lim;
      topics := new TopicRegistry(lim);
      sessions := new SessionRegistry(lim);
      inbox := [];
    }

    method RegisterNewSession(id: SessionId, keepAlive: u16, now: nat) returns (status: Status)
      requires Valid()
      modifies this, topics, sessions
      ensures Valid() && Step(Model(), status) == RegisterSession(lim, old(Model()), id, keepAlive, now)
    {
      Runs.RegisterKeepsInv(lim, Model(), id, keepAlive, now);
      status := sessions.RegisterNewSession(id, keepAlive, now);
    }

    method MarkSessionDisconnected(id: SessionId) returns (status: Status)
      requires Parts()
      modifies this, topics, sessions
      ensures Parts() && Step(Model(), status) == MarkDisconnected(old(Model()), id)
      ensures old(Valid()) ==> Valid()
    {
      if Inv(lim, Model()) {
        SameQueuesKeepInv(lim, Model(), MarkDisconnected(Model(), id).b.sessions);
      }
      status := sessions.UpdateState(id, Sessions.Disconnected);
    }

    method RemoveSession(id: SessionId) returns (removed: bool)
      requires Valid()
      modifies this, topics, sessions
      ensures Valid() && Model() == Purge(old(Model()), {id})
      ensures removed <==> Sessions.Live(old(sessions.model), id)
    {
      Runs.PurgeKeepsInv(lim, Model(), {id});
      var count := topics.UnregisterAll(id);
      removed := sessions.RemoveSession(id);
    }

    method QueuePacketReceivedFromClient(id: SessionId, packet: Packet, now: nat) returns (status: Status)
      requires Valid()
      modifies this, topics, sessions
      ensures Valid() && Step(Model(), status) == Receive(lim, old(Model()), id, packet, now)
    {
      Runs.ReceiveKeepsInv(lim, Model(), id, packet, now);
      status := sessions.UpdateSessionActivity(id, now);
      if status.Err? {
        return;
      }
      status := sessions.QueueRxPacket(id, packet, |inbox|);
      if status.Ok? {
        inbox := inbox + [(id, packet)];
      }
    }

    method DequeuePacketToSendToClient(id: SessionId) returns (status: Status, packet: Option<Packet>)
      requires Valid()
      modifies this, topics, sessions
      ensures Valid() && Model() == old(Model()).(sessions := Sessions.DropTx(old(sessions.model), id))
      ensures status == if Sessions.Live(old(sessions.model), id) then Ok else Err(SessionNotFound(id))
      ensures packet == var tx := Sessions.Tx(old(sessions.model), id); if tx == [] then None else Some(tx[0].packet)
    {
      LiveSameIds(Model(), Sessions.DropTx(sessions.model, id));
      status, packet := sessions.DequeueTxPacket(id);
    }

    /** Handles every received packet, session by session; stops at the first error. */
    method ProcessAllSessionPackets() returns (status: Status)
      requires Valid()
      modifies this, topics, sessions
      ensures Valid()
      ensures Model() == Process(lim, old(Model())).b && status == Process(lim, old(Model())).status
    {
      ghost var goal := Process(lim, Model());
      var ids := sessions.GetAllSessions();
      for k := 0 to |ids|
        invariant Valid() && HasIds(ids) && DrainedBefore(k)
        invariant Process(lim, Model()).b == goal.b && Process(lim, Model()).status == goal.status
      {
        var stopped;
        stopped, status := DrainSession(ids, k);
        if stopped {
          return;
        }
      }
      DrainEnd(lim, Model());
      return Ok;
    }

    ghost predicate HasIds(ids: seq<SessionId>)
      reads this, sessions
    {
      |ids| == |sessions.model| && forall i :: 0 <= i < |ids| ==> ids[i] == sessions.model[i].id
    }

    ghost predicate DrainedBefore(k: nat)
      reads this, sessions
    {
      k <= |sessions.model| && forall i :: 0 <= i < k ==> sessions.model[i].rx == []
    }

    /** The inner loop: one session's receive queue, front to back. */
    method DrainSession(ids: seq<SessionId>, k: nat) returns (stopped: bool, status: Status)
      requires Valid() && HasIds(ids) && DrainedBefore(k) && k < |ids|
      modifies this, topics, sessions
      ensures Valid() && HasIds(ids)
      ensures stopped ==>
                Model() == Process(lim, old(Model())).b && status == Process(lim, old(Model())).status
      ensures !stopped ==>
                && DrainedBefore(k + 1)
                && Process(lim, Model()).b == Process(lim, old(Model())).b
                && Process(lim, Model()).status == Process(lim, old(Model())).status
    {
      ghost var goal := Process(lim, Model());
      while true
        invariant Valid() && HasIds(ids) && DrainedBefore(k)
        invariant Process(lim, Model()).b == goal.b && Process(lim, Model()).status == goal.status
        decreases |Agenda(sessions.model)|
      {
        ghost var b := Model();
        Sessions.FindAt(sessions.model, k);
        if sessions.model[k].rx != [] {
          DrainStep(lim, b, k);
        }
        var packet;
        status, packet := sessions.DequeueRxPacket(ids[k]);
        if status.Err? {
          return true, status;
        }
        if packet.None? {
          return false, Ok;
        }
        status := HandlePacket(ids[k], packet.value, b.sessions[k].rx[0].n);
        if status.Err? {
          return true, status;
        }
      }
    }

    /** The dispatch on the packet type, for any session id. */
    method HandlePacket(id: SessionId, packet: Packet, ghost n: nat) returns (status: Status)
      requires Parts()
      modifies this, topics, sessions
      ensures Parts() && Step(Model(), status) == Handle(lim, old(Model()), id, Sessions.Inbound(packet, n))
      ensures old(Valid() && (packet.Subscribe? ==> Sessions.Live(sessions.model, id))) ==> Valid()
    {
      match packet
      case Connect(connect) =>
        status := HandleConnect(id, connect, n);
      case Publish(publish) =>
        status := HandlePublish(id, publish, n);
      case Subscribe(packetId, filter, qos) =>
        status := HandleSubscribe(id, packetId, filter, qos, n);
      case PingReq =>
        status := HandlePingreq(id, n);
      case Disconnect =>
        status := HandleDisconnect(id, n);
      case _ =>
        status := Ok;
    }

    /** The invariant after handling a packet. */
    lemma {:induction false} HandledKeepsInv(b: Broker, id: SessionId, item: Sessions.Inbound)
      requires Model() == Handle(lim, b, id, item).b
      ensures Inv(lim, b) && (Sessions.Live(b.sessions, id) || !Subscribes(lim, b, id, item)) ==> Inv(lim, Model())
    {
      if Inv(lim, b) {
        HandleKeepsInvIff(lim, b, id, item);
      }
    }

    method HandlePingreq(id: SessionId, ghost n: nat) returns (status: Status)
      requires Parts()
      modifies this, topics, sessions
      ensures Parts() && Step(Model(), status) == Handle(lim, old(Model()), id, Sessions.Inbound(PingReq, n))
      ensures old(Valid()) ==> Valid()
    {
      ghost var b := Model();
      DeliverOne(lim, sessions.model, Message(id, Sessions.Outbound(PingResp, id, n)));
      status := sessions.QueueTxPacket(id, PingResp, id, n);
      HandledKeepsInv(b, id, Sessions.Inbound(PingReq, n));
    }

    method HandleDisconnect(id: SessionId, ghost n: nat) returns (status: Status)
      requires Parts()
      modifies this, topics, sessions
      ensures Parts() && Step(Model(), status) == Handle(lim, old(Model()), id, Sessions.Inbound(Disconnect, n))
      ensures old(Valid()) ==> Valid()
    {
      status := MarkSessionDisconnected(id);
    }

    method HandleConnect(id: SessionId, connect: ConnectPacket, ghost n: nat) returns (status: Status)
      requires Parts()
      modifies this, topics, sessions
      ensures Parts()
      ensures Step(Model(), status) == Handle(lim, old(Model()), id, Sessions.Inbound(Connect(connect), n))
      ensures old(Valid()) ==> Valid()
    {
      ghost var item := Sessions.Inbound(Connect(connect), n);
      ghost var b0, prepared := Model(), Prepare(lim, Model(), id, item).b;
      status := UpdateFromConnect(id, connect, n);
      if status.Ok? {
        DeliverOne(lim, prepared.sessions, Message(id, Sessions.Outbound(ConnAck(false, Accepted), id, n)));
        status := sessions.QueueTxPacket(id, ConnAck(false, Accepted), id, n);
      }
      HandledKeepsInv(b0, id, item);
    }

    /** The field updates of `handle_connect`. */
    method UpdateFromConnect(id: SessionId, connect: ConnectPacket, ghost n: nat) returns (status: Status)
      requires sessions.Valid()
      modifies sessions
      ensures sessions.Valid()
      ensures Step(Model(), status) == Prepare(lim, old(Model()), id, Sessions.Inbound(Connect(connect), n))
    {
      ghost var ss := sessions.model;
      if connect.clientId != [] {
        status := sessions.UpdateClientId(id, connect.clientId);
        if status.Err? {
          return;
        }
      }
      Sessions.FindSameIds(ss, sessions.model, id);
      status := sessions.UpdateKeepAlive(id, connect.keepAlive);
      if status.Err? {
        return;
      }
      Sessions.FindSameIds(ss, sessions.model, id);
      status := sessions.UpdateState(id, Sessions.Connected);
    }

    method HandlePublish(id: SessionId, publish: PublishPacket, ghost n: nat) returns (status: Status)
      requires Parts()
      modifies this, topics, sessions
      ensures Parts()
      ensures Step(Model(), status) == Handle(lim, old(Model()), id, Sessions.Inbound(Publish(publish), n))
      ensures old(Valid()) ==> Valid()
    {
      ghost var b, item := Model(), Sessions.Inbound(Publish(publish), n);
      ghost var msgs := Replies(lim, topics.topics, id, item);
      var subscribers := topics.GetSubscribers(publish.topic);
      status := QueueCopies(id, publish, subscribers, n, msgs);
      HandledKeepsInv(b, id, item);
    }

    /** The fan-out loop and the PUBACK behind it. */
    method QueueCopies(
        id: SessionId, publish: PublishPacket, subscribers: seq<SessionId>, ghost n: nat, ghost msgs: seq<Message>)
      returns (status: Status)
      requires sessions.Valid() && sessions.lim == lim
      requires |msgs| == |subscribers| + if WantsAck(publish) then 1 else 0
      requires forall i :: 0 <= i < |subscribers| ==>
                 msgs[i] == Message(subscribers[i], Sessions.Outbound(Publish(publish), id, n))
      requires WantsAck(publish) ==>
                 msgs[|subscribers|] == Message(id, Sessions.Outbound(PubAck(publish.packetId.value), id, n))
      modifies sessions
      ensures sessions.Valid()
      ensures sessions.model == Deliver(lim, old(sessions.model), msgs).sessions
      ensures status == Deliver(lim, old(sessions.model), msgs).status
    {
      ghost var d := Deliver(lim, sessions.model, msgs);
      assert msgs[0..] == msgs;
      for i := 0 to |subscribers|
        invariant sessions.Valid()
        invariant Deliver(lim, sessions.model, msgs[i..]).sessions == d.sessions
        invariant Deliver(lim, sessions.model, msgs[i..]).status == d.status
      {
        DeliverUnroll(lim, sessions.model, msgs, i);
        status := sessions.QueueTxPacket(subscribers[i], Publish(publish), id, n);
        if status.Err? {
          return;
        }
      }
      if publish.qos != AtMostOnce && publish.packetId.Some? {
        DeliverUnroll(lim, sessions.model, msgs, |subscribers|);
        status := sessions.QueueTxPacket(id, PubAck(publish.packetId.value), id, n);
        if status.Err? {
          return;
        }
      }
      status := Ok;
    }

    method HandleSubscribe(id: SessionId, packetId: u16, filter: Bytes, qos: QoS, ghost n: nat) returns (status: Status)
      requires Parts()
      modifies this, topics, sessions
      ensures Parts()
      ensures Step(Model(), status) ==
              Handle(lim, old(Model()), id, Sessions.Inbound(Subscribe(packetId, filter, qos), n))
      ensures old(Valid() && Sessions.Live(sessions.model, id)) ==> Valid()
    {
      ghost var b := Model();
      status := topics.Subscribe(id, filter);
      if status.Ok? {
        DeliverOne(lim, sessions.model, Message(id, Sessions.Outbound(SubAck(packetId, qos), id, n)));
        status := sessions.QueueTxPacket(id, SubAck(packetId, qos), id, n);
      }
      HandledKeepsInv(b, id, Sessions.Inbound(Subscribe(packetId, filter, qos), n));
    }

    /** The sessions with packets waiting for their client, in registry order. */
    method GetSessionsWithPendingPackets() returns (pending: seq<SessionId>)
      requires Parts()
      ensures pending == Sessions.Ids(Filter(Sessions.HasPending, sessions.model))
      ensures NoDup(pending) && forall x :: x in pending <==> Sessions.Tx(sessions.model, x) != []
    {
      pending := [];
      var ids := sessions.GetAllSessions();
      for k := 0 to |ids|
        invariant pending == Sessions.Ids(Filter(Sessions.HasPending, sessions.model[..k]))
      {
        FilterStep(Sessions.HasPending, sessions.model, k);
        Sessions.FindAt(sessions.model, k);
        var has := sessions.HasPendingTxPackets(ids[k]);
        if has && |pending| < lim.maxSessions {
          pending := pending + [ids[k]];
        }
      }
      assert sessions.model[..|ids|] == sessions.model;
      Sessions.PendingIds(sessions.model);
    }

    /** Removes a list of sessions one by one. */
    method RemoveSessions(ids: seq<SessionId>)
      requires Valid()
      modifies this, topics, sessions
      ensures Valid() && Model() == Purge(old(Model()), Members(ids))
    {
      ghost var b0 := Model();
      PurgeNobody(lim, b0);
      assert Members(ids[..0]) == {};
      for k := 0 to |ids|
        invariant Valid() && Model() == Purge(b0, Members(ids[..k]))
      {
        PurgeCompose(b0, Members(ids[..k]), {ids[k]});
        MembersStep(ids, k);
        var removed := RemoveSession(ids[k]);
      }
      assert ids[..|ids|] == ids;
    }

    /** One pass of the server's cleanup task, under the broker lock. */
    method CleanupPass(now: nat)
      requires Valid()
      modifies this, topics, sessions
      ensures Valid() && Model() == Cleanup(old(Model()), now)
    {
      ghost var b0 := Model();
      var infos := sessions.GetExpiredSessions(now);
      var expired := Sessions.InfoIds(infos);
      RemoveSessions(expired);
      ghost var b1 := Model();
      var disconnected := sessions.GetDisconnectedSessions();
      ExpiredMembers(b0.sessions, now);
      DisconnectedMembers(b1.sessions);
      DoomedInTwoSteps(b0.sessions, now, Members(expired), b1.sessions, Members(disconnected));
      PurgeCompose(b0, Members(expired), Members(disconnected));
      RemoveSessions(disconnected);
    }
  }

  lemma {:induction false} ExpiredMembers(ss: seq<Sessions.Session>, now: nat)
    ensures Members(Sessions.InfoIds(Sessions.Infos(Filter(Sessions.ExpiredAt(now), ss), now))) ==
            set s | s in ss && Sessions.Expired(s.keepAlive, s.lastActivity, now) :: s.id
  {
    var f := Filter(Sessions.ExpiredAt(now), ss);
    var ids := Sessions.InfoIds(Sessions.Infos(f, now));
    forall s | s in ss && Sessions.Expired(s.keepAlive, s.lastActivity, now)
      ensures s.id in ids
    {
      Sessions.FilteredSessions(Sessions.ExpiredAt(now), ss, s);
      var k :| 0 <= k < |f| && f[k] == s;
      assert ids[k] == s.id;
    }
  }

  lemma {:induction false} DisconnectedMembers(ss: seq<Sessions.Session>)
    ensures Members(Sessions.Ids(Filter(Sessions.IsDisconnected, ss))) ==
            set s | s in ss && s.state.Disconnected? :: s.id
  {
    var f := Filter(Sessions.IsDisconnected, ss);
    var ids := Sessions.Ids(f);
    forall s | s in ss && s.state.Disconnected?
      ensures s.id in ids
    {
      Sessions.FilteredSessions(Sessions.IsDisconnected, ss, s);
      var k :| 0 <= k < |f| && f[k] == s;
      assert ids[k] == s.id;
    }
  }

  /** Collecting the disconnected sessions after the expired ones are gone still
      collects all that are doomed. */
  lemma {:induction false} DoomedInTwoSteps(
      ss: seq<Sessions.Session>, now: nat, expired: set<SessionId>, rest: seq<Sessions.Session>, disconnected: set<SessionId>)
    requires expired == set s | s in ss && Sessions.Expired(s.keepAlive, s.lastActivity, now) :: s.id
    requires rest == Sessions.Without(ss, expired)
    requires disconnected == set s | s in rest && s.state.Disconnected? :: s.id
    ensures expired + disconnected == Sessions.DoomedIds(ss, now)
  {
    Sessions.WithoutMembers(ss, expired);
  }
}
