/** Exactly what one packet does to the broker: whom a PUBLISH reaches, and what CONNECT,
    SUBSCRIBE and PINGREQ leave behind, on success and on failure. */
module PacketEffects {
  import opened Basics
  import opened BrokerTypes
  import opened Packets
  import opened BrokerModel
  import opened BrokerInvariant
  import Sessions = SessionModel
  import Topics = TopicIndex

  lemma {:induction false} AddressedConcat(id: SessionId, a: seq<Message>, b: seq<Message>)
    ensures Addressed(id, a + b) == Addressed(id, a) + Addressed(id, b)
  {
    if a == [] {
      assert a + b == b;
    } else {
      AddressedConcat(id, a[1..], b);
      assert (a + b)[1..] == a[1..] + b;
      Assoc(if a[0].to == id then [a[0].item] else [], Addressed(id, a[1..]), Addressed(id, b));
    }
  }

  /** Among the copies for distinct subscribers, each subscriber has one. */
  lemma {:induction false} AddressedCopies(id: SessionId, subs: seq<SessionId>, copy: Sessions.Outbound)
    requires NoDup(subs)
    ensures Addressed(id, Copies(subs, copy)) == if id in subs then [copy] else []
  {
    if subs != [] {
      AddressedCopies(id, subs[1..], copy);
      assert Copies(subs, copy)[1..] == Copies(subs[1..], copy);
      assert subs == [subs[0]] + subs[1..];
    }
  }

  lemma {:induction false} CopiesPrefix(subs: seq<SessionId>, copy: Sessions.Outbound, k: nat)
    requires k <= |subs|
    ensures Copies(subs, copy)[..k] == Copies(subs[..k], copy)
  {
  }

  /** Position of the first subscriber without room, or their number. */
  function FirstFull(lim: Limits, ss: seq<Sessions.Session>, subs: seq<SessionId>): (k: nat)
    ensures k <= |subs|
    ensures forall j :: 0 <= j < k ==> |Sessions.Tx(ss, subs[j])| < lim.queueSize
    ensures k < |subs| ==> |Sessions.Tx(ss, subs[k])| >= lim.queueSize
  {
    if subs == [] || |Sessions.Tx(ss, subs[0])| >= lim.queueSize then 0 else 1 + FirstFull(lim, ss, subs[1..])
  }

  /** Whether a publisher that wants a PUBACK has room for it, after its own copy. */
  predicate AckFits(lim: Limits, ss: seq<Sessions.Session>, subs: seq<SessionId>, from: SessionId) {
    |Sessions.Tx(ss, from)| + (if from in subs then 1 else 0) < lim.queueSize
  }

  /** The j-th copy has room when its subscriber has. */
  lemma {:induction false} CopyRoom(
      lim: Limits, ss: seq<Sessions.Session>, subs: seq<SessionId>, copy: Sessions.Outbound, acks: seq<Message>, j: nat)
    requires NoDup(subs) && j < |subs|
    ensures Room(lim, ss, Copies(subs, copy) + acks, j) <==> |Sessions.Tx(ss, subs[j])| < lim.queueSize
  {
    var msgs := Copies(subs, copy) + acks;
    assert msgs[..j] == Copies(subs, copy)[..j];
    CopiesPrefix(subs, copy, j);
    AddressedCopies(subs[j], subs[..j], copy);
  }

  lemma {:induction false} AckRoom(
      lim: Limits, ss: seq<Sessions.Session>, subs: seq<SessionId>, copy: Sessions.Outbound, ack: Message)
    requires NoDup(subs)
    ensures Room(lim, ss, Copies(subs, copy) + [ack], |subs|) <==> AckFits(lim, ss, subs, ack.to)
  {
    assert (Copies(subs, copy) + [ack])[..|subs|] == Copies(subs, copy);
    AddressedCopies(ack.to, subs, copy);
  }

  /** Where the delivery of copies and PUBACK stops. */
  lemma {:induction false} PublishSent(
      lim: Limits, ss: seq<Sessions.Session>, subs: seq<SessionId>, copy: Sessions.Outbound, acks: seq<Message>)
    requires NoDup(subs) && |acks| <= 1 && Sessions.UniqueIds(ss)
    requires AllLive(ss, Copies(subs, copy) + acks)
    ensures var msgs := Copies(subs, copy) + acks;
            var d, k := Deliver(lim, ss, msgs), FirstFull(lim, ss, subs);
            && DeliversExactly(lim, ss, msgs, d)
            && d.sent == if k == |subs| && |acks| == 1 && AckFits(lim, ss, subs, acks[0].to) then k + 1 else k
  {
    var msgs := Copies(subs, copy) + acks;
    var d, k := Deliver(lim, ss, msgs), FirstFull(lim, ss, subs);
    DeliverExact(lim, ss, msgs);
    if d.sent < |subs| {
      CopyRoom(lim, ss, subs, copy, acks, d.sent);
    } else if d.sent < |msgs| {
      assert acks == [acks[0]];
      AckRoom(lim, ss, subs, copy, acks[0]);
    } else if |acks| == 1 {
      assert acks == [acks[0]];
      assert Room(lim, ss, msgs, |subs|);
      AckRoom(lim, ss, subs, copy, acks[0]);
    }
    if k < |subs| {
      CopyRoom(lim, ss, subs, copy, acks, k);
    }
  }

  /** What each session gains from the first `sent` of those messages. */
  lemma {:induction false} PublishGain(
      id: SessionId, subs: seq<SessionId>, copy: Sessions.Outbound, acks: seq<Message>, sent: nat)
    requires NoDup(subs) && sent <= |subs| + |acks| && |acks| <= 1
    ensures Addressed(id, (Copies(subs, copy) + acks)[..sent]) ==
            (if id in Take(sent, subs) then [copy] else [])
            + (if sent > |subs| && acks[0].to == id then [acks[0].item] else [])
  {
    var msgs := Copies(subs, copy) + acks;
    if sent <= |subs| {
      assert msgs[..sent] == Copies(subs, copy)[..sent];
      CopiesPrefix(subs, copy, sent);
      AddressedCopies(id, subs[..sent], copy);
      assert Take(sent, subs) == subs[..sent];
    } else {
      assert msgs[..sent] == msgs;
      AddressedConcat(id, Copies(subs, copy), acks);
      AddressedCopies(id, subs, copy);
      assert acks == [acks[0]] && acks[1..] == [];
    }
  }

  lemma {:induction false} CopiesDelivered(
      lim: Limits, ss: seq<Sessions.Session>, subs: seq<SessionId>, copy: Sessions.Outbound, acks: seq<Message>)
    requires NoDup(subs) && |acks| <= 1 && Sessions.UniqueIds(ss)
    requires AllLive(ss, Copies(subs, copy) + acks)
    ensures var d, k := Deliver(lim, ss, Copies(subs, copy) + acks), FirstFull(lim, ss, subs);
            && Sessions.SameButTx(ss, d.sessions)
            && (d.status.Ok? <==> k == |subs| && (|acks| == 1 ==> AckFits(lim, ss, subs, acks[0].to)))
            && (d.status.Ok? ==> forall i :: 0 <= i < |ss| ==>
                  d.sessions[i].tx == ss[i].tx
                    + (if ss[i].id in subs then [copy] else [])
                    + (if |acks| == 1 && ss[i].id == acks[0].to then [acks[0].item] else []))
            && (d.status.Err? ==> forall i :: 0 <= i < |ss| ==>
                  d.sessions[i].tx == ss[i].tx + if ss[i].id in subs[..k] then [copy] else [])
            && (d.status.Err? ==> k < |subs| || |acks| == 1)
            && (d.status.Err? ==> d.status.error == SessionQueueFull(if k < |subs| then subs[k] else acks[0].to))
  {
    PublishSent(lim, ss, subs, copy, acks);
    var d, k := Deliver(lim, ss, Copies(subs, copy) + acks), FirstFull(lim, ss, subs);
    if d.status.Ok? {
      forall i | 0 <= i < |ss|
        ensures d.sessions[i].tx == ss[i].tx
                + (if ss[i].id in subs then [copy] else [])
                + (if |acks| == 1 && ss[i].id == acks[0].to then [acks[0].item] else [])
      {
        GainOnSuccess(ss[i].id, subs, copy, acks);
        Assoc(ss[i].tx, if ss[i].id in subs then [copy] else [],
              if |acks| == 1 && ss[i].id == acks[0].to then [acks[0].item] else []);
      }
    } else {
      forall i | 0 <= i < |ss|
        ensures d.sessions[i].tx == ss[i].tx + if ss[i].id in subs[..k] then [copy] else []
      {
        GainOnFailure(ss[i].id, subs, copy, acks, k);
      }
    }
  }

  lemma {:induction false} GainOnSuccess(id: SessionId, subs: seq<SessionId>, copy: Sessions.Outbound, acks: seq<Message>)
    requires NoDup(subs) && |acks| <= 1
    ensures var msgs := Copies(subs, copy) + acks;
            Addressed(id, msgs[..|subs| + |acks|]) ==
            (if id in subs then [copy] else [])
            + (if |acks| == 1 && id == acks[0].to then [acks[0].item] else [])
  {
    PublishGain(id, subs, copy, acks, |subs| + |acks|);
    assert Take(|subs| + |acks|, subs) == subs;
  }

  lemma {:induction false} GainOnFailure(
      id: SessionId, subs: seq<SessionId>, copy: Sessions.Outbound, acks: seq<Message>, k: nat)
    requires NoDup(subs) && |acks| <= 1 && k <= |subs|
    ensures Addressed(id, (Copies(subs, copy) + acks)[..k]) == if id in subs[..k] then [copy] else []
  {
    PublishGain(id, subs, copy, acks, k);
    assert Take(k, subs) == subs[..k];
  }

  /** Fan-out, exactly. A PUBLISH succeeds if and only if every matched subscriber has
      room and, when a PUBACK is due, the publisher has room for it after its own copy.
      On success every matched subscriber gains one copy and the publisher its PUBACK;
      on failure exactly the subscribers before the first full queue gained one copy.
      Nothing else changes. */
  lemma {:induction false} PublishExact(lim: Limits, b: Broker, from: SessionId, item: Sessions.Inbound)
    requires Inv(lim, b) && Sessions.Live(b.sessions, from) && item.packet.Publish?
    ensures var p, ss := item.packet.publish, b.sessions;
            var subs, step := Topics.Subscribers(lim, b.topics, p.topic), Handle(lim, b, from, item);
            var copy := Sessions.Outbound(item.packet, from, item.n);
            var k := FirstFull(lim, ss, subs);
            && step.b == b.(sessions := step.b.sessions)
            && Sessions.SameButTx(ss, step.b.sessions)
            && (step.status.Ok? <==>
                (forall x :: x in subs ==> |Sessions.Tx(ss, x)| < lim.queueSize)
                && (p.qos != AtMostOnce && p.packetId.Some? ==> AckFits(lim, ss, subs, from)))
            && (step.status.Ok? ==> forall i :: 0 <= i < |ss| ==>
                  step.b.sessions[i].tx == ss[i].tx
                    + (if ss[i].id in subs then [copy] else [])
                    + (if p.qos != AtMostOnce && p.packetId.Some? && ss[i].id == from
                       then [Sessions.Outbound(PubAck(p.packetId.value), from, item.n)] else []))
            && (step.status.Err? ==> forall i :: 0 <= i < |ss| ==>
                  step.b.sessions[i].tx == ss[i].tx + if ss[i].id in subs[..k] then [copy] else [])
            && (step.status.Err? ==>
                step.status.error == SessionQueueFull(if k < |subs| then subs[k] else from))
  {
    var p, ss := item.packet.publish, b.sessions;
    var subs, copy := Topics.Subscribers(lim, b.topics, p.topic), Sessions.Outbound(item.packet, from, item.n);
    var acks := if WantsAck(p) then [Message(from, Sessions.Outbound(PubAck(p.packetId.value), from, item.n))] else [];
    assert Replies(lim, b.topics, from, item) == Copies(subs, copy) + acks;
    Topics.SubscribersAreMatches(lim, b.topics, p.topic);
    RepliesLive(lim, b, from, item);
    CopiesDelivered(lim, ss, subs, copy, acks);
    var k := FirstFull(lim, ss, subs);
    assert k < |subs| ==> subs[k] in subs;
  }

  // ---------- packets that are answered to their sender ----------

  /** The sessions after a packet has been queued for one of them, if it had room. */
  function Answered(lim: Limits, ss: seq<Sessions.Session>, i: nat, item: Sessions.Outbound): seq<Sessions.Session>
    requires i < |ss|
  {
    if |ss[i].tx| < lim.queueSize then ss[i := ss[i].(tx := ss[i].tx + [item])] else ss
  }

  function AnswerStatus(lim: Limits, ss: seq<Sessions.Session>, i: nat): Status
    requires i < |ss|
  {
    if |ss[i].tx| < lim.queueSize then Ok else Err(SessionQueueFull(ss[i].id))
  }

  lemma {:induction false} DeliverAnswer(lim: Limits, ss: seq<Sessions.Session>, m: Message)
    requires Sessions.Live(ss, m.to)
    ensures var d, i := Deliver(lim, ss, [m]), Sessions.Find(ss, m.to);
            d.sessions == Answered(lim, ss, i, m.item) && d.status == AnswerStatus(lim, ss, i)
  {
    assert [m][1..] == [];
  }

  /** CONNECT records identifier, keep-alive and state even when the CONNACK no longer
      fits; an empty identifier leaves the recorded one alone. */
  lemma {:induction false} ConnectExact(lim: Limits, b: Broker, from: SessionId, item: Sessions.Inbound)
    requires Sessions.Live(b.sessions, from) && item.packet.Connect?
    ensures var c, i := item.packet.connect, Sessions.Find(b.sessions, from);
            var s := b.sessions[i];
            var s' := s.(clientId := if c.clientId == [] then s.clientId else Some(c.clientId),
                         keepAlive := c.keepAlive,
                         state := Sessions.Connected);
            var answer := Sessions.Outbound(ConnAck(false, Accepted), from, item.n);
            Handle(lim, b, from, item) ==
            Step(b.(sessions := Answered(lim, b.sessions[i := s'], i, answer)),
                 AnswerStatus(lim, b.sessions, i))
  {
    var c, i := item.packet.connect, Sessions.Find(b.sessions, from);
    var s1 := if c.clientId == [] then b.sessions else Sessions.SetClientId(b.sessions, from, c.clientId).0;
    Sessions.FindSameIds(b.sessions, s1, from);
    var s2 := Sessions.SetKeepAlive(s1, from, c.keepAlive).0;
    Sessions.FindSameIds(b.sessions, s2, from);
    var s3 := Prepare(lim, b, from, item).b.sessions;
    Sessions.FindSameIds(b.sessions, s3, from);
    assert s3 == b.sessions[i := s3[i]];
    DeliverAnswer(lim, s3, Message(from, Sessions.Outbound(ConnAck(false, Accepted), from, item.n)));
  }

  /** SUBSCRIBE adds one pair and answers with the requested QoS; if the answer no
      longer fits, the subscription stays. If the index is full nothing changes. */
  lemma {:induction false} SubscribeExact(lim: Limits, b: Broker, from: SessionId, item: Sessions.Inbound)
    requires Inv(lim, b) && Sessions.Live(b.sessions, from) && item.packet.Subscribe?
    ensures var p, i := item.packet, Sessions.Find(b.sessions, from);
            var step := Handle(lim, b, from, item);
            var refused := Topics.Subscribe(lim, b.topics, from, p.filter).1.Err?;
            && (refused ==> step.b == b && step.status.Err? && (p.filter, from) !in Topics.Pairs(b.topics))
            && (!refused ==>
                  && Topics.Pairs(step.b.topics) == Topics.Pairs(b.topics) + {(p.filter, from)}
                  && step.b.sessions ==
                     Answered(lim, b.sessions, i, Sessions.Outbound(SubAck(p.packetId, p.qos), from, item.n))
                  && step.status == AnswerStatus(lim, b.sessions, i))
  {
    var p := item.packet;
    Topics.SubscribeAddsOnePair(lim, b.topics, from, p.filter);
    DeliverAnswer(lim, b.sessions, Message(from, Sessions.Outbound(SubAck(p.packetId, p.qos), from, item.n)));
  }

  /** PINGREQ is answered; every other kind but DISCONNECT, which marks its session,
      is taken off the queue without effect. */
  lemma {:induction false} OthersExact(lim: Limits, b: Broker, from: SessionId, item: Sessions.Inbound)
    requires Sessions.Live(b.sessions, from)
    requires !item.packet.Connect? && !item.packet.Publish? && !item.packet.Subscribe?
    ensures var i := Sessions.Find(b.sessions, from);
            Handle(lim, b, from, item) ==
            match item.packet
            case PingReq =>
              Step(b.(sessions := Answered(lim, b.sessions, i, Sessions.Outbound(PingResp, from, item.n))),
                   AnswerStatus(lim, b.sessions, i))
            case Disconnect =>
              Step(b.(sessions := b.sessions[i := b.sessions[i].(state := Sessions.Disconnected)]), Ok)
            case _ => Step(b, Ok)
  {
    DeliverAnswer(lim, b.sessions, Message(from, Sessions.Outbound(PingResp, from, item.n)));
  }

  // ---------- packets of sessions that do not exist ----------

  /** CONNECT, PINGREQ and DISCONNECT of an unknown session are answered with an error and
      change nothing; its SUBSCRIBE leaves a subscription behind unless it is refused, and
      ends with an error in any case; kinds without handling are ignored. */
  lemma {:induction false} StrangerExact(lim: Limits, b: Broker, from: SessionId, item: Sessions.Inbound)
    requires Topics.WellFormed(lim, b.topics) && !Sessions.Live(b.sessions, from) && !item.packet.Publish?
    ensures var step := Handle(lim, b, from, item);
            && step.b.sessions == b.sessions && step.b.inbox == b.inbox
            && match item.packet
               case Connect(_) => step == Step(b, Err(SessionNotFound(from)))
               case PingReq => step == Step(b, Err(SessionNotFound(from)))
               case Disconnect => step == Step(b, Err(SessionNotFound(from)))
               case Subscribe(_, filter, _) =>
                 && step.status.Err?
                 && (step.status.error == SessionNotFound(from) ==>
                       Topics.Pairs(step.b.topics) == Topics.Pairs(b.topics) + {(filter, from)})
                 && (step.status.error != SessionNotFound(from) ==> step.b.topics == b.topics)
               case _ => step == Step(b, Ok)
  {
    if item.packet.Subscribe? {
      Topics.SubscribeAddsOnePair(lim, b.topics, from, item.packet.filter);
    }
  }
}
