/** Over every run: messages of one publisher reach each client in the order they were
    accepted, at most once, and unchanged (section 4.6 of MQTT 3.1.1). */
module MessageOrder {
  import opened Basics
  import opened BrokerTypes
  import opened Packets
  import opened BrokerModel
  import opened BrokerInvariant
  import opened Runs
  import PacketEffects
  import Sessions = SessionModel
  import Topics = TopicIndex

  /** In a log, what one client caused comes in the order that client's packets were
      accepted, and no two PUBLISH copies stem from the same packet. */
  ghost predicate Ordered(log: seq<Sessions.Outbound>) {
    forall i, j :: 0 <= i < j < |log| && log[i].from == log[j].from ==>
      && log[i].n <= log[j].n
      && (log[i].packet.Publish? && log[j].packet.Publish? ==> log[i].n < log[j].n)
  }

  /** Received packets wait in the order they were accepted, as they were accepted. */
  ghost predicate RxOk(inbox: seq<(SessionId, Packet)>, id: SessionId, rx: seq<Sessions.Inbound>) {
    && (forall k :: 0 <= k < |rx| ==> rx[k].n < |inbox| && inbox[rx[k].n] == (id, rx[k].packet))
    && (forall k, l :: 0 <= k < l < |rx| ==> rx[k].n < rx[l].n)
  }

  /** A sent or waiting packet stems from an accepted packet, is a faithful copy of it
      if it is a PUBLISH, and precedes everything its cause's sender still has waiting. */
  ghost predicate ItemOk(b: Broker, o: Sessions.Outbound) {
    && o.n < |b.inbox|
    && b.inbox[o.n].0 == o.from
    && (o.packet.Publish? ==> b.inbox[o.n].1 == o.packet)
    && (forall k :: 0 <= k < |Sessions.Rx(b.sessions, o.from)| ==> o.n < Sessions.Rx(b.sessions, o.from)[k].n)
  }

  ghost predicate LogOk(b: Broker, log: seq<Sessions.Outbound>) {
    Ordered(log) && forall i :: 0 <= i < |log| ==> ItemOk(b, log[i])
  }

  ghost predicate RxAllOk(b: Broker) {
    forall id: SessionId :: RxOk(b.inbox, id, Sessions.Rx(b.sessions, id))
  }

  ghost predicate LogsOk(r: Run) {
    forall id: SessionId :: LogOk(r.b, Log(r, id))
  }

  ghost predicate RunOk(r: Run) {
    RxAllOk(r.b) && LogsOk(r)
  }

  // ---------- operations that only take from the queues ----------

  /** From b to c no receive queue gains anything but newly accepted packets. */
  ghost predicate RxShrinks(b: Broker, c: Broker) {
    && b.inbox <= c.inbox
    && forall id: SessionId, k :: 0 <= k < |Sessions.Rx(c.sessions, id)| ==>
         var x := Sessions.Rx(c.sessions, id)[k];
         x in Sessions.Rx(b.sessions, id) || x.n >= |b.inbox|
  }

  lemma {:induction false} ItemStaysOk(b: Broker, c: Broker, o: Sessions.Outbound)
    requires ItemOk(b, o) && RxShrinks(b, c)
    ensures ItemOk(c, o)
  {
    forall k | 0 <= k < |Sessions.Rx(c.sessions, o.from)|
      ensures o.n < Sessions.Rx(c.sessions, o.from)[k].n
    {
      var x := Sessions.Rx(c.sessions, o.from)[k];
      if x in Sessions.Rx(b.sessions, o.from) {
        var l :| 0 <= l < |Sessions.Rx(b.sessions, o.from)| && Sessions.Rx(b.sessions, o.from)[l] == x;
      }
    }
  }

  lemma {:induction false} LogsShrinkOk(r: Run, q: Run)
    requires LogsOk(r) && RxShrinks(r.b, q.b)
    requires forall id: SessionId :: Log(q, id) <= Log(r, id)
    ensures LogsOk(q)
  {
    forall id: SessionId
      ensures LogOk(q.b, Log(q, id))
    {
      assert LogOk(r.b, Log(r, id));
      var log := Log(q, id);
      assert forall i :: 0 <= i < |log| ==> log[i] == Log(r, id)[i];
      forall i | 0 <= i < |log|
        ensures ItemOk(q.b, log[i])
      {
        ItemStaysOk(r.b, q.b, log[i]);
      }
    }
  }

  /** For one client, the receive queue is kept or lost and the log at most shortened. */
  ghost predicate Shortened(r: Run, q: Run, id: SessionId) {
    && Sessions.Rx(q.b.sessions, id) in {Sessions.Rx(r.b.sessions, id), []}
    && Log(q, id) <= Log(r, id)
  }

  /** An operation that keeps or shortens every queue keeps the property. */
  lemma {:induction false} ShrinkOk(r: Run, q: Run)
    requires RunOk(r) && q.b.inbox == r.b.inbox
    requires forall id: SessionId :: Shortened(r, q, id)
    ensures RunOk(q)
  {
    forall id: SessionId
      ensures RxOk(q.b.inbox, id, Sessions.Rx(q.b.sessions, id))
      ensures Log(q, id) <= Log(r, id)
    {
      assert Shortened(r, q, id);
      assert RxOk(r.b.inbox, id, Sessions.Rx(r.b.sessions, id));
    }
    assert RxShrinks(r.b, q.b) by {
      forall id: SessionId, k | 0 <= k < |Sessions.Rx(q.b.sessions, id)|
        ensures Sessions.Rx(q.b.sessions, id)[k] in Sessions.Rx(r.b.sessions, id)
      {
        assert Shortened(r, q, id);
      }
    }
    LogsShrinkOk(r, q);
  }

  lemma {:induction false} RegisterQueues(lim: Limits, r: Run, op: Op, id: SessionId)
    requires op.Register?
    ensures var q := Apply(lim, r, op);
            Sessions.Rx(q.b.sessions, id) == Sessions.Rx(r.b.sessions, id) && Log(q, id) == Log(r, id)
  {
    var s := Sessions.Session(op.id, None, Sessions.Connecting, op.keepAlive, op.now, [], []);
    Sessions.FindSnoc(r.b.sessions, s, id);
  }

  lemma {:induction false} RegisterOk(lim: Limits, r: Run, op: Op)
    requires RunOk(r) && op.Register?
    ensures RunOk(Apply(lim, r, op))
  {
    var q := Apply(lim, r, op);
    forall id: SessionId
      ensures Shortened(r, q, id)
    {
      RegisterQueues(lim, r, op, id);
    }
    ShrinkOk(r, q);
  }

  lemma {:induction false} SameQueuesSame(ss: seq<Sessions.Session>, tt: seq<Sessions.Session>, id: SessionId)
    requires SameQueues(ss, tt)
    ensures Sessions.Rx(ss, id) == Sessions.Rx(tt, id) && Sessions.Tx(ss, id) == Sessions.Tx(tt, id)
  {
    Sessions.FindSameIds(ss, tt, id);
  }

  lemma {:induction false} DisconnectedOk(lim: Limits, r: Run, op: Op)
    requires RunOk(r) && op.Disconnected?
    ensures RunOk(Apply(lim, r, op))
  {
    var q := Apply(lim, r, op);
    forall id: SessionId
      ensures Shortened(r, q, id)
    {
      SameQueuesSame(r.b.sessions, q.b.sessions, id);
    }
    ShrinkOk(r, q);
  }

  lemma {:induction false} PurgeOk(r: Run, gone: set<SessionId>)
    requires RunOk(r) && Sessions.UniqueIds(r.b.sessions)
    ensures RunOk(r.(b := Purge(r.b, gone)))
  {
    var q := r.(b := Purge(r.b, gone));
    forall id: SessionId
      ensures Shortened(r, q, id)
    {
      Sessions.WithoutFind(r.b.sessions, gone, id);
    }
    ShrinkOk(r, q);
  }

  /** Handing the oldest waiting packet over moves it within the log. */
  lemma {:induction false} SendKeepsLog(lim: Limits, r: Run, client: SessionId, id: SessionId)
    ensures var q := Apply(lim, r, Send(client));
            && Log(q, id) == Log(r, id)
            && Sessions.Rx(q.b.sessions, id) == Sessions.Rx(r.b.sessions, id)
  {
    var q := Apply(lim, r, Send(client));
    var tx := Sessions.Tx(r.b.sessions, client);
    if tx != [] {
      Sessions.FindSameIds(r.b.sessions, q.b.sessions, id);
      if id == client {
        assert Log(q, id) == Sent(r, id) + [tx[0]] + tx[1..];
      }
    }
  }

  lemma {:induction false} SendOk(lim: Limits, r: Run, op: Op)
    requires RunOk(r) && op.Send?
    ensures RunOk(Apply(lim, r, op))
  {
    var q := Apply(lim, r, op);
    forall id: SessionId
      ensures Shortened(r, q, id)
    {
      SendKeepsLog(lim, r, op.id, id);
    }
    ShrinkOk(r, q);
  }

  lemma {:induction false} QueueRxQueues(
      lim: Limits, ss: seq<Sessions.Session>, client: SessionId, item: Sessions.Inbound, id: SessionId)
    ensures var (tt, status) := Sessions.QueueRx(lim, ss, client, item);
            && Sessions.Tx(tt, id) == Sessions.Tx(ss, id)
            && Sessions.Rx(tt, id) == Sessions.Rx(ss, id) + if status.Ok? && id == client then [item] else []
  {
    var (tt, status) := Sessions.QueueRx(lim, ss, client, item);
    Sessions.FindSameIds(ss, tt, id);
  }

  /** A newly accepted packet gets a number above all others. */
  lemma {:induction false} ReceiveQueues(lim: Limits, r: Run, op: Op, id: SessionId)
    requires op.Receive?
    ensures var q := Apply(lim, r, op);
            && Log(q, id) == Log(r, id)
            && r.b.inbox <= q.b.inbox
            && (|| Sessions.Rx(q.b.sessions, id) == Sessions.Rx(r.b.sessions, id)
                || (id == op.id && q.b.inbox == r.b.inbox + [(op.id, op.packet)]
                    && Sessions.Rx(q.b.sessions, id) ==
                       Sessions.Rx(r.b.sessions, id) + [Sessions.Inbound(op.packet, |r.b.inbox|)]))
  {
    var ss := Sessions.SetActivity(r.b.sessions, op.id, op.now).0;
    SameQueuesSame(r.b.sessions, ss, id);
    QueueRxQueues(lim, ss, op.id, Sessions.Inbound(op.packet, |r.b.inbox|), id);
  }

  /** The queue of one session, as it was or with the newly accepted packet. */
  lemma {:induction false} RxGrows(
      inbox: seq<(SessionId, Packet)>, later: seq<(SessionId, Packet)>, id: SessionId, rx: seq<Sessions.Inbound>, packet: Packet)
    requires RxOk(inbox, id, rx) && inbox <= later
    ensures RxOk(later, id, rx)
    ensures later == inbox + [(id, packet)] ==> RxOk(later, id, rx + [Sessions.Inbound(packet, |inbox|)])
  {
  }

  lemma {:induction false} ReceiveRxOk(lim: Limits, r: Run, op: Op)
    requires RxAllOk(r.b) && op.Receive?
    ensures RxAllOk(Apply(lim, r, op).b)
  {
    var q := Apply(lim, r, op);
    forall id: SessionId
      ensures RxOk(q.b.inbox, id, Sessions.Rx(q.b.sessions, id))
    {
      ReceiveQueues(lim, r, op, id);
      RxGrows(r.b.inbox, q.b.inbox, id, Sessions.Rx(r.b.sessions, id), op.packet);
    }
  }

  lemma {:induction false} ReceiveShrinks(lim: Limits, r: Run, op: Op)
    requires op.Receive?
    ensures RxShrinks(r.b, Apply(lim, r, op).b)
  {
    var q := Apply(lim, r, op);
    forall id: SessionId, k | 0 <= k < |Sessions.Rx(q.b.sessions, id)|
      ensures var x := Sessions.Rx(q.b.sessions, id)[k]; x in Sessions.Rx(r.b.sessions, id) || x.n >= |r.b.inbox|
    {
      ReceiveQueues(lim, r, op, id);
    }
    ReceiveQueues(lim, r, op, op.id);
  }

  lemma {:induction false} ReceiveOk(lim: Limits, r: Run, op: Op)
    requires RunOk(r) && op.Receive?
    ensures RunOk(Apply(lim, r, op))
  {
    var q := Apply(lim, r, op);
    ReceiveRxOk(lim, r, op);
    ReceiveShrinks(lim, r, op);
    forall id: SessionId
      ensures Log(q, id) <= Log(r, id)
    {
      ReceiveQueues(lim, r, op, id);
    }
    LogsShrinkOk(r, q);
  }

  // ---------- handling a packet ----------

  /** What handling one packet adds to a log: all caused by that packet, at most one of
      them a PUBLISH, and that one a faithful copy. */
  ghost predicate RepliesTo(gain: seq<Sessions.Outbound>, from: SessionId, item: Sessions.Inbound) {
    && (forall i :: 0 <= i < |gain| ==>
          gain[i].from == from && gain[i].n == item.n && (gain[i].packet.Publish? ==> gain[i].packet == item.packet))
    && (forall i, j :: 0 <= i < j < |gain| ==> !(gain[i].packet.Publish? && gain[j].packet.Publish?))
  }

  lemma {:induction false} AddressedReplies(
      lim: Limits, ts: seq<Topics.TopicEntry>, from: SessionId, item: Sessions.Inbound, id: SessionId, sent: nat)
    requires sent <= |Replies(lim, ts, from, item)|
    ensures RepliesTo(Addressed(id, Replies(lim, ts, from, item)[..sent]), from, item)
  {
    var msgs := Replies(lim, ts, from, item);
    if item.packet.Publish? {
      var p := item.packet.publish;
      var subs, copy := Topics.Subscribers(lim, ts, p.topic), Sessions.Outbound(item.packet, from, item.n);
      var acks := if WantsAck(p) then [Message(from, Sessions.Outbound(PubAck(p.packetId.value), from, item.n))] else [];
      Topics.SubscribersAreMatches(lim, ts, p.topic);
      PacketEffects.PublishGain(id, subs, copy, acks, sent);
    } else {
      assert |msgs| <= 1;
      if sent == 1 {
        assert msgs[..1] == [msgs[0]] && [msgs[0]][1..] == [];
      }
    }
  }

  /** What handling a packet adds to the transmit queue of a session. */
  function Gain(lim: Limits, b: Broker, from: SessionId, item: Sessions.Inbound, id: SessionId): seq<Sessions.Outbound> {
    var p := Prepare(lim, b, from, item);
    if p.status.Err? || !Sessions.Live(b.sessions, id) then []
    else
      var msgs := Replies(lim, p.b.topics, from, item);
      var sent := Deliver(lim, p.b.sessions, msgs).sent;
      if sent <= |msgs| then Addressed(id, msgs[..sent]) else []
  }

  lemma {:induction false} DeliverGain(lim: Limits, ss: seq<Sessions.Session>, msgs: seq<Message>, id: SessionId)
    requires Sessions.UniqueIds(ss) && AllLive(ss, msgs)
    ensures var d := Deliver(lim, ss, msgs);
            && d.sent <= |msgs|
            && Sessions.Rx(d.sessions, id) == Sessions.Rx(ss, id)
            && Sessions.Tx(d.sessions, id) ==
               Sessions.Tx(ss, id) + if Sessions.Live(ss, id) then Addressed(id, msgs[..d.sent]) else []
  {
    DeliverExact(lim, ss, msgs);
    Sessions.FindSameIds(ss, Deliver(lim, ss, msgs).sessions, id);
  }

  lemma {:induction false} HandleGain(lim: Limits, b: Broker, from: SessionId, item: Sessions.Inbound, id: SessionId)
    requires Inv(lim, b) && Sessions.Live(b.sessions, from)
    ensures var c := Handle(lim, b, from, item).b;
            && Sessions.Tx(c.sessions, id) == Sessions.Tx(b.sessions, id) + Gain(lim, b, from, item, id)
            && Sessions.Rx(c.sessions, id) == Sessions.Rx(b.sessions, id)
    ensures RepliesTo(Gain(lim, b, from, item, id), from, item)
  {
    var p := Prepare(lim, b, from, item);
    PrepareKeepsInv(lim, b, from, item);
    SameQueuesSame(b.sessions, p.b.sessions, id);
    if p.status.Ok? {
      Sessions.FindSameIds(b.sessions, p.b.sessions, from);
      Sessions.FindSameIds(b.sessions, p.b.sessions, id);
      RepliesLive(lim, p.b, from, item);
      var msgs := Replies(lim, p.b.topics, from, item);
      DeliverGain(lim, p.b.sessions, msgs, id);
      AddressedReplies(lim, p.b.topics, from, item, id, Deliver(lim, p.b.sessions, msgs).sent);
    }
  }

  /** The state after the next packet has been taken off its queue and handled. */
  function Next(lim: Limits, b: Broker): Step
    requires Agenda(b.sessions) != []
  {
    var (from, item) := Agenda(b.sessions)[0];
    Handle(lim, b.(sessions := Sessions.DropRx(b.sessions, from)), from, item)
  }

  function NextGain(lim: Limits, b: Broker, id: SessionId): seq<Sessions.Outbound>
    requires Agenda(b.sessions) != []
  {
    var (from, item) := Agenda(b.sessions)[0];
    Gain(lim, b.(sessions := Sessions.DropRx(b.sessions, from)), from, item, id)
  }

  lemma {:induction false} NextQueues(lim: Limits, b: Broker, id: SessionId)
    requires Inv(lim, b) && Agenda(b.sessions) != []
    ensures var (from, item) := Agenda(b.sessions)[0];
            var c := Next(lim, b).b;
            && Sessions.Rx(b.sessions, from) != [] && item == Sessions.Rx(b.sessions, from)[0]
            && c.inbox == b.inbox
            && Sessions.Tx(c.sessions, id) == Sessions.Tx(b.sessions, id) + NextGain(lim, b, id)
            && RepliesTo(NextGain(lim, b, id), from, item)
            && Sessions.Rx(c.sessions, id) ==
               if id == from then Sessions.Rx(b.sessions, id)[1..] else Sessions.Rx(b.sessions, id)
  {
    var (from, item) := Agenda(b.sessions)[0];
    var b1 := b.(sessions := Sessions.DropRx(b.sessions, from));
    TakeNext(lim, b);
    FoldStep(lim, b);
    HandleGain(lim, b1, from, item, id);
    Sessions.FindSameIds(b.sessions, b1.sessions, id);
  }

  lemma {:induction false} NextShrinksRx(lim: Limits, b: Broker)
    requires Inv(lim, b) && Agenda(b.sessions) != []
    ensures RxShrinks(b, Next(lim, b).b)
  {
    var c := Next(lim, b).b;
    NextQueues(lim, b, 0);
    forall id: SessionId, k | 0 <= k < |Sessions.Rx(c.sessions, id)|
      ensures Sessions.Rx(c.sessions, id)[k] in Sessions.Rx(b.sessions, id)
    {
      NextQueues(lim, b, id);
    }
  }

  /** A log stays in order when the replies to a later packet are appended. */
  lemma {:induction false} OrderedAppend(
      log: seq<Sessions.Outbound>, gain: seq<Sessions.Outbound>, from: SessionId, item: Sessions.Inbound)
    requires Ordered(log) && RepliesTo(gain, from, item)
    requires forall i :: 0 <= i < |log| && log[i].from == from ==> log[i].n < item.n
    ensures Ordered(log + gain)
  {
  }

  /** The replies stem from the packet just taken, which precedes all that still wait. */
  lemma {:induction false} GainOk(lim: Limits, b: Broker, id: SessionId, i: nat)
    requires Inv(lim, b) && Agenda(b.sessions) != [] && RxAllOk(b)
    requires i < |NextGain(lim, b, id)|
    ensures ItemOk(Next(lim, b).b, NextGain(lim, b, id)[i])
  {
    var (from, item) := Agenda(b.sessions)[0];
    NextQueues(lim, b, id);
    NextQueues(lim, b, from);
    assert RxOk(b.inbox, from, Sessions.Rx(b.sessions, from));
  }

  lemma {:induction false} LogAppend(
      b: Broker, c: Broker, log: seq<Sessions.Outbound>, gain: seq<Sessions.Outbound>, from: SessionId, item: Sessions.Inbound)
    requires LogOk(b, log) && RxShrinks(b, c) && RepliesTo(gain, from, item)
    requires Sessions.Rx(b.sessions, from) != [] && Sessions.Rx(b.sessions, from)[0] == item
    requires forall i :: 0 <= i < |gain| ==> ItemOk(c, gain[i])
    ensures LogOk(c, log + gain)
  {
    forall i | 0 <= i < |log|
      ensures ItemOk(c, log[i])
    {
      ItemStaysOk(b, c, log[i]);
    }
    forall i | 0 <= i < |log| && log[i].from == from
      ensures log[i].n < item.n
    {
      assert ItemOk(b, log[i]);
    }
    OrderedAppend(log, gain, from, item);
  }

  lemma {:induction false} NextLogOk(lim: Limits, b: Broker, log: seq<Sessions.Outbound>, id: SessionId)
    requires Inv(lim, b) && Agenda(b.sessions) != [] && RxAllOk(b) && LogOk(b, log)
    ensures LogOk(Next(lim, b).b, log + NextGain(lim, b, id))
  {
    var (from, item) := Agenda(b.sessions)[0];
    var c, gain := Next(lim, b).b, NextGain(lim, b, id);
    NextQueues(lim, b, id);
    NextShrinksRx(lim, b);
    forall i | 0 <= i < |gain|
      ensures ItemOk(c, gain[i])
    {
      GainOk(lim, b, id, i);
    }
    LogAppend(b, c, log, gain, from, item);
  }

  lemma {:induction false} NextRxOk(lim: Limits, b: Broker)
    requires Inv(lim, b) && Agenda(b.sessions) != [] && RxAllOk(b)
    ensures RxAllOk(Next(lim, b).b)
  {
    var c := Next(lim, b).b;
    forall id: SessionId
      ensures RxOk(c.inbox, id, Sessions.Rx(c.sessions, id))
    {
      NextQueues(lim, b, id);
      assert RxOk(b.inbox, id, Sessions.Rx(b.sessions, id));
    }
  }

  lemma {:induction false} NextLogs(lim: Limits, r: Run, id: SessionId)
    requires Inv(lim, r.b) && Agenda(r.b.sessions) != []
    ensures Log(r.(b := Next(lim, r.b).b), id) == Log(r, id) + NextGain(lim, r.b, id)
  {
    NextQueues(lim, r.b, id);
    Assoc(Sent(r, id), Sessions.Tx(r.b.sessions, id), NextGain(lim, r.b, id));
  }

  lemma {:induction false} NextOk(lim: Limits, r: Run)
    requires Inv(lim, r.b) && Agenda(r.b.sessions) != [] && RunOk(r)
    ensures RunOk(r.(b := Next(lim, r.b).b))
  {
    var q := r.(b := Next(lim, r.b).b);
    forall id: SessionId
      ensures LogOk(q.b, Log(q, id))
    {
      NextLogs(lim, r, id);
      NextLogOk(lim, r.b, Log(r, id), id);
    }
    NextRxOk(lim, r.b);
  }

  lemma {:induction false} ProcessOk(lim: Limits, r: Run)
    requires Inv(lim, r.b) && RunOk(r)
    ensures RunOk(r.(b := Process(lim, r.b).b))
    decreases |Agenda(r.b.sessions)|
  {
    if Agenda(r.b.sessions) != [] {
      NextOk(lim, r);
      FoldStep(lim, r.b);
      var step := Next(lim, r.b);
      if step.status.Ok? {
        ProcessOk(lim, r.(b := step.b));
      }
    }
  }

  // ---------- whole runs ----------

  lemma {:induction false} ApplyOk(lim: Limits, r: Run, op: Op)
    requires Inv(lim, r.b) && RunOk(r)
    ensures RunOk(Apply(lim, r, op))
  {
    match op
    case Register(_, _, _) => RegisterOk(lim, r, op);
    case Disconnected(_) => DisconnectedOk(lim, r, op);
    case Remove(id) => PurgeOk(r, {id});
    case Receive(_, _, _) => ReceiveOk(lim, r, op);
    case Send(_) => SendOk(lim, r, op);
    case ProcessAll => ProcessOk(lim, r);
    case CleanupPass(now) => PurgeOk(r, Sessions.DoomedIds(r.b.sessions, now));
  }

  lemma {:induction false} ExecOk(lim: Limits, r: Run, ops: seq<Op>)
    requires Inv(lim, r.b) && RunOk(r)
    ensures RunOk(Exec(lim, r, ops))
    decreases |ops|
  {
    if ops != [] {
      ApplyKeepsInv(lim, r, ops[0]);
      ApplyOk(lim, r, ops[0]);
      ExecOk(lim, Apply(lim, r, ops[0]), ops[1..]);
    }
  }

  predicate CopyFrom(publisher: SessionId, o: Sessions.Outbound) {
    o.packet.Publish? && o.from == publisher
  }

  /** Message order and integrity, for every run, publisher and subscriber: of two
      PUBLISH packets that one client ever got, or is about to get, from one publisher,
      the earlier stems from the packet accepted earlier; both are exactly the packets
      that the publisher sent. */
  lemma {:induction false} MessagesInOrder(lim: Limits, ops: seq<Op>, publisher: SessionId, subscriber: SessionId)
    ensures var r := Exec(lim, START, ops);
            var log := Log(r, subscriber);
            && (forall i :: 0 <= i < |log| && CopyFrom(publisher, log[i]) ==>
                  log[i].n < |r.b.inbox| && r.b.inbox[log[i].n] == (publisher, log[i].packet))
            && (forall i, j ::
                  0 <= i < j < |log| && CopyFrom(publisher, log[i]) && CopyFrom(publisher, log[j]) ==>
                    log[i].n < log[j].n)
  {
    StartInv(lim);
    assert RunOk(START);
    ExecOk(lim, START, ops);
    var r := Exec(lim, START, ops);
    assert LogOk(r.b, Log(r, subscriber));
  }
}
