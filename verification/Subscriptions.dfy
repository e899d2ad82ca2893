/** Where subscriptions come from, over every run: a session is subscribed to nothing it
    did not ask for. For clients whose packets were decoded, it follows that publications
    are matched by section 4.7.1 on the very strings the clients sent. */
module Subscriptions {
  import opened Basics
  import opened BrokerTypes
  import opened Packets
  import opened BrokerModel
  import opened BrokerInvariant
  import opened Runs
  import opened MessageOrder
  import TopicFilter
  import Utf8
  import WireFormat
  import Sessions = SessionModel
  import Topics = TopicIndex

  predicate Asks(entry: (SessionId, Packet), f: Bytes, x: SessionId) {
    entry.0 == x && entry.1.Subscribe? && entry.1.filter == f
  }

  /** An accepted packet of x asked for the filter. */
  ghost predicate AskedFor(inbox: seq<(SessionId, Packet)>, f: Bytes, x: SessionId) {
    exists n :: 0 <= n < |inbox| && Asks(inbox[n], f, x)
  }

  ghost predicate AllAskedFor(b: Broker) {
    forall p :: p in Topics.Pairs(b.topics) ==> AskedFor(b.inbox, p.0, p.1)
  }

  lemma {:induction false} StillAskedFor(inbox: seq<(SessionId, Packet)>, later: seq<(SessionId, Packet)>, f: Bytes, x: SessionId)
    requires inbox <= later && AskedFor(inbox, f, x)
    ensures AskedFor(later, f, x)
  {
    var n :| 0 <= n < |inbox| && Asks(inbox[n], f, x);
    assert later[n] == inbox[n];
  }

  /** Fewer pairs and more accepted packets. */
  lemma {:induction false} AskedForMonotone(b: Broker, c: Broker)
    requires AllAskedFor(b) && b.inbox <= c.inbox && Topics.Pairs(c.topics) <= Topics.Pairs(b.topics)
    ensures AllAskedFor(c)
  {
    forall p | p in Topics.Pairs(c.topics)
      ensures AskedFor(c.inbox, p.0, p.1)
    {
      StillAskedFor(b.inbox, c.inbox, p.0, p.1);
    }
  }

  /** Handling a packet adds at most the pair that it asks for. */
  lemma {:induction false} HandlePairs(lim: Limits, b: Broker, from: SessionId, item: Sessions.Inbound)
    requires Inv(lim, b)
    ensures var c := Handle(lim, b, from, item).b;
            forall p :: p in Topics.Pairs(c.topics) ==> p in Topics.Pairs(b.topics) || Asks((from, item.packet), p.0, p.1)
  {
    if item.packet.Subscribe? {
      Topics.SubscribeAddsOnePair(lim, b.topics, from, item.packet.filter);
    }
  }

  lemma {:induction false} NextAskedFor(lim: Limits, b: Broker)
    requires Inv(lim, b) && Agenda(b.sessions) != [] && RxAllOk(b) && AllAskedFor(b)
    ensures AllAskedFor(Next(lim, b).b)
  {
    var (from, item) := Agenda(b.sessions)[0];
    var b1, c := b.(sessions := Sessions.DropRx(b.sessions, from)), Next(lim, b).b;
    TakeNext(lim, b);
    NextQueues(lim, b, from);
    HandlePairs(lim, b1, from, item);
    assert RxOk(b.inbox, from, Sessions.Rx(b.sessions, from));
    assert b.inbox[item.n] == (from, item.packet);
    forall p | p in Topics.Pairs(c.topics)
      ensures AskedFor(c.inbox, p.0, p.1)
    {
      if p !in Topics.Pairs(b.topics) {
        assert Asks(c.inbox[item.n], p.0, p.1);
      }
    }
  }

  lemma {:induction false} ProcessAskedFor(lim: Limits, b: Broker)
    requires Inv(lim, b) && RxAllOk(b) && AllAskedFor(b)
    ensures AllAskedFor(Process(lim, b).b)
    decreases |Agenda(b.sessions)|
  {
    if Agenda(b.sessions) != [] {
      FoldStep(lim, b);
      NextAskedFor(lim, b);
      NextRxOk(lim, b);
      if Next(lim, b).status.Ok? {
        ProcessAskedFor(lim, Next(lim, b).b);
      }
    }
  }

  lemma {:induction false} ApplyAskedFor(lim: Limits, r: Run, op: Op)
    requires Inv(lim, r.b) && RxAllOk(r.b) && AllAskedFor(r.b)
    ensures AllAskedFor(Apply(lim, r, op).b)
  {
    match op
    case Remove(id) =>
      Topics.RestrictRemovesPairs(r.b.topics, {id});
      AskedForMonotone(r.b, Apply(lim, r, op).b);
    case CleanupPass(now) =>
      Topics.RestrictRemovesPairs(r.b.topics, Sessions.DoomedIds(r.b.sessions, now));
      AskedForMonotone(r.b, Apply(lim, r, op).b);
    case ProcessAll => ProcessAskedFor(lim, r.b);
    case _ => AskedForMonotone(r.b, Apply(lim, r, op).b);
  }

  lemma {:induction false} ExecAskedFor(lim: Limits, r: Run, ops: seq<Op>)
    requires Inv(lim, r.b) && RunOk(r) && AllAskedFor(r.b)
    ensures AllAskedFor(Exec(lim, r, ops).b)
    decreases |ops|
  {
    if ops != [] {
      ApplyKeepsInv(lim, r, ops[0]);
      ApplyOk(lim, r, ops[0]);
      ApplyAskedFor(lim, r, ops[0]);
      ExecAskedFor(lim, Apply(lim, r, ops[0]), ops[1..]);
    }
  }

  /** Every subscription in a reachable state belongs to a session that exists and that
      asked for it in a SUBSCRIBE the broker accepted. */
  lemma {:induction false} EverySubscriptionWasAskedFor(lim: Limits, ops: seq<Op>, f: Bytes, x: SessionId)
    requires (f, x) in Topics.Pairs(Exec(lim, START, ops).b.topics)
    ensures var b := Exec(lim, START, ops).b; Sessions.Live(b.sessions, x) && AskedFor(b.inbox, f, x)
  {
    StartInv(lim);
    assert RunOk(START);
    EveryRunKeepsInv(lim, START, ops);
    ExecAskedFor(lim, START, ops);
    assert (f, x).1 == x;
  }

  // ---------- what is known of all packets that are received ----------

  /** Every packet handed to the broker has the property. */
  ghost predicate Receives(p: Packet -> bool, ops: seq<Op>) {
    forall i :: 0 <= i < |ops| && ops[i].Receive? ==> p(ops[i].packet)
  }

  ghost predicate InboxHas(p: Packet -> bool, b: Broker) {
    forall n :: 0 <= n < |b.inbox| ==> p(b.inbox[n].1)
  }

  lemma {:induction false} ApplyInbox(lim: Limits, r: Run, op: Op)
    requires Inv(lim, r.b)
    ensures Apply(lim, r, op).b.inbox == r.b.inbox ||
            (op.Receive? && Apply(lim, r, op).b.inbox == r.b.inbox + [(op.id, op.packet)])
  {
    if op.ProcessAll? {
      ProcessExact(lim, r.b);
    }
  }

  lemma {:induction false} ExecInbox(p: Packet -> bool, lim: Limits, r: Run, ops: seq<Op>)
    requires Inv(lim, r.b) && InboxHas(p, r.b) && Receives(p, ops)
    ensures InboxHas(p, Exec(lim, r, ops).b)
    decreases |ops|
  {
    if ops != [] {
      ApplyKeepsInv(lim, r, ops[0]);
      ApplyInbox(lim, r, ops[0]);
      assert InboxHas(p, Apply(lim, r, ops[0]).b);
      ExecInbox(p, lim, Apply(lim, r, ops[0]), ops[1..]);
    }
  }

  /** A filter that was asked for stands in a packet with the property. */
  lemma {:induction false} FilterOfPacket(p: Packet -> bool, b: Broker, f: Bytes, x: SessionId) returns (packet: Packet)
    requires InboxHas(p, b) && AskedFor(b.inbox, f, x)
    ensures p(packet) && packet.Subscribe? && packet.filter == f
  {
    var n :| 0 <= n < |b.inbox| && Asks(b.inbox[n], f, x);
    packet := b.inbox[n].1;
  }

  function Decodable(build: WireFormat.Build): Packet -> bool {
    (p: Packet) => WireFormat.PacketOk(build, p)
  }

  /** Every packet handed to the broker is well formed, as decoded packets are. */
  ghost predicate Decoded(build: WireFormat.Build, ops: seq<Op>) {
    Receives(Decodable(build), ops)
  }

  lemma {:induction false} FilterIsText(build: WireFormat.Build, lim: Limits, ops: seq<Op>, f: Bytes, x: SessionId)
    requires Decoded(build, ops) && (f, x) in Topics.Pairs(Exec(lim, START, ops).b.topics)
    ensures Utf8.Valid(f)
  {
    EverySubscriptionWasAskedFor(lim, ops, f, x);
    StartInv(lim);
    ExecInbox(Decodable(build), lim, START, ops);
    var packet := FilterOfPacket(Decodable(build), Exec(lim, START, ops).b, f, x);
  }

  /** If all packets were decoded, a publication on a publishable topic goes to exactly the
      sessions with a filter that matches it by section 4.7.1, as they were sent. */
  lemma {:induction false} DecodedFanOut(build: WireFormat.Build, lim: Limits, ops: seq<Op>, topic: Bytes, x: SessionId)
    requires lim.maxSubscribers >= lim.maxSessions && Decoded(build, ops)
    requires Utf8.Valid(topic) && TopicFilter.Publishable(topic)
    ensures var ts := Exec(lim, START, ops).b.topics;
            x in Topics.Subscribers(lim, ts, topic) <==>
            exists f :: (f, x) in Topics.Pairs(ts) && TopicFilter.Rule(TopicFilter.Split(topic), TopicFilter.Split(f))
  {
    ReachableFanOut(lim, ops, topic);
    forall f | (f, x) in Topics.Pairs(Exec(lim, START, ops).b.topics)
      ensures ShownRule(topic, f) == TopicFilter.Rule(TopicFilter.Split(topic), TopicFilter.Split(f))
    {
      FilterIsText(build, lim, ops, f, x);
    }
  }
}
