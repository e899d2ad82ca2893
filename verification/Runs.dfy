/** Whole runs of the broker: any sequence of its public operations, in any order. */
module Runs {
  import opened Basics
  import opened BrokerTypes
  import opened Packets
  import opened BrokerModel
  import opened BrokerInvariant
  import TopicFilter
  import Utf8
  import Sessions = SessionModel
  import Topics = TopicIndex

  datatype Op =
    | Register(id: SessionId, keepAlive: u16, now: nat)
    | Disconnected(id: SessionId)
    | Remove(id: SessionId)
    | Receive(id: SessionId, packet: Packet, now: nat)
    | Send(id: SessionId)
    | ProcessAll
    | CleanupPass(now: nat)

  /** The broker together with everything it has handed over to each client so far. */
  datatype Run = Run(b: Broker, delivered: map<SessionId, seq<Sessions.Outbound>>)

  function Sent(r: Run, id: SessionId): seq<Sessions.Outbound> {
    if id in r.delivered then r.delivered[id] else []
  }

  /** Everything handed over to a client, followed by everything waiting for it. */
  function Log(r: Run, id: SessionId): seq<Sessions.Outbound> {
    Sent(r, id) + Sessions.Tx(r.b.sessions, id)
  }

  function Apply(lim: Limits, r: Run, op: Op): Run {
    match op
    case Register(id, keepAlive, now) => r.(b := RegisterSession(lim, r.b, id, keepAlive, now).b)
    case Disconnected(id) => r.(b := MarkDisconnected(r.b, id).b)
    case Remove(id) => r.(b := Purge(r.b, {id}))
    case Receive(id, packet, now) => r.(b := BrokerModel.Receive(lim, r.b, id, packet, now).b)
    case Send(id) =>
      var tx := Sessions.Tx(r.b.sessions, id);
      if tx == [] then r
      else Run(r.b.(sessions := Sessions.DropTx(r.b.sessions, id)), r.delivered[id := Sent(r, id) + [tx[0]]])
    case ProcessAll => r.(b := Process(lim, r.b).b)
    case CleanupPass(now) => r.(b := Cleanup(r.b, now))
  }

  const START: Run := Run(EMPTY, map[])

  function Exec(lim: Limits, r: Run, ops: seq<Op>): Run
    decreases |ops|
  {
    if ops == [] then r else Exec(lim, Apply(lim, r, ops[0]), ops[1..])
  }

  // ---------- the broker's invariant over all runs ----------

  lemma {:induction false} PurgeKeepsInv(lim: Limits, b: Broker, gone: set<SessionId>)
    requires Inv(lim, b)
    ensures Inv(lim, Purge(b, gone))
  {
    Topics.RestrictKeepsWellFormed(lim, b.topics, gone);
    Sessions.WithoutKeepsWellFormed(lim, b.sessions, gone);
    Topics.RestrictRemovesPairs(b.topics, gone);
    forall p | p in Topics.Pairs(Purge(b, gone).topics)
      ensures Sessions.Live(Purge(b, gone).sessions, p.1)
    {
      Sessions.WithoutFind(b.sessions, gone, p.1);
    }
  }

  lemma {:induction false} RegisterKeepsInv(lim: Limits, b: Broker, id: SessionId, keepAlive: u16, now: nat)
    requires Inv(lim, b)
    ensures Inv(lim, RegisterSession(lim, b, id, keepAlive, now).b)
  {
    var b' := RegisterSession(lim, b, id, keepAlive, now).b;
    forall p | p in Topics.Pairs(b.topics)
      ensures Sessions.Live(b'.sessions, p.1)
    {
      Sessions.FindSnoc(b.sessions, Sessions.Session(id, None, Sessions.Connecting, keepAlive, now, [], []), p.1);
    }
  }

  lemma {:induction false} ReceiveKeepsInv(lim: Limits, b: Broker, id: SessionId, packet: Packet, now: nat)
    requires Inv(lim, b)
    ensures Inv(lim, BrokerModel.Receive(lim, b, id, packet, now).b)
  {
    var ss := Sessions.SetActivity(b.sessions, id, now).0;
    SameQueuesKeepInv(lim, b, ss);
    var b' := BrokerModel.Receive(lim, b, id, packet, now).b;
    LiveSameIds(b, b'.sessions);
  }

  lemma {:induction false} ApplyKeepsInv(lim: Limits, r: Run, op: Op)
    requires Inv(lim, r.b)
    ensures Inv(lim, Apply(lim, r, op).b)
  {
    match op
    case Register(id, keepAlive, now) => RegisterKeepsInv(lim, r.b, id, keepAlive, now);
    case Disconnected(id) => SameQueuesKeepInv(lim, r.b, MarkDisconnected(r.b, id).b.sessions);
    case Remove(id) => PurgeKeepsInv(lim, r.b, {id});
    case Receive(id, packet, now) => ReceiveKeepsInv(lim, r.b, id, packet, now);
    case Send(id) => LiveSameIds(r.b, Apply(lim, r, op).b.sessions);
    case ProcessAll => ProcessExact(lim, r.b);
    case CleanupPass(now) => PurgeKeepsInv(lim, r.b, Sessions.DoomedIds(r.b.sessions, now));
  }

  lemma {:induction false} StartInv(lim: Limits)
    ensures Inv(lim, START.b)
  {
  }

  /** The invariant holds in every reachable state. */
  lemma {:induction false} EveryRunKeepsInv(lim: Limits, r: Run, ops: seq<Op>)
    requires Inv(lim, r.b)
    ensures Inv(lim, Exec(lim, r, ops).b)
    decreases |ops|
  {
    if ops != [] {
      ApplyKeepsInv(lim, r, ops[0]);
      EveryRunKeepsInv(lim, Apply(lim, r, ops[0]), ops[1..]);
    }
  }

  /** Hence in every reachable state draining fails with nothing but an exhausted
      capacity, never because a session is missing. */
  lemma {:induction false} ReachableProcessing(lim: Limits, ops: seq<Op>)
    ensures var status := Process(lim, Exec(lim, START, ops).b).status;
            && (status.Err? ==> CapacityError(status.error))
            && (lim.maxSubscribers >= lim.maxSessions ==> status != Err(MaxSubscribersPerTopicReached))
  {
    StartInv(lim);
    EveryRunKeepsInv(lim, START, ops);
    var b := Exec(lim, START, ops).b;
    ProcessExact(lim, b);
    if lim.maxSubscribers >= lim.maxSessions {
      ProcessNeverCrowded(lim, b);
    }
  }

  /** Section 4.7.1, on what topic and filter show. */
  predicate ShownRule(topic: Bytes, filter: Bytes) {
    TopicFilter.Rule(TopicFilter.Split(Utf8.AsStr(topic)), TopicFilter.Split(Utf8.AsStr(filter)))
  }

  /** And with enough room per topic, a publication on a topic that shows as publishable
      goes to exactly the sessions that have a filter matching it by section 4.7.1, each
      once. */
  lemma {:induction false} ReachableFanOut(lim: Limits, ops: seq<Op>, topic: Bytes)
    requires lim.maxSubscribers >= lim.maxSessions && TopicFilter.Publishable(Utf8.AsStr(topic))
    ensures var ts := Exec(lim, START, ops).b.topics;
            var subs := Topics.Subscribers(lim, ts, topic);
            && NoDup(subs)
            && forall x :: x in subs <==> exists f :: (f, x) in Topics.Pairs(ts) && ShownRule(topic, f)
  {
    StartInv(lim);
    EveryRunKeepsInv(lim, START, ops);
    var b := Exec(lim, START, ops).b;
    Topics.SubscribersAreMatches(lim, b.topics, topic);
    NoSubscriberDropped(lim, b, topic);
    forall f: Bytes
      ensures Topics.Matches(topic, f) == ShownRule(topic, f)
    {
      ShownFilterAgrees(topic, f);
    }
  }

  lemma {:induction false} ShownFilterAgrees(topic: Bytes, f: Bytes)
    requires TopicFilter.Publishable(Utf8.AsStr(topic))
    ensures Topics.Matches(topic, f) == ShownRule(topic, f)
  {
    TopicFilter.AgreesIffPublishable(Utf8.AsStr(topic));
    assert Utf8.Valid(Utf8.AsStr(f));
  }

  // ---------- the cleanup pass ----------

  lemma {:induction false} DoomedMember(ss: seq<Sessions.Session>, now: nat, id: SessionId)
    requires Sessions.UniqueIds(ss)
    ensures id in Sessions.DoomedIds(ss, now) <==>
            Sessions.Live(ss, id) && Sessions.Doomed(ss[Sessions.Find(ss, id)], now)
  {
    if id in Sessions.DoomedIds(ss, now) {
      var s :| s in ss && Sessions.Doomed(s, now) && s.id == id;
      var i :| 0 <= i < |ss| && ss[i] == s;
      Sessions.FindAt(ss, i);
    }
  }

  /** A cleanup pass removes exactly the sessions that are expired or disconnected; the
      others keep their place, contents and subscriptions, and nobody else has any. */
  lemma {:induction false} CleanupExact(lim: Limits, b: Broker, now: nat, id: SessionId)
    requires Inv(lim, b)
    ensures var c, i := Cleanup(b, now), Sessions.Find(b.sessions, id);
            && (Sessions.Live(c.sessions, id) <==>
                  && i < |b.sessions|
                  && b.sessions[i].state != Sessions.Disconnected
                  && var s := b.sessions[i];
                     s.keepAlive == 0 || now - s.lastActivity <= (s.keepAlive + s.keepAlive / 2) * 1_000_000_000)
            && (Sessions.Live(c.sessions, id) ==> c.sessions[Sessions.Find(c.sessions, id)] == b.sessions[i])
            && (forall f :: (f, id) in Topics.Pairs(c.topics) <==>
                              (f, id) in Topics.Pairs(b.topics) && Sessions.Live(c.sessions, id))
            && c.inbox == b.inbox
  {
    var gone, i := Sessions.DoomedIds(b.sessions, now), Sessions.Find(b.sessions, id);
    if i < |b.sessions| {
      Sessions.ExpiredIff(b.sessions[i].keepAlive, b.sessions[i].lastActivity, now);
    }
    DoomedMember(b.sessions, now, id);
    Sessions.WithoutFind(b.sessions, gone, id);
    Topics.RestrictRemovesPairs(b.topics, gone);
    forall f | (f, id) in Topics.Pairs(b.topics)
      ensures Sessions.Live(b.sessions, id)
    {
      assert (f, id).1 == id;
    }
  }

  /** Survivors stay in registry order. */
  lemma {:induction false} CleanupKeepsOrder(lim: Limits, b: Broker, now: nat, i: nat, j: nat)
    requires Inv(lim, b) && i < j < |Cleanup(b, now).sessions|
    ensures var ss := Cleanup(b, now).sessions;
            Sessions.Find(b.sessions, ss[i].id) < Sessions.Find(b.sessions, ss[j].id) < |b.sessions|
  {
    Sessions.WithoutKeepsOrder(b.sessions, Sessions.DoomedIds(b.sessions, now), i, j);
  }
}
