/** What every step of the broker keeps, how draining the queues ends, and exactly
    whom a publication reaches. */
module BrokerInvariant {
  import opened Basics
  import opened BrokerTypes
  import opened BrokerModel
  import Sessions = SessionModel
  import Topics = TopicIndex

  /** The only errors that handling a packet can report. */
  predicate CapacityError(e: BrokerError) {
    e.SessionQueueFull? || e.MaxTopicsReached? || e.MaxSubscribersPerTopicReached?
  }

  lemma {:induction false} DeliverKeepsWellFormed(lim: Limits, ss: seq<Sessions.Session>, msgs: seq<Message>)
    requires Sessions.WellFormed(lim, ss)
    ensures Sessions.WellFormed(lim, Deliver(lim, ss, msgs).sessions)
    decreases |msgs|
  {
    if msgs != [] {
      var (ss1, status) := Sessions.QueueTx(lim, ss, msgs[0].to, msgs[0].item);
      if status.Ok? {
        DeliverKeepsWellFormed(lim, ss1, msgs[1..]);
      }
    }
  }

  /** Sessions that only differ in fields other than the id are equally live. */
  lemma {:induction false} LiveSameIds(b: Broker, ss: seq<Sessions.Session>)
    requires SubscribersAreLive(b)
    requires |ss| == |b.sessions| && forall i :: 0 <= i < |ss| ==> ss[i].id == b.sessions[i].id
    ensures SubscribersAreLive(b.(sessions := ss))
  {
    forall p | p in Topics.Pairs(b.topics)
      ensures Sessions.Live(ss, p.1)
    {
      Sessions.FindSameIds(b.sessions, ss, p.1);
    }
  }

  /** Same sessions with the same queues. */
  ghost predicate SameQueues(ss: seq<Sessions.Session>, tt: seq<Sessions.Session>) {
    |ss| == |tt| && forall i :: 0 <= i < |ss| ==> ss[i].id == tt[i].id && ss[i].rx == tt[i].rx && ss[i].tx == tt[i].tx
  }

  lemma {:induction false} SameQueuesKeepInv(lim: Limits, b: Broker, ss: seq<Sessions.Session>)
    requires Inv(lim, b) && SameQueues(b.sessions, ss)
    ensures Inv(lim, b.(sessions := ss))
  {
    LiveSameIds(b, ss);
  }

  lemma {:induction false} SubscribeKeepsInv(lim: Limits, b: Broker, from: SessionId, f: Bytes)
    requires Inv(lim, b) && Sessions.Live(b.sessions, from)
    ensures var (ts, status) := Topics.Subscribe(lim, b.topics, from, f);
            && Inv(lim, b.(topics := ts))
            && (status.Err? ==> status.error in {MaxTopicsReached, MaxSubscribersPerTopicReached})
  {
    Topics.SubscribeKeepsWellFormed(lim, b.topics, from, f);
    Topics.SubscribeAddsOnePair(lim, b.topics, from, f);
  }

  lemma {:induction false} ConnectKeepsQueues(lim: Limits, b: Broker, from: SessionId, item: Sessions.Inbound)
    requires item.packet.Connect?
    ensures SameQueues(b.sessions, Prepare(lim, b, from, item).b.sessions)
    ensures Prepare(lim, b, from, item).b.topics == b.topics
  {
    var c := item.packet.connect;
    var s1 := if c.clientId == [] then b.sessions else Sessions.SetClientId(b.sessions, from, c.clientId).0;
    var s2 := Sessions.SetKeepAlive(s1, from, c.keepAlive).0;
    var s3 := Sessions.SetState(s2, from, Sessions.Connected).0;
    SameQueuesTransitive(b.sessions, s1, s2);
    SameQueuesTransitive(b.sessions, s2, s3);
  }

  lemma {:induction false} SameQueuesTransitive(
      ss: seq<Sessions.Session>, tt: seq<Sessions.Session>, uu: seq<Sessions.Session>)
    requires SameQueues(ss, tt) && SameQueues(tt, uu)
    ensures SameQueues(ss, uu)
  {
  }

  lemma {:induction false} PrepareKeepsInv(lim: Limits, b: Broker, from: SessionId, item: Sessions.Inbound)
    requires Inv(lim, b) && Sessions.Live(b.sessions, from)
    ensures var p := Prepare(lim, b, from, item);
            && Inv(lim, p.b)
            && SameQueues(b.sessions, p.b.sessions)
            && p.b.inbox == b.inbox
            && (p.status.Err? ==> p.status.error in {MaxTopicsReached, MaxSubscribersPerTopicReached})
  {
    var p := Prepare(lim, b, from, item);
    match item.packet
    case Subscribe(_, filter, _) =>
      SubscribeKeepsInv(lim, b, from, filter);
    case Connect(_) =>
      ConnectKeepsQueues(lim, b, from, item);
      SameQueuesKeepInv(lim, b, p.b.sessions);
    case Disconnect =>
      SameQueuesKeepInv(lim, b, p.b.sessions);
    case _ =>
  }

  /** Whoever a publication is addressed to exists. */
  lemma {:induction false} SubscribersLive(lim: Limits, b: Broker, topic: Bytes)
    requires SubscribersAreLive(b)
    ensures forall x :: x in Topics.Subscribers(lim, b.topics, topic) ==> Sessions.Live(b.sessions, x)
  {
    Topics.SubscribersAreMatches(lim, b.topics, topic);
    forall x | x in Topics.Subscribers(lim, b.topics, topic)
      ensures Sessions.Live(b.sessions, x)
    {
      Topics.MatchingIsJoin(b.topics, topic, x);
    }
  }

  lemma {:induction false} RepliesLive(lim: Limits, b: Broker, from: SessionId, item: Sessions.Inbound)
    requires SubscribersAreLive(b) && Sessions.Live(b.sessions, from)
    ensures AllLive(b.sessions, Replies(lim, b.topics, from, item))
  {
    if item.packet.Publish? {
      SubscribersLive(lim, b, item.packet.publish.topic);
    }
  }

  /** Handling any packet of a live session keeps the invariant on success and on
      failure, leaves all receive queues alone, and can fail only for lack of room. */
  lemma {:induction false} HandleKeepsInv(lim: Limits, b: Broker, from: SessionId, item: Sessions.Inbound)
    requires Inv(lim, b) && Sessions.Live(b.sessions, from)
    ensures var step := Handle(lim, b, from, item);
            && Inv(lim, step.b)
            && Sessions.SameRx(b.sessions, step.b.sessions)
            && step.b.inbox == b.inbox
            && (step.status.Err? ==> CapacityError(step.status.error))
  {
    var p := Prepare(lim, b, from, item);
    PrepareKeepsInv(lim, b, from, item);
    if p.status.Ok? {
      Sessions.FindSameIds(b.sessions, p.b.sessions, from);
      RepliesLive(lim, p.b, from, item);
      var msgs := Replies(lim, p.b.topics, from, item);
      DeliverExact(lim, p.b.sessions, msgs);
      DeliverKeepsWellFormed(lim, p.b.sessions, msgs);
      LiveSameIds(p.b, Deliver(lim, p.b.sessions, msgs).sessions);
    }
  }

  lemma {:induction false} DeliverKeepsIds(lim: Limits, ss: seq<Sessions.Session>, msgs: seq<Message>)
    ensures var tt := Deliver(lim, ss, msgs).sessions;
            |tt| == |ss| && forall i :: 0 <= i < |ss| ==> tt[i].id == ss[i].id
    decreases |msgs|
  {
    if msgs != [] {
      DeliverKeepsIds(lim, Sessions.QueueTx(lim, ss, msgs[0].to, msgs[0].item).0, msgs[1..]);
    }
  }

  /** A packet that subscribes, and is not refused. */
  predicate Subscribes(lim: Limits, b: Broker, from: SessionId, item: Sessions.Inbound) {
    item.packet.Subscribe? && Topics.Subscribe(lim, b.topics, from, item.packet.filter).1.Ok?
  }

  /** Only a SUBSCRIBE can harm, by leaving a subscription of nobody. */
  lemma {:induction false} StrangerSubscribes(lim: Limits, b: Broker, from: SessionId, item: Sessions.Inbound)
    requires Inv(lim, b) && !Sessions.Live(b.sessions, from) && Subscribes(lim, b, from, item)
    ensures !SubscribersAreLive(Handle(lim, b, from, item).b)
  {
    var p, f := Prepare(lim, b, from, item), item.packet.filter;
    var step := Handle(lim, b, from, item);
    Topics.SubscribeAddsOnePair(lim, b.topics, from, f);
    DeliverKeepsIds(lim, b.sessions, Replies(lim, p.b.topics, from, item));
    Sessions.FindSameIds(b.sessions, step.b.sessions, from);
    assert (f, from) in Topics.Pairs(step.b.topics) && (f, from).1 == from;
  }

  lemma {:induction false} StrangerKeepsInv(lim: Limits, b: Broker, from: SessionId, item: Sessions.Inbound)
    requires Inv(lim, b) && !Sessions.Live(b.sessions, from) && !Subscribes(lim, b, from, item)
    ensures Inv(lim, Handle(lim, b, from, item).b)
  {
    var p := Prepare(lim, b, from, item);
    if item.packet.Subscribe? {
      Topics.SubscribeAddsOnePair(lim, b.topics, from, item.packet.filter);
    }
    assert p.b == b;
    if p.status.Ok? {
      var msgs := Replies(lim, b.topics, from, item);
      DeliverKeepsWellFormed(lim, b.sessions, msgs);
      DeliverKeepsIds(lim, b.sessions, msgs);
      LiveSameIds(b, Deliver(lim, b.sessions, msgs).sessions);
    }
  }

  /** For any session id, handling a packet keeps the invariant if and only if the session
      exists or the packet leaves no subscription behind. */
  lemma {:induction false} HandleKeepsInvIff(lim: Limits, b: Broker, from: SessionId, item: Sessions.Inbound)
    requires Inv(lim, b)
    ensures Inv(lim, Handle(lim, b, from, item).b) <==>
            Sessions.Live(b.sessions, from) || !Subscribes(lim, b, from, item)
  {
    if Sessions.Live(b.sessions, from) {
      HandleKeepsInv(lim, b, from, item);
    } else if Subscribes(lim, b, from, item) {
      StrangerSubscribes(lim, b, from, item);
    } else {
      StrangerKeepsInv(lim, b, from, item);
    }
  }

  // ---------- draining all receive queues ----------

  lemma {:induction false} AgendaSameRx(ss: seq<Sessions.Session>, tt: seq<Sessions.Session>)
    requires Sessions.SameRx(ss, tt)
    ensures Agenda(ss) == Agenda(tt)
  {
    if ss != [] {
      AgendaSameRx(ss[1..], tt[1..]);
    }
  }

  /** The next packet belongs to the first session with a non-empty queue; taking it
      leaves the rest of the agenda. */
  lemma {:induction false} AgendaHead(ss: seq<Sessions.Session>, k: nat)
    requires k < |ss| && ss[k].rx != []
    requires forall i :: 0 <= i < k ==> ss[i].rx == []
    ensures Agenda(ss) != [] && Agenda(ss)[0] == (ss[k].id, ss[k].rx[0])
    ensures Agenda(ss[k := ss[k].(rx := ss[k].rx[1..])]) == Agenda(ss)[1..]
  {
    var tt := ss[k := ss[k].(rx := ss[k].rx[1..])];
    if k == 0 {
      assert tt[1..] == ss[1..];
      assert Queue(ss[0].id, ss[0].rx)[1..] == Queue(ss[0].id, ss[0].rx[1..]);
    } else {
      AgendaHead(ss[1..], k - 1);
      assert tt[1..] == ss[1..][k - 1 := ss[k].(rx := ss[k].rx[1..])];
      assert Queue(ss[0].id, ss[0].rx) == [];
    }
  }

  lemma {:induction false} AgendaEmpty(ss: seq<Sessions.Session>)
    ensures Agenda(ss) == [] <==> forall i :: 0 <= i < |ss| ==> ss[i].rx == []
  {
    if ss != [] {
      AgendaEmpty(ss[1..]);
      assert Agenda(ss) == [] ==> forall i :: 1 <= i < |ss| ==> ss[i] == ss[1..][i - 1];
      assert |Queue(ss[0].id, ss[0].rx)| == |ss[0].rx|;
      if forall i :: 0 <= i < |ss| ==> ss[i].rx == [] {
        assert forall i :: 0 <= i < |ss[1..]| ==> ss[1..][i] == ss[i + 1];
      }
    }
  }

  function FirstBusy(ss: seq<Sessions.Session>): (k: nat)
    ensures k <= |ss|
    ensures k < |ss| ==> ss[k].rx != []
    ensures forall i :: 0 <= i < k ==> ss[i].rx == []
  {
    if ss == [] || ss[0].rx != [] then 0 else 1 + FirstBusy(ss[1..])
  }

  /** Taking the next packet keeps the invariant and shortens the agenda by one. */
  lemma {:induction false} TakeNext(lim: Limits, b: Broker)
    requires Inv(lim, b) && Agenda(b.sessions) != []
    ensures var (from, item) := Agenda(b.sessions)[0];
            var b1 := b.(sessions := Sessions.DropRx(b.sessions, from));
            && Sessions.Live(b.sessions, from) && Sessions.Live(b1.sessions, from)
            && Sessions.Rx(b.sessions, from) != [] && Sessions.Rx(b.sessions, from)[0] == item
            && Inv(lim, b1)
            && Agenda(b1.sessions) == Agenda(b.sessions)[1..]
  {
    var k := FirstBusy(b.sessions);
    AgendaEmpty(b.sessions);
    AgendaHead(b.sessions, k);
    Sessions.FindAt(b.sessions, k);
    var b1 := b.(sessions := Sessions.DropRx(b.sessions, b.sessions[k].id));
    Sessions.FindSameIds(b.sessions, b1.sessions, b.sessions[k].id);
    LiveSameIds(b, b1.sessions);
  }

  /** One turn of the draining loop. */
  lemma {:induction false} FoldStep(lim: Limits, b: Broker)
    requires Inv(lim, b) && Agenda(b.sessions) != []
    ensures var (from, item) := Agenda(b.sessions)[0];
            var step := Handle(lim, b.(sessions := Sessions.DropRx(b.sessions, from)), from, item);
            && Inv(lim, step.b)
            && Agenda(step.b.sessions) == Agenda(b.sessions)[1..]
            && step.b.inbox == b.inbox
            && (step.status.Err? ==> CapacityError(step.status.error))
  {
    TakeNext(lim, b);
    var (from, item) := Agenda(b.sessions)[0];
    var b1 := b.(sessions := Sessions.DropRx(b.sessions, from));
    HandleKeepsInv(lim, b1, from, item);
    AgendaSameRx(b1.sessions, Handle(lim, b1, from, item).b.sessions);
  }

  /** Draining: on success every received packet was handled; on failure after k
      packets exactly the first k + 1 are gone and the rest wait in order. The
      invariant survives either way, and only a capacity can be to blame. */
  lemma {:induction false} ProcessExact(lim: Limits, b: Broker)
    requires Inv(lim, b)
    ensures var r, agenda := Process(lim, b), Agenda(b.sessions);
            && Inv(lim, r.b)
            && r.b.inbox == b.inbox
            && (r.status.Ok? ==> r.handled == |agenda| && Agenda(r.b.sessions) == [])
            && (r.status.Err? ==> r.handled < |agenda| && Agenda(r.b.sessions) == agenda[r.handled + 1..])
            && (r.status.Err? ==> CapacityError(r.status.error))
    decreases |Agenda(b.sessions)|
  {
    var agenda := Agenda(b.sessions);
    if agenda != [] {
      FoldStep(lim, b);
      var (from, item) := agenda[0];
      var step := Handle(lim, b.(sessions := Sessions.DropRx(b.sessions, from)), from, item);
      if step.status.Ok? {
        ProcessExact(lim, step.b);
        var rest := Process(lim, step.b);
        assert rest.status.Err? ==> agenda[1..][rest.handled + 1..] == agenda[rest.handled + 2..];
      }
    }
  }

  // ---------- pigeonhole across the two registries ----------

  lemma {:induction false} LiveInIds(ss: seq<Sessions.Session>, x: SessionId)
    requires Sessions.Live(ss, x)
    ensures x in Sessions.Ids(ss)
  {
    assert Sessions.Ids(ss)[Sessions.Find(ss, x)] == x;
  }

  /** Distinct live sessions are at most as many as there are sessions. */
  lemma {:induction false} AtMostSessions(lim: Limits, ss: seq<Sessions.Session>, xs: seq<SessionId>)
    requires Sessions.WellFormed(lim, ss) && NoDup(xs)
    requires forall x :: x in xs ==> Sessions.Live(ss, x)
    ensures |xs| <= lim.maxSessions
  {
    forall x | x in xs
      ensures x in Sessions.Ids(ss)
    {
      LiveInIds(ss, x);
    }
    Pigeonhole(xs, Sessions.Ids(ss));
  }

  /** With room for as many subscribers as there can be sessions, a publication reaches
      every session that has a matching filter, although failed pushes are ignored. */
  lemma {:induction false} NoSubscriberDropped(lim: Limits, b: Broker, topic: Bytes)
    requires Inv(lim, b) && lim.maxSubscribers >= lim.maxSessions
    ensures forall x :: x in Topics.Subscribers(lim, b.topics, topic) <==>
              exists f :: (f, x) in Topics.Pairs(b.topics) && Topics.Matches(topic, f)
  {
    var all := Dedup(Topics.Matching(b.topics, topic));
    forall x: SessionId
      ensures x in all <==> exists f :: (f, x) in Topics.Pairs(b.topics) && Topics.Matches(topic, f)
      ensures x in all ==> Sessions.Live(b.sessions, x)
    {
      Topics.MatchingIsJoin(b.topics, topic, x);
    }
    AtMostSessions(lim, b.sessions, all);
  }

  lemma {:induction false} EntryInPairs(ts: seq<Topics.TopicEntry>, i: nat, x: SessionId)
    requires i < |ts| && x in ts[i].subscribers
    ensures (ts[i].filter, x) in Topics.Pairs(ts)
  {
    Topics.PairsAt(ts, i);
  }

  /** In that case a live session never meets the per-topic limit; nor if there can be no
      topics at all. */
  lemma {:induction false} SubscribeNeverCrowded(lim: Limits, b: Broker, id: SessionId, f: Bytes)
    requires Inv(lim, b) && Sessions.Live(b.sessions, id)
    requires lim.maxSubscribers >= lim.maxSessions || lim.maxTopics == 0
    ensures Topics.Subscribe(lim, b.topics, id, f).1 != Err(MaxSubscribersPerTopicReached)
  {
    var i := Topics.FindFilter(b.topics, f);
    if i < |b.topics| {
      var subs := b.topics[i].subscribers;
      if id !in subs {
        forall x | x in subs
          ensures Sessions.Live(b.sessions, x)
        {
          EntryInPairs(b.topics, i, x);
        }
        AtMostSessions(lim, b.sessions, subs + [id]);
      }
    } else if lim.maxTopics > 0 {
      AtMostSessions(lim, b.sessions, [id]);
    }
  }

  /** Hence draining then fails only on a full queue or a full topic index. */
  lemma {:induction false} ProcessNeverCrowded(lim: Limits, b: Broker)
    requires Inv(lim, b) && (lim.maxSubscribers >= lim.maxSessions || lim.maxTopics == 0)
    ensures Process(lim, b).status != Err(MaxSubscribersPerTopicReached)
    decreases |Agenda(b.sessions)|
  {
    if Agenda(b.sessions) != [] {
      var (from, item) := Agenda(b.sessions)[0];
      var b1 := b.(sessions := Sessions.DropRx(b.sessions, from));
      var step := Handle(lim, b1, from, item);
      TakeNext(lim, b);
      FoldStep(lim, b);
      if item.packet.Subscribe? {
        SubscribeNeverCrowded(lim, b1, from, item.packet.filter);
      }
      var p := Prepare(lim, b1, from, item);
      PrepareKeepsInv(lim, b1, from, item);
      Sessions.FindSameIds(b1.sessions, p.b.sessions, from);
      RepliesLive(lim, p.b, from, item);
      DeliverExact(lim, p.b.sessions, Replies(lim, p.b.topics, from, item));
      if step.status.Ok? {
        ProcessNeverCrowded(lim, step.b);
      }
    }
  }
}
