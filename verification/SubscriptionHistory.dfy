/** Subscriptions as history, over every run: a session is subscribed to a filter exactly
    if, since it was registered, a SUBSCRIBE of it for that filter was handled and not
    refused. Hence a publication reaches exactly the sessions whose history says so. */
module SubscriptionHistory {
  import opened Basics
  import opened BrokerTypes
  import opened Packets
  import opened BrokerModel
  import opened BrokerInvariant
  import opened Runs
  import opened MessageOrder
  import opened Deliveries
  import Subscriptions
  import TopicFilter
  import Utf8
  import WireFormat
  import Sessions = SessionModel
  import Topics = TopicIndex

  datatype Event = Registered(id: SessionId) | Granted(filter: Bytes, id: SessionId)

  /** What handling the next waiting packet adds to the history. A SUBSCRIBE is granted
      even if its SUBACK does not fit. */
  function NextEvents(lim: Limits, b: Broker): seq<Event>
    requires Agenda(b.sessions) != []
  {
    var (from, item) := Agenda(b.sessions)[0];
    var b1 := b.(sessions := Sessions.DropRx(b.sessions, from));
    if Subscribes(lim, b1, from, item) then [Granted(item.packet.filter, from)] else []
  }

  /** What handling the first k waiting packets adds. */
  function EventsBefore(lim: Limits, b: Broker, k: nat): seq<Event>
    decreases k
  {
    if k == 0 || Agenda(b.sessions) == [] then []
    else NextEvents(lim, b) + EventsBefore(lim, Next(lim, b).b, k - 1)
  }

  /** How many packets a draining call takes, the one that makes it fail included. */
  function Taken(lim: Limits, b: Broker): nat {
    Process(lim, b).handled + if Process(lim, b).status.Ok? then 0 else 1
  }

  function EventsOf(lim: Limits, r: Run, op: Op): seq<Event> {
    match op
    case Register(id, keepAlive, now) =>
      if RegisterSession(lim, r.b, id, keepAlive, now).status.Ok? then [Registered(id)] else []
    case ProcessAll => EventsBefore(lim, r.b, Taken(lim, r.b))
    case _ => []
  }

  function History(lim: Limits, r: Run, ops: seq<Op>): seq<Event>
    decreases |ops|
  {
    if ops == [] then [] else EventsOf(lim, r, ops[0]) + History(lim, Apply(lim, r, ops[0]), ops[1..])
  }

  /** The filter was granted, and the session not registered anew after that. */
  ghost predicate GrantedSince(h: seq<Event>, f: Bytes, x: SessionId) {
    exists i :: 0 <= i < |h| && h[i] == Granted(f, x) && forall j :: i < j < |h| ==> h[j] != Registered(x)
  }

  /** The relation is what the history says of the sessions that exist. */
  ghost predicate Accounted(b: Broker, h: seq<Event>) {
    forall f: Bytes, x: SessionId ::
      (f, x) in Topics.Pairs(b.topics) <==> Sessions.Live(b.sessions, x) && GrantedSince(h, f, x)
  }

  lemma {:induction false} GrantedSnoc(h: seq<Event>, e: Event, f: Bytes, x: SessionId)
    ensures GrantedSince(h + [e], f, x) <==> e == Granted(f, x) || (GrantedSince(h, f, x) && e != Registered(x))
  {
    var g := h + [e];
    assert g[|h|] == e && forall i :: 0 <= i < |h| ==> g[i] == h[i];
    if GrantedSince(g, f, x) && e != Granted(f, x) {
      var i :| 0 <= i < |g| && g[i] == Granted(f, x) && forall j :: i < j < |g| ==> g[j] != Registered(x);
      assert h[i] == Granted(f, x) && forall j :: i < j < |h| ==> h[j] == g[j];
    }
    if GrantedSince(h, f, x) && e != Registered(x) {
      var i :| 0 <= i < |h| && h[i] == Granted(f, x) && forall j :: i < j < |h| ==> h[j] != Registered(x);
      assert g[i] == Granted(f, x);
    }
  }

  // ---------- handling packets ----------

  lemma {:induction false} HandleTopics(lim: Limits, b: Broker, from: SessionId, item: Sessions.Inbound)
    requires Inv(lim, b)
    ensures var ts := Handle(lim, b, from, item).b.topics;
            Topics.Pairs(ts) ==
            Topics.Pairs(b.topics) + if Subscribes(lim, b, from, item) then {(item.packet.filter, from)} else {}
  {
    if item.packet.Subscribe? {
      Topics.SubscribeAddsOnePair(lim, b.topics, from, item.packet.filter);
    }
  }

  lemma {:induction false} NextKeepsLive(lim: Limits, b: Broker, x: SessionId)
    requires Inv(lim, b) && Agenda(b.sessions) != []
    ensures Sessions.Live(Next(lim, b).b.sessions, x) == Sessions.Live(b.sessions, x)
  {
    var (from, item) := Agenda(b.sessions)[0];
    var b1 := b.(sessions := Sessions.DropRx(b.sessions, from));
    TakeNext(lim, b);
    HandleKeepsInv(lim, b1, from, item);
    Sessions.FindSameIds(b.sessions, b1.sessions, x);
    Sessions.FindSameIds(b1.sessions, Handle(lim, b1, from, item).b.sessions, x);
  }

  /** The next packet adds its pair to the relation if it is granted. */
  lemma {:induction false} NextPairs(lim: Limits, b: Broker, f: Bytes, x: SessionId)
    requires Inv(lim, b) && Agenda(b.sessions) != []
    ensures (f, x) in Topics.Pairs(Next(lim, b).b.topics) <==>
            (f, x) in Topics.Pairs(b.topics) || NextEvents(lim, b) == [Granted(f, x)]
    ensures NextEvents(lim, b) == [Granted(f, x)] ==> Sessions.Live(b.sessions, x)
  {
    var (from, item) := Agenda(b.sessions)[0];
    TakeNext(lim, b);
    HandleTopics(lim, b.(sessions := Sessions.DropRx(b.sessions, from)), from, item);
  }

  lemma {:induction false} NextAccounted(lim: Limits, b: Broker, h: seq<Event>)
    requires Inv(lim, b) && Agenda(b.sessions) != [] && Accounted(b, h)
    ensures Accounted(Next(lim, b).b, h + NextEvents(lim, b))
  {
    var c, es := Next(lim, b).b, NextEvents(lim, b);
    forall f: Bytes, x: SessionId
      ensures (f, x) in Topics.Pairs(c.topics) <==> Sessions.Live(c.sessions, x) && GrantedSince(h + es, f, x)
    {
      NextPairs(lim, b, f, x);
      NextKeepsLive(lim, b, x);
      if es == [] {
        assert h + es == h;
      } else {
        GrantedSnoc(h, es[0], f, x);
      }
    }
  }

  ghost predicate OnRecord(lim: Limits, b: Broker, h: seq<Event>) {
    Inv(lim, b) && Accounted(b, h)
  }

  lemma {:induction false} NextOnRecord(lim: Limits, b: Broker, h: seq<Event>)
    requires OnRecord(lim, b, h) && Agenda(b.sessions) != []
    ensures OnRecord(lim, Next(lim, b).b, h + NextEvents(lim, b))
  {
    FoldStep(lim, b);
    NextAccounted(lim, b, h);
  }

  /** What each packet keeps of a broker and its history. */
  lemma {:induction false} KeptWithEvents(lim: Limits, p: (Broker, seq<Event>) -> bool, b: Broker, h: seq<Event>, k: nat)
    requires p(b, h)
    requires forall c: Broker, g: seq<Event> {:trigger Next(lim, c), p(c, g)} ::
               p(c, g) && Agenda(c.sessions) != [] ==> p(Next(lim, c).b, g + NextEvents(lim, c))
    ensures p(Before(lim, b, k), h + EventsBefore(lim, b, k))
    decreases k
  {
    if k == 0 || Agenda(b.sessions) == [] {
      assert h + [] == h;
    } else {
      KeptWithEvents(lim, p, Next(lim, b).b, h + NextEvents(lim, b), k - 1);
      Assoc(h, NextEvents(lim, b), EventsBefore(lim, Next(lim, b).b, k - 1));
    }
  }

  lemma {:induction false} BeforeOnRecord(lim: Limits, b: Broker, h: seq<Event>, k: nat)
    requires OnRecord(lim, b, h)
    ensures OnRecord(lim, Before(lim, b, k), h + EventsBefore(lim, b, k))
  {
    var p := (c: Broker, g: seq<Event>) => OnRecord(lim, c, g);
    forall c: Broker, g: seq<Event> | p(c, g) && Agenda(c.sessions) != []
      ensures p(Next(lim, c).b, g + NextEvents(lim, c))
    {
      NextOnRecord(lim, c, g);
    }
    KeptWithEvents(lim, p, b, h, k);
  }

  lemma {:induction false} TakenStep(lim: Limits, b: Broker)
    requires Inv(lim, b) && Agenda(b.sessions) != []
    ensures var step := Next(lim, b);
            && Inv(lim, step.b) && |Agenda(step.b.sessions)| < |Agenda(b.sessions)|
            && Process(lim, b).b == (if step.status.Ok? then Process(lim, step.b).b else step.b)
            && Taken(lim, b) == 1 + if step.status.Ok? then Taken(lim, step.b) else 0
  {
    FoldStep(lim, b);
  }

  /** A draining call ends in the state before the packet that it does not take. */
  lemma {:induction false} ProcessIsBefore(lim: Limits, b: Broker)
    requires Inv(lim, b)
    ensures Process(lim, b).b == Before(lim, b, Taken(lim, b))
    decreases |Agenda(b.sessions)|
  {
    if Agenda(b.sessions) != [] {
      TakenStep(lim, b);
      BeforeStep(lim, b, Taken(lim, b));
      if Next(lim, b).status.Ok? {
        ProcessIsBefore(lim, Next(lim, b).b);
      }
    }
  }

  // ---------- whole runs ----------

  lemma {:induction false} RegisterAccounted(lim: Limits, r: Run, op: Op, h: seq<Event>)
    requires Inv(lim, r.b) && op.Register? && Accounted(r.b, h)
    ensures Accounted(Apply(lim, r, op).b, h + EventsOf(lim, r, op))
  {
    var q, es := Apply(lim, r, op), EventsOf(lim, r, op);
    if es == [] {
      assert h + es == h;
    } else {
      var s := Sessions.Session(op.id, None, Sessions.Connecting, op.keepAlive, op.now, [], []);
      forall f: Bytes, x: SessionId
        ensures (f, x) in Topics.Pairs(q.b.topics) <==> Sessions.Live(q.b.sessions, x) && GrantedSince(h + es, f, x)
      {
        Sessions.FindSnoc(r.b.sessions, s, x);
        GrantedSnoc(h, Registered(op.id), f, x);
      }
    }
  }

  lemma {:induction false} PurgeAccounted(b: Broker, gone: set<SessionId>, h: seq<Event>)
    requires Sessions.UniqueIds(b.sessions) && Accounted(b, h)
    ensures Accounted(Purge(b, gone), h)
  {
    Topics.RestrictRemovesPairs(b.topics, gone);
    forall f: Bytes, x: SessionId
      ensures (f, x) in Topics.Pairs(Purge(b, gone).topics) <==>
              Sessions.Live(Purge(b, gone).sessions, x) && GrantedSince(h, f, x)
    {
      Sessions.WithoutFind(b.sessions, gone, x);
    }
  }

  lemma {:induction false} SameIdsAccounted(b: Broker, c: Broker, h: seq<Event>)
    requires Accounted(b, h) && c.topics == b.topics && |c.sessions| == |b.sessions|
    requires forall i :: 0 <= i < |b.sessions| ==> c.sessions[i].id == b.sessions[i].id
    ensures Accounted(c, h)
  {
    forall f: Bytes, x: SessionId
      ensures (f, x) in Topics.Pairs(c.topics) <==> Sessions.Live(c.sessions, x) && GrantedSince(h, f, x)
    {
      Sessions.FindSameIds(b.sessions, c.sessions, x);
    }
  }

  lemma {:induction false} ApplyAccounted(lim: Limits, r: Run, op: Op, h: seq<Event>)
    requires Inv(lim, r.b) && Accounted(r.b, h)
    ensures Accounted(Apply(lim, r, op).b, h + EventsOf(lim, r, op))
  {
    assert h + [] == h;
    match op
    case Register(_, _, _) => RegisterAccounted(lim, r, op, h);
    case Remove(id) => PurgeAccounted(r.b, {id}, h);
    case CleanupPass(now) => PurgeAccounted(r.b, Sessions.DoomedIds(r.b.sessions, now), h);
    case ProcessAll =>
      ProcessIsBefore(lim, r.b);
      BeforeOnRecord(lim, r.b, h, Taken(lim, r.b));
    case _ => SameIdsAccounted(r.b, Apply(lim, r, op).b, h);
  }

  lemma {:induction false} ExecAccounted(lim: Limits, r: Run, ops: seq<Op>, h: seq<Event>)
    requires Inv(lim, r.b) && Accounted(r.b, h)
    ensures Accounted(Exec(lim, r, ops).b, h + History(lim, r, ops))
    decreases |ops|
  {
    if ops == [] {
      assert h + [] == h;
    } else {
      var q, es := Apply(lim, r, ops[0]), EventsOf(lim, r, ops[0]);
      ApplyKeepsInv(lim, r, ops[0]);
      ApplyAccounted(lim, r, ops[0], h);
      ExecAccounted(lim, q, ops[1..], h + es);
      Assoc(h, es, History(lim, q, ops[1..]));
    }
  }

  lemma {:induction false} StartAccounted(lim: Limits, ops: seq<Op>)
    ensures Inv(lim, Exec(lim, START, ops).b) && Accounted(Exec(lim, START, ops).b, History(lim, START, ops))
  {
    StartInv(lim);
    EveryRunKeepsInv(lim, START, ops);
    ExecAccounted(lim, START, ops, []);
    assert [] + History(lim, START, ops) == History(lim, START, ops);
  }

  /** In every reachable state: a session is subscribed to a filter if and only if it exists
      and, since its last registration, a SUBSCRIBE of it for that filter was handled and
      not refused. */
  lemma {:induction false} SubscribedIff(lim: Limits, ops: seq<Op>, f: Bytes, x: SessionId)
    ensures var b := Exec(lim, START, ops).b;
            (f, x) in Topics.Pairs(b.topics) <==>
            Sessions.Live(b.sessions, x) && GrantedSince(History(lim, START, ops), f, x)
  {
    StartAccounted(lim, ops);
  }

  // ---------- from SUBSCRIBE to delivery ----------

  /** The history at the moment a draining call takes its k-th packet. */
  function HistoryBefore(lim: Limits, ops: seq<Op>, k: nat): seq<Event> {
    History(lim, START, ops) + EventsBefore(lim, Exec(lim, START, ops).b, k)
  }

  ghost predicate AskedForMatch(h: seq<Event>, topic: Bytes, id: SessionId) {
    exists f :: GrantedSince(h, f, id) && ShownRule(topic, f)
  }

  lemma {:induction false} BeforeKeepsLive(lim: Limits, b: Broker, k: nat, x: SessionId)
    requires Inv(lim, b)
    ensures Sessions.Live(Before(lim, b, k).sessions, x) == Sessions.Live(b.sessions, x)
  {
    var p := (c: Broker) => Inv(lim, c) && Sessions.Live(c.sessions, x) == Sessions.Live(b.sessions, x);
    forall c: Broker | p(c) && Agenda(c.sessions) != []
      ensures p(Next(lim, c).b)
    {
      FoldStep(lim, c);
      NextKeepsLive(lim, c, x);
    }
    KeptBefore(lim, p, b, k);
  }

  lemma {:induction false} MatchedByHistory(b: Broker, h: seq<Event>, topic: Bytes, id: SessionId)
    requires Accounted(b, h)
    ensures MatchedByRule(b.topics, topic, id) <==> Sessions.Live(b.sessions, id) && AskedForMatch(h, topic, id)
  {
    if f :| GrantedSince(h, f, id) && ShownRule(topic, f) {
      assert Sessions.Live(b.sessions, id) ==> (f, id) in Topics.Pairs(b.topics);
    }
  }

  /** From request to delivery, over every run. With room for all sessions, a publishable
      PUBLISH that is handled without error reaches a session, in exactly one copy, if and
      only if the session exists and, since its registration and before the PUBLISH, a
      SUBSCRIBE of it was handled and not refused whose filter matches the topic by
      section 4.7.1. */
  lemma {:induction false} DeliveredIffAskedFor(lim: Limits, ops: seq<Op>, k: nat, id: SessionId)
    requires Handled(lim, ops, k) && lim.maxSubscribers >= lim.maxSessions
    requires TopicFilter.Publishable(Utf8.AsStr(Agenda(Exec(lim, START, ops).b.sessions)[k].1.packet.publish.topic))
    ensures var r := Exec(lim, START, ops);
            var entry := Agenda(r.b.sessions)[k];
            var log := Log(Apply(lim, r, ProcessAll), id);
            if Sessions.Live(r.b.sessions, id)
               && AskedForMatch(HistoryBefore(lim, ops, k), entry.1.packet.publish.topic, id)
            then OnceIn(log, CopyOf(entry)) else CopyOf(entry) !in log
  {
    var b := Exec(lim, START, ops).b;
    StartAccounted(lim, ops);
    BeforeOnRecord(lim, b, History(lim, START, ops), k);
    BeforeKeepsLive(lim, b, k, id);
    MatchedByHistory(Before(lim, b, k), HistoryBefore(lim, ops, k), Agenda(b.sessions)[k].1.packet.publish.topic, id);
    PublishedByRule(lim, ops, k, id);
  }

  // ---------- clients whose packets were decoded ----------

  /** The next waiting packet is one that was accepted. */
  lemma {:induction false} NextWasAccepted(lim: Limits, p: Packet -> bool, b: Broker)
    requires Inv(lim, b) && RxAllOk(b) && Agenda(b.sessions) != [] && Subscriptions.InboxHas(p, b)
    ensures p(Agenda(b.sessions)[0].1.packet)
  {
    var (from, item) := Agenda(b.sessions)[0];
    NextQueues(lim, b, from);
    assert RxOk(b.inbox, from, Sessions.Rx(b.sessions, from));
  }

  /** All that is known of a reachable state when all packets have a property. */
  ghost predicate Traceable(lim: Limits, p: Packet -> bool, b: Broker) {
    Inv(lim, b) && RxAllOk(b) && Subscriptions.AllAskedFor(b) && Subscriptions.InboxHas(p, b)
  }

  lemma {:induction false} ReachableIsTraceable(p: Packet -> bool, lim: Limits, ops: seq<Op>)
    requires Subscriptions.Receives(p, ops)
    ensures Traceable(lim, p, Exec(lim, START, ops).b)
  {
    StartInv(lim);
    ReachableOk(lim, ops);
    Subscriptions.ExecAskedFor(lim, START, ops);
    Subscriptions.ExecInbox(p, lim, START, ops);
  }

  lemma {:induction false} NextIsTraceable(lim: Limits, p: Packet -> bool, b: Broker)
    requires Traceable(lim, p, b) && Agenda(b.sessions) != []
    ensures Traceable(lim, p, Next(lim, b).b)
  {
    FoldStep(lim, b);
    NextRxOk(lim, b);
    Subscriptions.NextAskedFor(lim, b);
  }

  lemma {:induction false} BeforeIsTraceable(lim: Limits, p: Packet -> bool, b: Broker, k: nat)
    requires Traceable(lim, p, b)
    ensures Traceable(lim, p, Before(lim, b, k))
  {
    var kept := (c: Broker) => Traceable(lim, p, c);
    forall c: Broker | kept(c) && Agenda(c.sessions) != []
      ensures kept(Next(lim, c).b)
    {
      NextIsTraceable(lim, p, c);
    }
    KeptBefore(lim, kept, b, k);
  }

  lemma {:induction false} PacketHas(lim: Limits, p: Packet -> bool, b: Broker, k: nat)
    requires Traceable(lim, p, b) && k < Process(lim, b).handled && k < |Agenda(b.sessions)|
    ensures p(Agenda(b.sessions)[k].1.packet)
  {
    var c := Before(lim, b, k);
    BeforeIsTraceable(lim, p, b, k);
    BeforeIsOnTheWay(lim, b, k);
    FirstOnTheWay(lim, b, c, k);
    NextWasAccepted(lim, p, c);
  }

  lemma {:induction false} FiltersAreText(build: WireFormat.Build, lim: Limits, b: Broker)
    requires Traceable(lim, Subscriptions.Decodable(build), b)
    ensures forall f: Bytes, x: SessionId :: (f, x) in Topics.Pairs(b.topics) ==> Utf8.Valid(f)
  {
    forall f: Bytes, x: SessionId | (f, x) in Topics.Pairs(b.topics)
      ensures Utf8.Valid(f)
    {
      assert Subscriptions.AskedFor(b.inbox, (f, x).0, (f, x).1);
      var packet := Subscriptions.FilterOfPacket(Subscriptions.Decodable(build), b, f, x);
    }
  }

  /** If all packets were decoded, so were the one being handled and the filters in the
      index at that moment. */
  lemma {:induction false} DecodedBefore(build: WireFormat.Build, lim: Limits, ops: seq<Op>, k: nat)
    requires Subscriptions.Decoded(build, ops) && Handled(lim, ops, k)
    ensures var b := Exec(lim, START, ops).b;
            && WireFormat.PacketOk(build, Agenda(b.sessions)[k].1.packet)
            && forall f: Bytes, x: SessionId :: (f, x) in Topics.Pairs(Before(lim, b, k).topics) ==> Utf8.Valid(f)
  {
    var b, p := Exec(lim, START, ops).b, Subscriptions.Decodable(build);
    ReachableIsTraceable(p, lim, ops);
    HandledInTime(lim, ops, k);
    PacketHas(lim, p, b, k);
    BeforeIsTraceable(lim, p, b, k);
    FiltersAreText(build, lim, Before(lim, b, k));
  }

  /** Whether a filter that was granted matches the topic by section 4.7.1, as sent. */
  ghost predicate AskedForTopic(h: seq<Event>, topic: Bytes, id: SessionId) {
    exists f :: GrantedSince(h, f, id) && TopicFilter.Rule(TopicFilter.Split(topic), TopicFilter.Split(f))
  }

  lemma {:induction false} TextNeedsNoShowing(b: Broker, h: seq<Event>, topic: Bytes, id: SessionId)
    requires Accounted(b, h) && Utf8.Valid(topic) && Sessions.Live(b.sessions, id)
    requires forall f: Bytes, x: SessionId :: (f, x) in Topics.Pairs(b.topics) ==> Utf8.Valid(f)
    ensures AskedForMatch(h, topic, id) <==> AskedForTopic(h, topic, id)
  {
    forall f | GrantedSince(h, f, id)
      ensures ShownRule(topic, f) == TopicFilter.Rule(TopicFilter.Split(topic), TopicFilter.Split(f))
    {
      assert (f, id) in Topics.Pairs(b.topics);
    }
  }

  /** The same for clients whose packets were decoded: topic and filters are compared as
      the clients sent them, and only a level that is a bare `#` keeps a topic from being
      publishable. */
  lemma {:induction false} DecodedDelivery(build: WireFormat.Build, lim: Limits, ops: seq<Op>, k: nat, id: SessionId)
    requires Subscriptions.Decoded(build, ops) && Handled(lim, ops, k) && lim.maxSubscribers >= lim.maxSessions
    requires TopicFilter.HASH !in TopicFilter.Split(Agenda(Exec(lim, START, ops).b.sessions)[k].1.packet.publish.topic)
    ensures var r := Exec(lim, START, ops);
            var entry := Agenda(r.b.sessions)[k];
            var log := Log(Apply(lim, r, ProcessAll), id);
            if Sessions.Live(r.b.sessions, id)
               && AskedForTopic(HistoryBefore(lim, ops, k), entry.1.packet.publish.topic, id)
            then OnceIn(log, CopyOf(entry)) else CopyOf(entry) !in log
  {
    var b := Exec(lim, START, ops).b;
    var topic := Agenda(b.sessions)[k].1.packet.publish.topic;
    DecodedBefore(build, lim, ops, k);
    StartAccounted(lim, ops);
    BeforeOnRecord(lim, b, History(lim, START, ops), k);
    BeforeKeepsLive(lim, b, k, id);
    if Sessions.Live(b.sessions, id) {
      TextNeedsNoShowing(Before(lim, b, k), HistoryBefore(lim, ops, k), topic, id);
    }
    DeliveredIffAskedFor(lim, ops, k, id);
  }
}
