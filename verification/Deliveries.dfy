/** Delivery over whole runs: a drained PUBLISH reaches exactly the sessions that match it
    at the moment it is handled, each exactly once. */
module Deliveries {
  import opened Basics
  import opened BrokerTypes
  import opened BrokerModel
  import opened BrokerInvariant
  import opened Runs
  import opened MessageOrder
  import opened QueueHistory
  import PacketEffects
  import TopicFilter
  import Utf8
  import Sessions = SessionModel
  import Topics = TopicIndex

  /** The broker just before a draining call takes its k-th packet. */
  function Before(lim: Limits, b: Broker, k: nat): Broker
    decreases k
  {
    if k == 0 || Agenda(b.sessions) == [] then b else Before(lim, Next(lim, b).b, k - 1)
  }

  /** What a subscriber gets for a received PUBLISH. */
  function CopyOf(entry: (SessionId, Sessions.Inbound)): Sessions.Outbound {
    Sessions.Outbound(entry.1.packet, entry.0, entry.1.n)
  }

  /** The sessions that match the k-th packet of a draining call when it is handled. */
  function Recipients(lim: Limits, b: Broker, k: nat): seq<SessionId>
    requires k < |Agenda(b.sessions)| && Agenda(b.sessions)[k].1.packet.Publish?
  {
    Topics.Subscribers(lim, Before(lim, b, k).topics, Agenda(b.sessions)[k].1.packet.publish.topic)
  }

  ghost predicate OnceIn<T(!new)>(s: seq<T>, x: T) {
    exists i :: 0 <= i < |s| && s[i] == x && forall j :: 0 <= j < |s| && s[j] == x ==> j == i
  }

  lemma {:induction false} CopyInGain(lim: Limits, b: Broker, from: SessionId, item: Sessions.Inbound, id: SessionId)
    requires Inv(lim, b) && Sessions.Live(b.sessions, from) && item.packet.Publish?
    requires Handle(lim, b, from, item).status.Ok?
    ensures CopyOf((from, item)) in Gain(lim, b, from, item, id) <==>
            id in Topics.Subscribers(lim, b.topics, item.packet.publish.topic)
  {
    var p, copy := item.packet.publish, CopyOf((from, item));
    var subs := Topics.Subscribers(lim, b.topics, p.topic);
    var acks := if WantsAck(p) then [Message(from, Sessions.Outbound(Packets.PubAck(p.packetId.value), from, item.n))] else [];
    Topics.SubscribersAreMatches(lim, b.topics, p.topic);
    SubscribersLive(lim, b, p.topic);
    GainOfSuccess(lim, b, from, item, id);
    CopyAddressed(id, subs, copy, acks, Replies(lim, b.topics, from, item));
  }

  lemma {:induction false} CopyAddressed(
      id: SessionId, subs: seq<SessionId>, copy: Sessions.Outbound, acks: seq<Message>, msgs: seq<Message>)
    requires NoDup(subs) && |acks| <= 1 && msgs == Copies(subs, copy) + acks
    requires copy.packet.Publish? && (acks != [] ==> !acks[0].item.packet.Publish?)
    ensures copy in Addressed(id, msgs[..|msgs|]) <==> id in subs
  {
    PacketEffects.GainOnSuccess(id, subs, copy, acks);
  }

  /** A PUBLISH that is handled without error is queued for exactly its subscribers. */
  lemma {:induction false} CopyIsGained(lim: Limits, b: Broker, id: SessionId)
    requires Inv(lim, b) && Agenda(b.sessions) != [] && Agenda(b.sessions)[0].1.packet.Publish?
    requires Next(lim, b).status.Ok?
    ensures CopyOf(Agenda(b.sessions)[0]) in NextGain(lim, b, id) <==> id in Recipients(lim, b, 0)
  {
    var (from, item) := Agenda(b.sessions)[0];
    TakeNext(lim, b);
    CopyInGain(lim, b.(sessions := Sessions.DropRx(b.sessions, from)), from, item, id);
  }

  /** On success everything is queued. */
  lemma {:induction false} GainOfSuccess(lim: Limits, b: Broker, from: SessionId, item: Sessions.Inbound, id: SessionId)
    requires Inv(lim, b) && Sessions.Live(b.sessions, from) && item.packet.Publish?
    requires Handle(lim, b, from, item).status.Ok?
    ensures var msgs := Replies(lim, b.topics, from, item);
            Gain(lim, b, from, item, id) == if Sessions.Live(b.sessions, id) then Addressed(id, msgs[..|msgs|]) else []
  {
    RepliesLive(lim, b, from, item);
    DeliverExact(lim, b.sessions, Replies(lim, b.topics, from, item));
  }

  /** What draining queues is caused by packets that were waiting. */
  lemma {:induction false} GainCausedByWaiting(lim: Limits, b: Broker, id: SessionId, o: Sessions.Outbound)
    requires Inv(lim, b) && o in FoldGain(lim, b, Agenda(b.sessions), id)
    ensures exists x :: x in Sessions.Rx(b.sessions, o.from) && x.n == o.n
    decreases |Agenda(b.sessions)|
  {
    var step := Next(lim, b);
    Unroll(lim, b, id);
    FoldStep(lim, b);
    NextQueues(lim, b, id);
    if o !in NextGain(lim, b, id) {
      GainCausedByWaiting(lim, step.b, id, o);
      var x :| x in Sessions.Rx(step.b.sessions, o.from) && x.n == o.n;
      NextQueues(lim, b, o.from);
      assert x in Sessions.Rx(b.sessions, o.from);
    }
  }

  /** The copy of a waiting packet is in no log yet. */
  lemma {:induction false} CopyIsNew(r: Run, id: SessionId, from: SessionId, x: Sessions.Inbound)
    requires RunOk(r) && x in Sessions.Rx(r.b.sessions, from)
    ensures Sessions.Outbound(x.packet, from, x.n) !in Log(r, id)
  {
    assert LogOk(r.b, Log(r, id));
  }

  /** And the copy of the packet just handled is never queued again. */
  lemma {:induction false} CopyNotRepeated(lim: Limits, r: Run, id: SessionId)
    requires Inv(lim, r.b) && RunOk(r) && Agenda(r.b.sessions) != []
    ensures var c := Next(lim, r.b).b;
            CopyOf(Agenda(r.b.sessions)[0]) !in FoldGain(lim, c, Agenda(c.sessions), id)
  {
    var (from, item) := Agenda(r.b.sessions)[0];
    var c, copy := Next(lim, r.b).b, CopyOf(Agenda(r.b.sessions)[0]);
    FoldStep(lim, r.b);
    NextQueues(lim, r.b, from);
    assert RxOk(r.b.inbox, from, Sessions.Rx(r.b.sessions, from));
    if copy in FoldGain(lim, c, Agenda(c.sessions), id) {
      GainCausedByWaiting(lim, c, id, copy);
    }
  }

  /** The k-th packet of a draining call is in the log of exactly its recipients. */
  ghost predicate Delivered(lim: Limits, r: Run, k: nat, id: SessionId)
    requires k < |Agenda(r.b.sessions)| && Agenda(r.b.sessions)[k].1.packet.Publish?
  {
    CopyOf(Agenda(r.b.sessions)[k]) in Log(Apply(lim, r, ProcessAll), id) <==> id in Recipients(lim, r.b, k)
  }

  /** The first packet of a draining call. */
  lemma {:induction false} FirstCopyDelivered(lim: Limits, r: Run, id: SessionId)
    requires Inv(lim, r.b) && RunOk(r) && Agenda(r.b.sessions) != [] && Process(lim, r.b).handled > 0
    requires Agenda(r.b.sessions)[0].1.packet.Publish?
    ensures Delivered(lim, r, 0, id)
  {
    var (from, item) := Agenda(r.b.sessions)[0];
    var copy, step := CopyOf(Agenda(r.b.sessions)[0]), Next(lim, r.b);
    NextQueues(lim, r.b, id);
    CopyIsNew(r, id, from, item);
    CopyIsGained(lim, r.b, id);
    CopyNotRepeated(lim, r, id);
    ProcessLog(lim, r, id);
    Unroll(lim, r.b, id);
  }

  lemma {:induction false} ProcessUnroll(lim: Limits, b: Broker)
    requires Inv(lim, b) && Process(lim, b).handled > 0
    ensures Agenda(b.sessions) != []
    ensures var c := Next(lim, b);
            && c.status.Ok? && Inv(lim, c.b)
            && Agenda(c.b.sessions) == Agenda(b.sessions)[1..]
            && Process(lim, c.b).handled == Process(lim, b).handled - 1
            && Process(lim, c.b).b == Process(lim, b).b
  {
    FoldStep(lim, b);
  }

  lemma {:induction false} DropMore<T>(s: seq<T>, k: nat)
    requires 0 < k <= |s|
    ensures s[1..][k - 1..] == s[k..]
  {
  }

  /** The broker c is what b becomes while k packets are handled without error. */
  ghost predicate OnTheWay(lim: Limits, b: Broker, c: Broker, k: nat) {
    && Inv(lim, c)
    && k <= |Agenda(b.sessions)| && Agenda(c.sessions) == Agenda(b.sessions)[k..]
    && Process(lim, c).handled == Process(lim, b).handled - k
    && Process(lim, c).b == Process(lim, b).b
  }

  lemma {:induction false} NoStep(lim: Limits, b: Broker)
    requires Inv(lim, b)
    ensures OnTheWay(lim, b, b, 0) && Before(lim, b, 0) == b
  {
  }

  lemma {:induction false} OneStep(lim: Limits, b: Broker)
    requires Inv(lim, b) && Process(lim, b).handled > 0
    ensures Agenda(b.sessions) != [] && OnTheWay(lim, b, Next(lim, b).b, 1)
  {
    ProcessUnroll(lim, b);
  }

  lemma {:induction false} StepAndMore(lim: Limits, b: Broker, c: Broker, d: Broker, k: nat)
    requires OnTheWay(lim, b, c, 1) && OnTheWay(lim, c, d, k)
    ensures OnTheWay(lim, b, d, k + 1)
  {
    DropMore(Agenda(b.sessions), k + 1);
  }

  lemma {:induction false} BeforeStep(lim: Limits, b: Broker, k: nat)
    requires k > 0 && Agenda(b.sessions) != []
    ensures Before(lim, b, k) == Before(lim, Next(lim, b).b, k - 1)
  {
  }

  lemma {:induction false} BeforeIsOnTheWay(lim: Limits, b: Broker, k: nat)
    requires Inv(lim, b) && k <= Process(lim, b).handled
    ensures OnTheWay(lim, b, Before(lim, b, k), k)
    decreases k
  {
    if k == 0 {
      NoStep(lim, b);
    } else {
      OneStep(lim, b);
      var c := Next(lim, b).b;
      BeforeIsOnTheWay(lim, c, k - 1);
      StepAndMore(lim, b, c, Before(lim, c, k - 1), k - 1);
      BeforeStep(lim, b, k);
    }
  }

  /** A run in order, k packets of which can be handled without error. */
  ghost predicate Sound(lim: Limits, r: Run, k: nat) {
    Inv(lim, r.b) && RunOk(r) && k <= Process(lim, r.b).handled
  }

  lemma {:induction false} NextSound(lim: Limits, r: Run, k: nat)
    requires Sound(lim, r, k) && k > 0
    ensures Agenda(r.b.sessions) != [] && Sound(lim, Run(Next(lim, r.b).b, r.delivered), k - 1)
  {
    OneStep(lim, r.b);
    NextOk(lim, r);
  }

  /** What every packet keeps holds before the k-th. */
  lemma {:induction false} KeptBefore(lim: Limits, p: Broker -> bool, b: Broker, k: nat)
    requires p(b)
    requires forall c: Broker {:trigger Next(lim, c)} :: p(c) && Agenda(c.sessions) != [] ==> p(Next(lim, c).b)
    ensures p(Before(lim, b, k))
    decreases k
  {
    if k > 0 && Agenda(b.sessions) != [] {
      KeptBefore(lim, p, Next(lim, b).b, k - 1);
    }
  }

  /** What every step keeps, with one packet fewer to go, holds before the k-th packet. */
  lemma {:induction false} KeptUntil(lim: Limits, p: (Broker, nat) -> bool, b: Broker, k: nat)
    requires p(b, k)
    requires forall c: Broker, j: nat {:trigger p(c, j)} ::
               j > 0 && p(c, j) ==> Agenda(c.sessions) != [] && p(Next(lim, c).b, j - 1)
    ensures p(Before(lim, b, k), 0)
    decreases k
  {
    if k > 0 {
      KeptUntil(lim, p, Next(lim, b).b, k - 1);
    }
  }

  lemma {:induction false} BeforeSound(lim: Limits, r: Run, k: nat)
    requires Sound(lim, r, k)
    ensures Sound(lim, Run(Before(lim, r.b, k), r.delivered), 0)
  {
    var p := (c: Broker, j: nat) => Sound(lim, Run(c, r.delivered), j);
    assert Run(r.b, r.delivered) == r;
    forall c: Broker, j: nat | j > 0 && p(c, j)
      ensures Agenda(c.sessions) != [] && p(Next(lim, c).b, j - 1)
    {
      NextSound(lim, Run(c, r.delivered), j);
    }
    KeptUntil(lim, p, r.b, k);
  }

  lemma {:induction false} SameResult(lim: Limits, r: Run, q: Run, k: nat)
    requires q == r.(b := q.b) && OnTheWay(lim, r.b, q.b, k)
    ensures Apply(lim, q, ProcessAll) == Apply(lim, r, ProcessAll)
  {
  }

  lemma {:induction false} SameRecipients(lim: Limits, b: Broker, k: nat)
    requires k < |Agenda(b.sessions)| && Agenda(b.sessions)[k].1.packet.Publish?
    requires var c := Before(lim, b, k); Agenda(c.sessions) != [] && Agenda(c.sessions)[0] == Agenda(b.sessions)[k]
    ensures Recipients(lim, Before(lim, b, k), 0) == Recipients(lim, b, k)
  {
  }

  lemma {:induction false} FirstOnTheWay(lim: Limits, b: Broker, c: Broker, k: nat)
    requires OnTheWay(lim, b, c, k) && k < |Agenda(b.sessions)| && k < Process(lim, b).handled
    ensures Agenda(c.sessions) != [] && Agenda(c.sessions)[0] == Agenda(b.sessions)[k] && Process(lim, c).handled > 0
  {
  }

  lemma {:induction false} CopyDelivered(lim: Limits, r: Run, k: nat, id: SessionId)
    requires Inv(lim, r.b) && RunOk(r) && k < Process(lim, r.b).handled
    requires k < |Agenda(r.b.sessions)| && Agenda(r.b.sessions)[k].1.packet.Publish?
    ensures Delivered(lim, r, k, id)
  {
    var q := r.(b := Before(lim, r.b, k));
    BeforeIsOnTheWay(lim, r.b, k);
    BeforeSound(lim, r, k);
    FirstOnTheWay(lim, r.b, q.b, k);
    FirstCopyDelivered(lim, q, id);
    SameResult(lim, r, q, k);
    SameRecipients(lim, r.b, k);
  }

  /** A PUBLISH copy stands in a log at most once. */
  lemma {:induction false} CopiesAreDistinct(log: seq<Sessions.Outbound>, o: Sessions.Outbound)
    requires Ordered(log) && o.packet.Publish? && o in log
    ensures OnceIn(log, o)
  {
    var i :| 0 <= i < |log| && log[i] == o;
    forall j | 0 <= j < |log| && log[j] == o
      ensures j == i
    {
    }
  }

  /** A PUBLISH that waits in a reachable state as the k-th packet, and that the next
      draining call handles without error. */
  ghost predicate Handled(lim: Limits, ops: seq<Op>, k: nat) {
    var b := Exec(lim, START, ops).b;
    && k < |Agenda(b.sessions)| && Agenda(b.sessions)[k].1.packet.Publish?
    && (k < Process(lim, b).handled || Process(lim, b).status.Ok?)
  }

  /** In every reachable state: of each PUBLISH that a draining call handles without
      error, which is every waiting one if the call succeeds, each session that matched
      it when its turn came has been given, or is about to be given, exactly one copy;
      no other session has one. */
  lemma {:induction false} PublishedExactlyOnce(lim: Limits, ops: seq<Op>, k: nat, id: SessionId)
    requires Handled(lim, ops, k)
    ensures var r := Exec(lim, START, ops);
            var log, copy := Log(Apply(lim, r, ProcessAll), id), CopyOf(Agenda(r.b.sessions)[k]);
            && (id in Recipients(lim, r.b, k) ==> OnceIn(log, copy))
            && (id !in Recipients(lim, r.b, k) ==> copy !in log)
  {
    var r := Exec(lim, START, ops);
    ReachableOk(lim, ops);
    HandledInTime(lim, ops, k);
    CopyDelivered(lim, r, k, id);
    LogsHaveNoRepeats(lim, r, id, CopyOf(Agenda(r.b.sessions)[k]));
  }

  lemma {:induction false} ReachableOk(lim: Limits, ops: seq<Op>)
    ensures Inv(lim, Exec(lim, START, ops).b) && RunOk(Exec(lim, START, ops))
  {
    StartInv(lim);
    assert RunOk(START);
    EveryRunKeepsInv(lim, START, ops);
    ExecOk(lim, START, ops);
  }

  lemma {:induction false} HandledInTime(lim: Limits, ops: seq<Op>, k: nat)
    requires Handled(lim, ops, k)
    ensures k < Process(lim, Exec(lim, START, ops).b).handled
  {
    ReachableOk(lim, ops);
    ProcessExact(lim, Exec(lim, START, ops).b);
  }

  lemma {:induction false} LogsHaveNoRepeats(lim: Limits, r: Run, id: SessionId, copy: Sessions.Outbound)
    requires Inv(lim, r.b) && RunOk(r) && copy.packet.Publish?
    ensures var log := Log(Apply(lim, r, ProcessAll), id); copy in log ==> OnceIn(log, copy)
  {
    var q := Apply(lim, r, ProcessAll);
    ApplyOk(lim, r, ProcessAll);
    assert LogOk(q.b, Log(q, id));
    if copy in Log(q, id) {
      CopiesAreDistinct(Log(q, id), copy);
    }
  }

  /** Whether some filter of the session matches the topic by section 4.7.1. */
  ghost predicate MatchedByRule(ts: seq<Topics.TopicEntry>, topic: Bytes, id: SessionId) {
    exists f :: (f, id) in Topics.Pairs(ts) && ShownRule(topic, f)
  }

  lemma {:induction false} SubscribersByRule(lim: Limits, b: Broker, topic: Bytes, id: SessionId)
    requires Inv(lim, b) && lim.maxSubscribers >= lim.maxSessions && TopicFilter.Publishable(Utf8.AsStr(topic))
    ensures id in Topics.Subscribers(lim, b.topics, topic) <==> MatchedByRule(b.topics, topic, id)
  {
    NoSubscriberDropped(lim, b, topic);
    forall f: Bytes
      ensures Topics.Matches(topic, f) == ShownRule(topic, f)
    {
      ShownFilterAgrees(topic, f);
    }
  }

  /** With room for all sessions, each session that has a matching filter when the turn of
      a publishable PUBLISH comes gets exactly one copy; no other session gets one. */
  lemma {:induction false} PublishedByRule(lim: Limits, ops: seq<Op>, k: nat, id: SessionId)
    requires Handled(lim, ops, k) && lim.maxSubscribers >= lim.maxSessions
    requires TopicFilter.Publishable(Utf8.AsStr(Agenda(Exec(lim, START, ops).b.sessions)[k].1.packet.publish.topic))
    ensures var r := Exec(lim, START, ops);
            var entry := Agenda(r.b.sessions)[k];
            var log := Log(Apply(lim, r, ProcessAll), id);
            if MatchedByRule(Before(lim, r.b, k).topics, entry.1.packet.publish.topic, id)
            then OnceIn(log, CopyOf(entry)) else CopyOf(entry) !in log
  {
    var b := Exec(lim, START, ops).b;
    ReachableOk(lim, ops);
    HandledInTime(lim, ops, k);
    BeforeIsOnTheWay(lim, b, k);
    SubscribersByRule(lim, Before(lim, b, k), Agenda(b.sessions)[k].1.packet.publish.topic, id);
    PublishedExactlyOnce(lim, ops, k, id);
  }
}
