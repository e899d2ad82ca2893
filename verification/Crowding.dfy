/** Exactly which capacities keep a full subscriber list from getting in the way. The
    broker ignores subscribers that do not fit the list it collects, and refuses those
    that do not fit the list of a filter; both happen in some run unless a list has room
    for all sessions or the lists cannot fill up at all. */
module Crowding {
  import opened Basics
  import opened BrokerTypes
  import opened Packets
  import opened BrokerModel
  import opened BrokerInvariant
  import opened Runs
  import PacketEffects
  import Subscriptions
  import TopicFilter
  import Utf8
  import WireFormat
  import Sessions = SessionModel
  import Topics = TopicIndex

  const LETTER: Bytes := [97]

  function StorablePackets(build: WireFormat.Build): Packet -> bool {
    (p: Packet) => WireFormat.Storable(build, p)
  }

  /** Every packet fits the containers that hold it, as every packet value does. */
  ghost predicate Possible(build: WireFormat.Build, ops: seq<Op>) {
    Subscriptions.Receives(StorablePackets(build), ops)
  }

  // ---------- a run that fills a list ----------

  /** A new session subscribes. */
  function Join(id: SessionId, f: Bytes): seq<Op> {
    [Register(id, 0, 0), Op.Receive(id, Subscribe(1, f, AtMostOnce), 0), ProcessAll]
  }

  /** The sessions 0 to k - 1 subscribe to the same filter. */
  function Crowd(k: nat, f: Bytes): seq<Op> {
    if k == 0 then [] else Crowd(k - 1, f) + Join(k - 1, f)
  }

  lemma {:induction false} JoinIsPossible(build: WireFormat.Build, id: SessionId, f: Bytes)
    requires |f| <= build.topic
    ensures Possible(build, Join(id, f)) && Possible(build, Join(id, f)[..2])
  {
  }

  lemma {:induction false} ConcatIsPossible(build: WireFormat.Build, a: seq<Op>, b: seq<Op>)
    requires Possible(build, a) && Possible(build, b)
    ensures Possible(build, a + b)
  {
    var p := StorablePackets(build);
    forall i | 0 <= i < |a + b| && (a + b)[i].Receive?
      ensures p((a + b)[i].packet)
    {
      assert (a + b)[i] == if i < |a| then a[i] else b[i - |a|];
    }
  }

  lemma {:induction false} CrowdIsPossible(build: WireFormat.Build, k: nat, f: Bytes)
    requires |f| <= build.topic
    ensures Possible(build, Crowd(k, f))
  {
    if k > 0 {
      CrowdIsPossible(build, k - 1, f);
      JoinIsPossible(build, k - 1, f);
      ConcatIsPossible(build, Crowd(k - 1, f), Join(k - 1, f));
    }
  }

  function UpTo(k: nat): (r: seq<SessionId>)
    ensures |r| == k && forall i :: 0 <= i < k ==> r[i] == i
  {
    seq(k, i requires 0 <= i < k => i)
  }

  /** The sessions are 0 to k - 1, and nothing waits to be handled. */
  ghost predicate Idle(b: Broker, k: nat) {
    |b.sessions| == k && forall i :: 0 <= i < k ==> b.sessions[i].id == i && b.sessions[i].rx == []
  }

  lemma {:induction false} ExecConcat(lim: Limits, r: Run, a: seq<Op>, b: seq<Op>)
    ensures Exec(lim, r, a + b) == Exec(lim, Exec(lim, r, a), b)
    decreases |a|
  {
    if a == [] {
      assert a + b == b;
    } else {
      ConcatTail(a, b);
      ExecConcat(lim, Apply(lim, r, a[0]), a[1..], b);
    }
  }

  /** The new session's SUBSCRIBE waits, and nothing else. */
  ghost predicate Asking(b: Broker, k: nat, f: Bytes) {
    && |b.sessions| == k + 1
    && (forall i :: 0 <= i < k ==> b.sessions[i].id == i && b.sessions[i].rx == [])
    && b.sessions[k].id == k && b.sessions[k].tx == []
    && |b.sessions[k].rx| == 1 && b.sessions[k].rx[0].packet == Subscribe(1, f, AtMostOnce)
  }

  function Arrive(lim: Limits, r: Run, k: nat, f: Bytes): Run {
    Apply(lim, Apply(lim, r, Register(k, 0, 0)), Op.Receive(k, Subscribe(1, f, AtMostOnce), 0))
  }

  lemma {:induction false} ArriveKeepsInv(lim: Limits, r: Run, k: nat, f: Bytes)
    requires Inv(lim, r.b)
    ensures Inv(lim, Arrive(lim, r, k, f).b)
  {
    ApplyKeepsInv(lim, r, Register(k, 0, 0));
    ApplyKeepsInv(lim, Apply(lim, r, Register(k, 0, 0)), Op.Receive(k, Subscribe(1, f, AtMostOnce), 0));
  }

  lemma {:induction false} ArriveAsking(lim: Limits, r: Run, k: nat, f: Bytes)
    requires Idle(r.b, k) && k < lim.maxSessions && lim.queueSize > 0
    ensures Asking(Arrive(lim, r, k, f).b, k, f) && Arrive(lim, r, k, f).b.topics == r.b.topics
  {
    var s := Sessions.Session(k, None, Sessions.Connecting, 0, 0, [], []);
    Sessions.FindSnoc(r.b.sessions, s, k);
    var ss := Apply(lim, r, Register(k, 0, 0)).b.sessions;
    assert ss == r.b.sessions + [s];
    Sessions.FindSameIds(ss, Sessions.SetActivity(ss, k, 0).0, k);
  }

  lemma {:induction false} FoldOne(lim: Limits, b: Broker, from: SessionId, item: Sessions.Inbound)
    ensures var step := Handle(lim, b.(sessions := Sessions.DropRx(b.sessions, from)), from, item);
            var r := Fold(lim, b, [(from, item)]);
            r.b == step.b && r.status == step.status
  {
    assert [(from, item)][1..] == [];
  }

  /** Taking it leaves nothing waiting. */
  lemma {:induction false} TakeOnly(lim: Limits, b: Broker, k: nat, f: Bytes)
    requires Inv(lim, b) && Asking(b, k, f)
    ensures var b1 := b.(sessions := Sessions.DropRx(b.sessions, k));
            && Inv(lim, b1) && Idle(b1, k + 1) && Sessions.Find(b1.sessions, k) == k && b1.sessions[k].tx == []
            && Agenda(b.sessions) == [(k, b.sessions[k].rx[0])]
  {
    Sessions.FindAt(b.sessions, k);
    AgendaHead(b.sessions, k);
    TakeNext(lim, b);
    var b1 := b.(sessions := Sessions.DropRx(b.sessions, k));
    assert b1.sessions == b.sessions[k := b.sessions[k].(rx := [])];
    AgendaEmpty(b1.sessions);
    Sessions.FindAt(b1.sessions, k);
    assert Agenda(b.sessions)[1..] == [];
  }

  /** Draining then handles just that packet. */
  lemma {:induction false} DrainOne(lim: Limits, b: Broker, k: nat, f: Bytes)
    requires Inv(lim, b) && Asking(b, k, f) && lim.queueSize > 0
    ensures var (ts, status) := Topics.Subscribe(lim, b.topics, k, f);
            && (status.Err? ==> Process(lim, b).status == status)
            && (status.Ok? ==> Idle(Process(lim, b).b, k + 1) && Process(lim, b).b.topics == ts)
  {
    var b1, item := b.(sessions := Sessions.DropRx(b.sessions, k)), b.sessions[k].rx[0];
    TakeOnly(lim, b, k, f);
    FoldOne(lim, b, k, item);
    PacketEffects.SubscribeExact(lim, b1, k, item);
  }

  lemma {:induction false} JoinExact(lim: Limits, r: Run, k: nat, f: Bytes)
    requires Inv(lim, r.b) && Idle(r.b, k) && k < lim.maxSessions && lim.queueSize > 0
    ensures var (ts, status) := Topics.Subscribe(lim, r.b.topics, k, f);
            && (status.Err? ==> Process(lim, Arrive(lim, r, k, f).b).status == status)
            && (status.Ok? ==> var q := Apply(lim, Arrive(lim, r, k, f), ProcessAll).b; Idle(q, k + 1) && q.topics == ts)
  {
    ArriveKeepsInv(lim, r, k, f);
    ArriveAsking(lim, r, k, f);
    DrainOne(lim, Arrive(lim, r, k, f).b, k, f);
  }

  lemma {:induction false} ExecJoin(lim: Limits, r: Run, k: nat, f: Bytes)
    ensures Exec(lim, r, Join(k, f)) == Apply(lim, Arrive(lim, r, k, f), ProcessAll)
    ensures Exec(lim, r, Join(k, f)[..2]) == Arrive(lim, r, k, f)
  {
    var j := Join(k, f);
    assert j[1..] == [j[1], j[2]] && j[1..][1..] == [j[2]] && j[1..][1..][1..] == [];
    assert j[..2] == [j[0], j[1]] && [j[0], j[1]][1..] == [j[1]] && [j[1]][1..] == [];
    ExecThree(lim, r, j[0], j[1], j[2]);
  }

  lemma {:induction false} ExecThree(lim: Limits, r: Run, x: Op, y: Op, z: Op)
    ensures Exec(lim, r, [x, y]) == Apply(lim, Apply(lim, r, x), y)
    ensures Exec(lim, r, [x, y, z]) == Apply(lim, Apply(lim, Apply(lim, r, x), y), z)
  {
    assert [x, y][1..] == [y] && [y][1..] == [];
    assert [x, y, z][1..] == [y, z] && [y, z][1..] == [z] && [z][1..] == [];
    assert forall q: Run :: Exec(lim, q, []) == q;
    assert forall q: Run :: Exec(lim, q, [z]) == Exec(lim, Apply(lim, q, z), [z][1..]);
    assert forall q: Run :: Exec(lim, q, [y]) == Exec(lim, Apply(lim, q, y), [y][1..]);
    assert forall q: Run :: Exec(lim, q, [y, z]) == Exec(lim, Apply(lim, q, y), [y, z][1..]);
  }

  /** The list for one filter with the sessions 0 to k - 1. */
  function CrowdTopics(k: nat, f: Bytes): seq<Topics.TopicEntry> {
    if k == 0 then [] else [Topics.TopicEntry(f, UpTo(k))]
  }

  lemma {:induction false} SubscribeToCrowd(lim: Limits, k: nat, f: Bytes)
    requires lim.maxTopics > 0
    ensures Topics.Subscribe(lim, CrowdTopics(k, f), k, f) ==
            if k < lim.maxSubscribers then (CrowdTopics(k + 1, f), Ok)
            else (CrowdTopics(k, f), Err(MaxSubscribersPerTopicReached))
  {
    assert UpTo(k) + [k] == UpTo(k + 1);
    if k > 0 {
      var ts := CrowdTopics(k, f);
      assert Topics.FindFilter(ts, f) == 0;
      assert ts[0 := ts[0]] == ts && k !in UpTo(k);
      assert ts[0 := Topics.TopicEntry(f, UpTo(k + 1))] == CrowdTopics(k + 1, f);
    } else {
      var e := Topics.TopicEntry(f, [] + [k]);
      assert CrowdTopics(0, f) + [e] == [e] == CrowdTopics(1, f);
    }
  }

  lemma {:induction false} CrowdExact(lim: Limits, k: nat, f: Bytes)
    requires k <= lim.maxSubscribers && k <= lim.maxSessions && lim.queueSize > 0 && lim.maxTopics > 0
    ensures var b := Exec(lim, START, Crowd(k, f)).b; Inv(lim, b) && Idle(b, k) && b.topics == CrowdTopics(k, f)
  {
    StartInv(lim);
    EveryRunKeepsInv(lim, START, Crowd(k, f));
    if k > 0 {
      CrowdExact(lim, k - 1, f);
      var r := Exec(lim, START, Crowd(k - 1, f));
      SubscribeToCrowd(lim, k - 1, f);
      JoinExact(lim, r, k - 1, f);
      ExecJoin(lim, r, k - 1, f);
      ExecConcat(lim, START, Crowd(k - 1, f), Join(k - 1, f));
    }
  }

  // ---------- refused subscriptions ----------

  ghost predicate NeverRefused(build: WireFormat.Build, lim: Limits) {
    forall ops: seq<Op> :: Possible(build, ops) ==>
      Process(lim, Exec(lim, START, ops).b).status != Err(MaxSubscribersPerTopicReached)
  }

  /** One more session than the list has room for; the shortest filter will do. */
  lemma {:induction false} CrowdRefused(build: WireFormat.Build, lim: Limits)
    requires lim.maxSubscribers < lim.maxSessions && lim.queueSize > 0 && lim.maxTopics > 0
    ensures !NeverRefused(build, lim)
  {
    var k, f := lim.maxSubscribers, [];
    var r, more := Exec(lim, START, Crowd(k, f)), Join(k, f)[..2];
    CrowdExact(lim, k, f);
    SubscribeToCrowd(lim, k, f);
    JoinExact(lim, r, k, f);
    ExecJoin(lim, r, k, f);
    ExecConcat(lim, START, Crowd(k, f), more);
    CrowdIsPossible(build, k, f);
    JoinIsPossible(build, k, f);
    ConcatIsPossible(build, Crowd(k, f), more);
    assert Process(lim, Exec(lim, START, Crowd(k, f) + more).b).status == Err(MaxSubscribersPerTopicReached);
  }

  lemma {:induction false} NothingWaits(lim: Limits, b: Broker)
    requires Inv(lim, b) && lim.queueSize == 0
    ensures Process(lim, b) == Outcome(b, Ok, 0)
  {
    AgendaEmpty(b.sessions);
  }

  /** No run meets the limit of a filter's list if and only if it has room for all
      sessions, or nothing can be subscribed to or received at all. */
  lemma {:induction false} NeverRefusedIff(build: WireFormat.Build, lim: Limits)
    ensures NeverRefused(build, lim) <==>
            lim.maxSubscribers >= lim.maxSessions || lim.queueSize == 0 || lim.maxTopics == 0
  {
    if lim.maxSubscribers >= lim.maxSessions || lim.queueSize == 0 || lim.maxTopics == 0 {
      forall ops: seq<Op>
        ensures Process(lim, Exec(lim, START, ops).b).status != Err(MaxSubscribersPerTopicReached)
      {
        StartInv(lim);
        EveryRunKeepsInv(lim, START, ops);
        if lim.queueSize == 0 {
          NothingWaits(lim, Exec(lim, START, ops).b);
        } else {
          ProcessNeverCrowded(lim, Exec(lim, START, ops).b);
        }
      }
    } else {
      CrowdRefused(build, lim);
    }
  }

  // ---------- dropped subscribers ----------

  /** A publication on any topic that fits is sent to all sessions that match. */
  ghost predicate Complete(build: WireFormat.Build, lim: Limits, ts: seq<Topics.TopicEntry>) {
    forall topic: Bytes, x: SessionId ::
      |topic| <= build.topic && x in Topics.Matching(ts, topic) ==> x in Topics.Subscribers(lim, ts, topic)
  }

  ghost predicate NeverDrops(build: WireFormat.Build, lim: Limits) {
    forall ops: seq<Op> :: Possible(build, ops) ==> Complete(build, lim, Exec(lim, START, ops).b.topics)
  }

  lemma {:induction false} DedupDistinct(s: seq<SessionId>)
    requires NoDup(s)
    ensures Dedup(s) == s
  {
    if s != [] {
      DedupDistinct(s[..|s| - 1]);
      InitLast(s);
    }
  }

  lemma {:induction false} SameText(c: byte)
    requires c < 128 && c != TopicFilter.SLASH
    ensures Utf8.AsStr([c]) == [c] && TopicFilter.LevelsLeft([c], false) == [[c]]
  {
    Utf8.AsciiIsText([c]);
    assert TopicFilter.FindSlash([c]) == 1;
  }

  lemma {:induction false} BothMatch()
    ensures Topics.Matches(LETTER, LETTER) && Topics.Matches(LETTER, TopicFilter.PLUS)
  {
    SameText(97);
    SameText(43);
    assert [LETTER][1..] == [] && [TopicFilter.PLUS][1..] == [];
    assert TopicFilter.LoopMatch([], []);
  }

  lemma {:induction false} MatchingTwo(e: Topics.TopicEntry, f: Topics.TopicEntry, topic: Bytes)
    requires Topics.Matches(topic, e.filter) && Topics.Matches(topic, f.filter)
    ensures Topics.Matching([e, f], topic) == e.subscribers + f.subscribers
  {
    assert [e, f][..1] == [e] && [e][..0] == [];
    assert Topics.Matching([e], topic) == [] + e.subscribers;
  }

  lemma {:induction false} TakeUpTo(m: nat)
    ensures Dedup(UpTo(m) + [m]) == UpTo(m) + [m] && Take(m, UpTo(m) + [m]) == UpTo(m)
  {
    DedupDistinct(UpTo(m) + [m]);
  }

  /** A list that is full of one filter's subscribers drops the other's. */
  lemma {:induction false} FullListDrops(build: WireFormat.Build, lim: Limits, ts: seq<Topics.TopicEntry>)
    requires lim.maxSubscribers > 0 && build.topic > 0
    requires ts == CrowdTopics(lim.maxSubscribers, LETTER) + [Topics.TopicEntry(TopicFilter.PLUS, [lim.maxSubscribers])]
    ensures !Complete(build, lim, ts)
  {
    var m := lim.maxSubscribers;
    var e, f := Topics.TopicEntry(LETTER, UpTo(m)), Topics.TopicEntry(TopicFilter.PLUS, [m]);
    assert ts == [e, f];
    BothMatch();
    MatchingTwo(e, f, LETTER);
    TakeUpTo(m);
    assert Topics.Subscribers(lim, ts, LETTER) == UpTo(m);
    assert m !in UpTo(m) && m in UpTo(m) + [m];
  }

  lemma {:induction false} SubscribeBeside(lim: Limits, k: nat)
    requires k > 0 && lim.maxTopics > 1 && lim.maxSubscribers > 0
    ensures Topics.Subscribe(lim, CrowdTopics(k, LETTER), k, TopicFilter.PLUS) ==
            (CrowdTopics(k, LETTER) + [Topics.TopicEntry(TopicFilter.PLUS, [k])], Ok)
  {
    var ts := CrowdTopics(k, LETTER);
    assert ts[1..] == [] && Topics.FindFilter(ts, TopicFilter.PLUS) == 1;
    assert [] + [k] == [k];
  }

  lemma {:induction false} CrowdDrops(build: WireFormat.Build, lim: Limits)
    requires 0 < lim.maxSubscribers < lim.maxSessions && lim.queueSize > 0 && lim.maxTopics > 1 && build.topic > 0
    ensures !NeverDrops(build, lim)
  {
    var k, more := lim.maxSubscribers, Join(lim.maxSubscribers, TopicFilter.PLUS);
    var r := Exec(lim, START, Crowd(k, LETTER));
    CrowdExact(lim, k, LETTER);
    SubscribeBeside(lim, k);
    JoinExact(lim, r, k, TopicFilter.PLUS);
    ExecJoin(lim, r, k, TopicFilter.PLUS);
    ExecConcat(lim, START, Crowd(k, LETTER), more);
    CrowdIsPossible(build, k, LETTER);
    JoinIsPossible(build, k, TopicFilter.PLUS);
    ConcatIsPossible(build, Crowd(k, LETTER), more);
    FullListDrops(build, lim, Exec(lim, START, Crowd(k, LETTER) + more).b.topics);
  }

  lemma {:induction false} OneTopicComplete(build: WireFormat.Build, lim: Limits, ts: seq<Topics.TopicEntry>)
    requires Topics.WellFormed(lim, ts) && |ts| <= 1
    ensures Complete(build, lim, ts)
  {
    forall topic: Bytes
      ensures Topics.Subscribers(lim, ts, topic) == Topics.Matching(ts, topic)
    {
      var all := Topics.Matching(ts, topic);
      if ts != [] {
        assert ts[..|ts| - 1] == [] && Topics.Matching([], topic) == [];
        assert all == [] + if Topics.Matches(topic, ts[0].filter) then ts[0].subscribers else [];
        assert Topics.EntryWellFormed(lim, ts[0]);
      }
      DedupDistinct(all);
    }
  }

  lemma {:induction false} RoomForAllComplete(build: WireFormat.Build, lim: Limits, b: Broker)
    requires Inv(lim, b) && lim.maxSubscribers >= lim.maxSessions
    ensures Complete(build, lim, b.topics)
  {
    forall topic: Bytes, x: SessionId | x in Topics.Matching(b.topics, topic)
      ensures x in Topics.Subscribers(lim, b.topics, topic)
    {
      Topics.MatchingIsJoin(b.topics, topic, x);
      NoSubscriberDropped(lim, b, topic);
    }
  }

  lemma {:induction false} NothingAccepted(lim: Limits, r: Run, ops: seq<Op>)
    requires Inv(lim, r.b) && lim.queueSize == 0 && r.b.inbox == []
    ensures Exec(lim, r, ops).b.inbox == []
    decreases |ops|
  {
    if ops != [] {
      ApplyKeepsInv(lim, r, ops[0]);
      Subscriptions.ApplyInbox(lim, r, ops[0]);
      NothingAccepted(lim, Apply(lim, r, ops[0]), ops[1..]);
    }
  }

  lemma {:induction false} NothingSubscribed(lim: Limits, ops: seq<Op>, topic: Bytes, x: SessionId)
    requires lim.queueSize == 0
    ensures x !in Topics.Matching(Exec(lim, START, ops).b.topics, topic)
  {
    var b := Exec(lim, START, ops).b;
    StartInv(lim);
    NothingAccepted(lim, START, ops);
    Topics.MatchingIsJoin(b.topics, topic, x);
    if f :| (f, x) in Topics.Pairs(b.topics) {
      Subscriptions.EverySubscriptionWasAskedFor(lim, ops, f, x);
    }
  }

  /** Without room for a byte of a topic, the only filter is the empty one. */
  lemma {:induction false} OnlyEmptyFilter(build: WireFormat.Build, lim: Limits, ops: seq<Op>, i: nat)
    requires Possible(build, ops) && build.topic == 0
    requires i < |Exec(lim, START, ops).b.topics|
    ensures Exec(lim, START, ops).b.topics[i].filter == []
  {
    var b := Exec(lim, START, ops).b;
    var e := b.topics[i];
    StartInv(lim);
    EveryRunKeepsInv(lim, START, ops);
    assert Topics.EntryWellFormed(lim, e);
    EntryInPairs(b.topics, i, e.subscribers[0]);
    Subscriptions.EverySubscriptionWasAskedFor(lim, ops, e.filter, e.subscribers[0]);
    Subscriptions.ExecInbox(StorablePackets(build), lim, START, ops);
    var packet := Subscriptions.FilterOfPacket(StorablePackets(build), b, e.filter, e.subscribers[0]);
  }

  lemma {:induction false} FewFiltersComplete(build: WireFormat.Build, lim: Limits, ops: seq<Op>)
    requires Possible(build, ops) && (lim.maxTopics <= 1 || lim.maxSubscribers == 0 || build.topic == 0)
    ensures Complete(build, lim, Exec(lim, START, ops).b.topics)
  {
    var ts := Exec(lim, START, ops).b.topics;
    StartInv(lim);
    EveryRunKeepsInv(lim, START, ops);
    assert ts != [] ==> Topics.EntryWellFormed(lim, ts[0]);
    if |ts| > 1 {
      OnlyEmptyFilter(build, lim, ops, 0);
      OnlyEmptyFilter(build, lim, ops, 1);
    }
    OneTopicComplete(build, lim, ts);
  }

  /** No run drops a matching subscriber if and only if the collected list has room for
      all sessions, or there is at most one filter, or nobody can be subscribed at all. */
  lemma {:induction false} NeverDropsIff(build: WireFormat.Build, lim: Limits)
    ensures NeverDrops(build, lim) <==>
            || lim.maxSubscribers >= lim.maxSessions
            || lim.maxTopics <= 1 || build.topic == 0
            || lim.maxSubscribers == 0 || lim.queueSize == 0
  {
    if 0 < lim.maxSubscribers < lim.maxSessions && lim.queueSize > 0 && lim.maxTopics > 1 && build.topic > 0 {
      CrowdDrops(build, lim);
    } else {
      forall ops: seq<Op> | Possible(build, ops)
        ensures Complete(build, lim, Exec(lim, START, ops).b.topics)
      {
        var b := Exec(lim, START, ops).b;
        StartInv(lim);
        EveryRunKeepsInv(lim, START, ops);
        if lim.maxSubscribers >= lim.maxSessions {
          RoomForAllComplete(build, lim, b);
        } else if lim.queueSize == 0 {
          forall topic: Bytes, x: SessionId
            ensures x !in Topics.Matching(b.topics, topic)
          {
            NothingSubscribed(lim, ops, topic, x);
          }
        } else {
          FewFiltersComplete(build, lim, ops);
        }
      }
    }
  }
}
