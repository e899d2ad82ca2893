/** The topic index: a bounded list of filters, each with a bounded list of the
    sessions subscribed to it. It stands for a relation between filters and sessions. */
module TopicIndex {
  import opened Basics
  import opened BrokerTypes
  import TopicFilter
  import Utf8

  datatype TopicEntry = TopicEntry(filter: Bytes, subscribers: seq<SessionId>)

  /** What every operation keeps: distinct filters, and under each filter a non-empty
      list of distinct sessions, all within capacity. */
  ghost predicate WellFormed(lim: Limits, ts: seq<TopicEntry>) {
    && |ts| <= lim.maxTopics
    && (forall i, j :: 0 <= i < j < |ts| ==> ts[i].filter != ts[j].filter)
    && (forall i :: 0 <= i < |ts| ==> EntryWellFormed(lim, ts[i]))
  }

  ghost predicate EntryWellFormed(lim: Limits, e: TopicEntry) {
    e.subscribers != [] && NoDup(e.subscribers) && |e.subscribers| <= lim.maxSubscribers
  }

  /** The relation the index stands for. */
  ghost function Pairs(ts: seq<TopicEntry>): set<(Bytes, SessionId)> {
    if ts == [] then {} else Pairs(ts[..|ts| - 1]) + Row(ts[|ts| - 1])
  }

  ghost function Row(e: TopicEntry): set<(Bytes, SessionId)> {
    set x | x in e.subscribers :: (e.filter, x)
  }

  ghost predicate Lacks(ts: seq<TopicEntry>, f: Bytes) {
    forall i :: 0 <= i < |ts| ==> ts[i].filter != f
  }

  /** Index of the entry for a filter, or the length when there is none. */
  function FindFilter(ts: seq<TopicEntry>, f: Bytes): (i: nat)
    ensures i <= |ts|
    ensures i < |ts| ==> ts[i].filter == f
    ensures forall j :: 0 <= j < i ==> ts[j].filter != f
  {
    if ts == [] || ts[0].filter == f then 0 else 1 + FindFilter(ts[1..], f)
  }

  function AddSubscriber(lim: Limits, e: TopicEntry, id: SessionId): (TopicEntry, Status) {
    if id in e.subscribers then (e, Ok)
    else if |e.subscribers| < lim.maxSubscribers then (e.(subscribers := e.subscribers + [id]), Ok)
    else (e, Err(MaxSubscribersPerTopicReached))
  }

  function Subscribe(lim: Limits, ts: seq<TopicEntry>, id: SessionId, f: Bytes): (seq<TopicEntry>, Status) {
    var i := FindFilter(ts, f);
    if i < |ts| then
      var (e, status) := AddSubscriber(lim, ts[i], id);
      (ts[i := e], status)
    else if |ts| >= lim.maxTopics then (ts, Err(MaxTopicsReached))
    else
      var (e, status) := AddSubscriber(lim, TopicEntry(f, []), id);
      if status.Ok? then (ts + [e], Ok) else (ts, status)
  }

  /** Topic and filter are compared as what they show. */
  predicate Matches(topic: Bytes, filter: Bytes) {
    TopicFilter.CodeMatches(Utf8.AsStr(topic), Utf8.AsStr(filter))
  }

  /** The concatenated subscriber lists of all entries whose filter matches. */
  function Matching(ts: seq<TopicEntry>, topic: Bytes): seq<SessionId> {
    if ts == [] then []
    else
      var last := ts[|ts| - 1];
      Matching(ts[..|ts| - 1], topic) + if Matches(topic, last.filter) then last.subscribers else []
  }

  /** The sessions a publication is sent to. */
  function Subscribers(lim: Limits, ts: seq<TopicEntry>, topic: Bytes): seq<SessionId> {
    Take(lim.maxSubscribers, Dedup(Matching(ts, topic)))
  }

  function Without(s: seq<SessionId>, gone: set<SessionId>): (r: seq<SessionId>)
    ensures forall x :: x in r <==> x in s && x !in gone
  {
    if s == [] then []
    else
      var init, last := s[..|s| - 1], s[|s| - 1];
      InitLast(s);
      Without(init, gone) + if last in gone then [] else [last]
  }

  function RestrictEntry(e: TopicEntry, gone: set<SessionId>): TopicEntry {
    e.(subscribers := Without(e.subscribers, gone))
  }

  /** The index without some sessions: their subscriptions go, and so do the filters
      nobody is left on; everything else keeps its order. */
  function Restrict(ts: seq<TopicEntry>, gone: set<SessionId>): seq<TopicEntry> {
    if ts == [] then []
    else
      var e := RestrictEntry(ts[|ts| - 1], gone);
      Restrict(ts[..|ts| - 1], gone) + if e.subscribers == [] then [] else [e]
  }

  /** The index without one pair. */
  function Unsubscribe(ts: seq<TopicEntry>, id: SessionId, f: Bytes): seq<TopicEntry> {
    var i := FindFilter(ts, f);
    if i == |ts| then ts
    else
      var e := RestrictEntry(ts[i], {id});
      if e.subscribers == [] then ts[..i] + ts[i + 1..] else ts[i := e]
  }

  function Count(ts: seq<TopicEntry>): nat {
    if ts == [] then 0 else Count(ts[..|ts| - 1]) + |ts[|ts| - 1].subscribers|
  }

  // ---------- the index refines the relation ----------

  lemma {:induction false} PairsConcat(a: seq<TopicEntry>, b: seq<TopicEntry>)
    ensures Pairs(a + b) == Pairs(a) + Pairs(b)
  {
    if b == [] {
      assert a + b == a;
    } else {
      PairsConcat(a, b[..|b| - 1]);
      assert (a + b)[..|a + b| - 1] == a + b[..|b| - 1];
    }
  }

  lemma {:induction false} PairsAt(ts: seq<TopicEntry>, i: nat)
    requires i < |ts|
    ensures Pairs(ts) == Pairs(ts[..i]) + Row(ts[i]) + Pairs(ts[i + 1..])
  {
    assert ts == ts[..i] + [ts[i]] + ts[i + 1..];
    PairsConcat(ts[..i] + [ts[i]], ts[i + 1..]);
    PairsConcat(ts[..i], [ts[i]]);
    assert Pairs([ts[i]]) == Row(ts[i]);
  }

  lemma {:induction false} PairsLack(ts: seq<TopicEntry>, f: Bytes, x: SessionId)
    requires Lacks(ts, f)
    ensures (f, x) !in Pairs(ts)
  {
    if ts != [] {
      PairsLack(ts[..|ts| - 1], f, x);
    }
  }

  lemma {:induction false} SubscribeKeepsWellFormed(lim: Limits, ts: seq<TopicEntry>, id: SessionId, f: Bytes)
    requires WellFormed(lim, ts)
    ensures WellFormed(lim, Subscribe(lim, ts, id, f).0)
  {
  }

  lemma {:induction false} PairsUpdate(ts: seq<TopicEntry>, i: nat, e: TopicEntry)
    requires i < |ts|
    ensures Pairs(ts[i := e]) == Pairs(ts[..i]) + Row(e) + Pairs(ts[i + 1..])
  {
    var ts' := ts[i := e];
    PairsAt(ts', i);
    assert ts'[..i] == ts[..i] && ts'[i + 1..] == ts[i + 1..];
  }

  lemma {:induction false} RowAdd(e: TopicEntry, id: SessionId)
    ensures Row(e.(subscribers := e.subscribers + [id])) == Row(e) + {(e.filter, id)}
  {
  }

  lemma {:induction false} RowRestrict(e: TopicEntry, gone: set<SessionId>)
    ensures Row(RestrictEntry(e, gone)) == set p | p in Row(e) && p.1 !in gone
  {
    var subs := Without(e.subscribers, gone);
    assert forall p :: p in Row(RestrictEntry(e, gone)) <==> p.0 == e.filter && p.1 in subs;
    assert forall p :: p in Row(e) <==> p.0 == e.filter && p.1 in e.subscribers;
  }

  /** In a well-formed index the pair (f, id) can only sit in the entry for f. */
  lemma {:induction false} PairsElsewhere(lim: Limits, ts: seq<TopicEntry>, id: SessionId, f: Bytes)
    requires WellFormed(lim, ts)
    ensures var i := FindFilter(ts, f);
            if i < |ts|
            then (f, id) !in Pairs(ts[..i]) && (f, id) !in Pairs(ts[i + 1..])
            else Lacks(ts, f) && (f, id) !in Pairs(ts)
  {
    var i := FindFilter(ts, f);
    if i < |ts| {
      PairsLack(ts[..i], f, id);
      PairsLack(ts[i + 1..], f, id);
    } else {
      PairsLack(ts, f, id);
    }
  }

  lemma {:induction false} AddToEntry(lim: Limits, ts: seq<TopicEntry>, i: nat, id: SessionId)
    requires i < |ts|
    ensures var (e, status) := AddSubscriber(lim, ts[i], id);
            && (status.Ok? ==> Pairs(ts[i := e]) == Pairs(ts) + {(ts[i].filter, id)})
            && (status.Err? ==> e == ts[i] && id !in ts[i].subscribers)
  {
    var e := AddSubscriber(lim, ts[i], id).0;
    PairsAt(ts, i);
    PairsUpdate(ts, i, e);
    RowAdd(ts[i], id);
  }

  lemma {:induction false} AddEntry(ts: seq<TopicEntry>, f: Bytes, id: SessionId)
    ensures Pairs(ts + [TopicEntry(f, [id])]) == Pairs(ts) + {(f, id)}
  {
    var e := TopicEntry(f, [id]);
    PairsConcat(ts, [e]);
    assert Pairs([e]) == Row(e);
    assert Row(e) == {(f, id)};
  }

  /** The list for this filter has no room: it is full, or it would be a new one and
      lists have no room at all. */
  ghost predicate Crowded(lim: Limits, ts: seq<TopicEntry>, f: Bytes) {
    || (exists i :: 0 <= i < |ts| && ts[i].filter == f && |ts[i].subscribers| == lim.maxSubscribers)
    || (Lacks(ts, f) && lim.maxSubscribers == 0)
  }

  /** Success adds one pair. Failure changes nothing and happens exactly to a new pair
      whose filter finds the index full, or its list. */
  lemma {:induction false} SubscribeAddsOnePair(lim: Limits, ts: seq<TopicEntry>, id: SessionId, f: Bytes)
    requires WellFormed(lim, ts)
    ensures var (ts', status) := Subscribe(lim, ts, id, f);
            && (status.Ok? ==> Pairs(ts') == Pairs(ts) + {(f, id)})
            && (status.Err? ==> ts' == ts && (f, id) !in Pairs(ts))
            && (status.Err? ==> status.error in {MaxTopicsReached, MaxSubscribersPerTopicReached})
            && (status == Err(MaxTopicsReached) <==> Lacks(ts, f) && |ts| == lim.maxTopics)
            && (status == Err(MaxSubscribersPerTopicReached) <==>
                  (f, id) !in Pairs(ts) && Crowded(lim, ts, f) && !(Lacks(ts, f) && |ts| == lim.maxTopics))
  {
    PairsElsewhere(lim, ts, id, f);
    var i := FindFilter(ts, f);
    if i < |ts| {
      AddToEntry(lim, ts, i, id);
      PairsAt(ts, i);
      assert ts[i := ts[i]] == ts;
    } else {
      AddEntry(ts, f, id);
      assert [] + [id] == [id];
    }
  }

  lemma {:induction false} RowRemove(e: TopicEntry, id: SessionId)
    ensures Row(RestrictEntry(e, {id})) == Row(e) - {(e.filter, id)}
  {
    RowRestrict(e, {id});
  }

  /** The entry of a pair in full, without it, or gone. */
  lemma {:induction false} PairsWithout(ts: seq<TopicEntry>, i: nat, id: SessionId)
    requires i < |ts|
    ensures var e := RestrictEntry(ts[i], {id});
            var ts' := if e.subscribers == [] then ts[..i] + ts[i + 1..] else ts[i := e];
            Pairs(ts') == Pairs(ts[..i]) + (Row(ts[i]) - {(ts[i].filter, id)}) + Pairs(ts[i + 1..])
  {
    var e := RestrictEntry(ts[i], {id});
    RowRemove(ts[i], id);
    if e.subscribers == [] {
      PairsConcat(ts[..i], ts[i + 1..]);
      assert Row(e) == {};
    } else {
      PairsUpdate(ts, i, e);
    }
  }

  lemma {:induction false} RemoveFromMiddle<T>(a: set<T>, b: set<T>, c: set<T>, x: T)
    requires x !in a && x !in c
    ensures a + (b - {x}) + c == a + b + c - {x}
  {
  }

  lemma {:induction false} UnsubscribeRemovesOnePair(lim: Limits, ts: seq<TopicEntry>, id: SessionId, f: Bytes)
    requires WellFormed(lim, ts)
    ensures Pairs(Unsubscribe(ts, id, f)) == Pairs(ts) - {(f, id)}
  {
    PairsElsewhere(lim, ts, id, f);
    var i := FindFilter(ts, f);
    if i < |ts| {
      PairsAt(ts, i);
      PairsWithout(ts, i, id);
      RemoveFromMiddle(Pairs(ts[..i]), Row(ts[i]), Pairs(ts[i + 1..]), (f, id));
    }
  }

  lemma {:induction false} ReplaceKeepsWellFormed(lim: Limits, ts: seq<TopicEntry>, i: nat, e: TopicEntry)
    requires WellFormed(lim, ts) && i < |ts| && e.filter == ts[i].filter && EntryWellFormed(lim, e)
    ensures WellFormed(lim, ts[i := e])
  {
  }

  lemma {:induction false} DeleteKeepsWellFormed(lim: Limits, ts: seq<TopicEntry>, i: nat)
    requires WellFormed(lim, ts) && i < |ts|
    ensures WellFormed(lim, ts[..i] + ts[i + 1..])
  {
    var ts' := ts[..i] + ts[i + 1..];
    assert forall j :: 0 <= j < |ts'| ==> ts'[j] == ts[if j < i then j else j + 1];
  }

  lemma {:induction false} RestrictEntryWellFormed(lim: Limits, e: TopicEntry, gone: set<SessionId>)
    requires EntryWellFormed(lim, e) && RestrictEntry(e, gone).subscribers != []
    ensures EntryWellFormed(lim, RestrictEntry(e, gone))
  {
    WithoutNoDup(e.subscribers, gone);
  }

  lemma {:induction false} UnsubscribeKeepsWellFormed(lim: Limits, ts: seq<TopicEntry>, id: SessionId, f: Bytes)
    requires WellFormed(lim, ts)
    ensures WellFormed(lim, Unsubscribe(ts, id, f))
  {
    var i := FindFilter(ts, f);
    if i < |ts| {
      var e := RestrictEntry(ts[i], {id});
      if e.subscribers == [] {
        DeleteKeepsWellFormed(lim, ts, i);
      } else {
        RestrictEntryWellFormed(lim, ts[i], {id});
        ReplaceKeepsWellFormed(lim, ts, i, e);
      }
    }
  }

  lemma {:induction false} WithoutNoDup(s: seq<SessionId>, gone: set<SessionId>)
    requires NoDup(s)
    ensures NoDup(Without(s, gone)) && |Without(s, gone)| <= |s|
  {
    if s != [] {
      WithoutNoDup(s[..|s| - 1], gone);
      InitLast(s);
    }
  }

  lemma {:induction false} RestrictLacks(ts: seq<TopicEntry>, gone: set<SessionId>, f: Bytes)
    requires Lacks(ts, f)
    ensures Lacks(Restrict(ts, gone), f)
  {
    if ts != [] {
      RestrictLacks(ts[..|ts| - 1], gone, f);
    }
  }

  lemma {:induction false} RestrictKeepsWellFormed(lim: Limits, ts: seq<TopicEntry>, gone: set<SessionId>)
    requires WellFormed(lim, ts)
    ensures WellFormed(lim, Restrict(ts, gone)) && |Restrict(ts, gone)| <= |ts|
  {
    if ts != [] {
      var init, last := ts[..|ts| - 1], ts[|ts| - 1];
      RestrictKeepsWellFormed(lim, init, gone);
      RestrictLacks(init, gone, last.filter);
      WithoutNoDup(last.subscribers, gone);
    }
  }

  /** Removing sessions removes exactly their pairs. */
  lemma {:induction false} RestrictRemovesPairs(ts: seq<TopicEntry>, gone: set<SessionId>)
    ensures Pairs(Restrict(ts, gone)) == set p | p in Pairs(ts) && p.1 !in gone
  {
    if ts != [] {
      var init, last := ts[..|ts| - 1], ts[|ts| - 1];
      var e := RestrictEntry(last, gone);
      RestrictRemovesPairs(init, gone);
      RowRestrict(last, gone);
      if e.subscribers == [] {
        assert Row(e) == {};
        assert Restrict(ts, gone) == Restrict(init, gone);
      } else {
        var r := Restrict(init, gone) + [e];
        assert r[..|r| - 1] == Restrict(init, gone);
      }
    }
  }

  /** Removing one group of sessions and then another is removing both at once. */
  lemma {:induction false} WithoutCompose(s: seq<SessionId>, a: set<SessionId>, b: set<SessionId>)
    ensures Without(Without(s, a), b) == Without(s, a + b)
  {
    if s != [] {
      WithoutCompose(s[..|s| - 1], a, b);
      var w := Without(s[..|s| - 1], a);
      assert (w + [s[|s| - 1]])[..|w|] == w;
      assert w + [] == w;
    }
  }

  lemma {:induction false} RestrictCompose(ts: seq<TopicEntry>, a: set<SessionId>, b: set<SessionId>)
    ensures Restrict(Restrict(ts, a), b) == Restrict(ts, a + b)
  {
    if ts != [] {
      var r, e := Restrict(ts[..|ts| - 1], a), RestrictEntry(ts[|ts| - 1], a);
      RestrictCompose(ts[..|ts| - 1], a, b);
      WithoutCompose(ts[|ts| - 1].subscribers, a, b);
      assert (r + [e])[..|r|] == r;
      assert r + [] == r;
    }
  }

  /** `subscription_count` counts the pairs. */
  lemma {:induction false} CountIsPairs(lim: Limits, ts: seq<TopicEntry>)
    requires WellFormed(lim, ts)
    ensures Count(ts) == |Pairs(ts)|
  {
    if ts != [] {
      var init, last := ts[..|ts| - 1], ts[|ts| - 1];
      CountIsPairs(lim, init);
      InitLast(ts);
      forall x | x in last.subscribers
        ensures (last.filter, x) !in Pairs(init)
      {
        PairsLack(init, last.filter, x);
      }
      RowCardinality(last);
    }
  }

  lemma {:induction false} RowCardinality(e: TopicEntry)
    requires NoDup(e.subscribers)
    ensures |Row(e)| == |e.subscribers|
    decreases |e.subscribers|
  {
    if e.subscribers != [] {
      var n := |e.subscribers| - 1;
      var init := e.(subscribers := e.subscribers[..n]);
      RowCardinality(init);
      assert e.subscribers == init.subscribers + [e.subscribers[n]];
      assert Row(e) == Row(init) + {(e.filter, e.subscribers[n])};
    }
  }

  /** A session is matched exactly when one of its filters matches the topic. */
  lemma {:induction false} MatchingIsJoin(ts: seq<TopicEntry>, topic: Bytes, x: SessionId)
    ensures x in Matching(ts, topic) <==> exists f :: (f, x) in Pairs(ts) && Matches(topic, f)
  {
    if ts != [] {
      var init, last := ts[..|ts| - 1], ts[|ts| - 1];
      MatchingIsJoin(init, topic, x);
      if x in last.subscribers && Matches(topic, last.filter) {
        assert (last.filter, x) in Pairs(ts);
      }
    }
  }

  // ---------- the bounded, deduplicating join ----------

  /** One step of the join: skip what is already listed, drop what does not fit. */
  lemma {:induction false} TakeDedupStep(cap: nat, s: seq<SessionId>, x: SessionId)
    ensures var t := Take(cap, Dedup(s));
            Take(cap, Dedup(s + [x])) == if x !in t && |t| < cap then t + [x] else t
  {
    DedupSnoc(s, x);
  }

  lemma {:induction false} TakeDedupMore(cap: nat, s: seq<SessionId>, more: seq<SessionId>, j: nat)
    requires j < |more|
    ensures var t := Take(cap, Dedup(s + more[..j]));
            Take(cap, Dedup(s + more[..j + 1])) == if more[j] !in t && |t| < cap then t + [more[j]] else t
  {
    assert s + more[..j + 1] == s + more[..j] + [more[j]];
    TakeDedupStep(cap, s + more[..j], more[j]);
  }

  /** Each matching session is listed at most once, and if the list is not full,
      exactly the matching sessions are listed. */
  lemma {:induction false} SubscribersAreMatches(lim: Limits, ts: seq<TopicEntry>, topic: Bytes)
    ensures var subs := Subscribers(lim, ts, topic);
            && NoDup(subs) && |subs| <= lim.maxSubscribers
            && (forall x :: x in subs ==> x in Matching(ts, topic))
            && (|subs| < lim.maxSubscribers ==> forall x :: x in Matching(ts, topic) ==> x in subs)
  {
    var d := Dedup(Matching(ts, topic));
    assert forall x :: x in d[..if |d| < lim.maxSubscribers then |d| else lim.maxSubscribers] ==> x in d;
  }

  predicate HasSubscribers(e: TopicEntry) {
    e.subscribers != []
  }

  /** First position of a session in a list, or the length. */
  function PositionOf(s: seq<SessionId>, id: SessionId): (i: nat)
    ensures i <= |s|
    ensures i < |s| ==> s[i] == id
    ensures id !in s[..i]
  {
    if s == [] || s[0] == id then 0
    else
      var i := PositionOf(s[1..], id);
      assert s[..1 + i] == [s[0]] + s[1..][..i];
      1 + i
  }

  /** Removes one occurrence; on a duplicate-free list that is all of them. */
  function RemoveSubscriber(e: TopicEntry, id: SessionId): (r: (TopicEntry, bool))
    ensures r.1 <==> id in e.subscribers
    ensures NoDup(e.subscribers) ==> r.0 == RestrictEntry(e, {id})
    ensures |r.0.subscribers| == |e.subscribers| - if r.1 then 1 else 0
  {
    var pos := PositionOf(e.subscribers, id);
    assert e.subscribers[..|e.subscribers|] == e.subscribers;
    if pos < |e.subscribers| then
      RemoveOnce(e.subscribers, id, pos);
      (e.(subscribers := e.subscribers[..pos] + e.subscribers[pos + 1..]), true)
    else
      RemoveNone(e.subscribers, id);
      (e, false)
  }

  lemma {:induction false} WithoutSnoc(s: seq<SessionId>, x: SessionId, gone: set<SessionId>)
    ensures Without(s + [x], gone) == Without(s, gone) + if x in gone then [] else [x]
  {
    assert (s + [x])[..|s|] == s;
  }

  lemma {:induction false} RemoveNone(s: seq<SessionId>, id: SessionId)
    requires id !in s
    ensures Without(s, {id}) == s
  {
    if s != [] {
      var init, last := s[..|s| - 1], s[|s| - 1];
      RemoveNone(init, id);
      InitLast(s);
      WithoutSnoc(init, last, {id});
    }
  }

  lemma {:induction false} RemoveOnce(s: seq<SessionId>, id: SessionId, pos: nat)
    requires pos < |s| && s[pos] == id
    ensures NoDup(s) ==> Without(s, {id}) == s[..pos] + s[pos + 1..]
  {
    if NoDup(s) {
      var init, last := s[..|s| - 1], s[|s| - 1];
      InitLast(s);
      WithoutSnoc(init, last, {id});
      if pos == |init| {
        RemoveNone(init, id);
        assert s[pos + 1..] == [];
      } else {
        RemoveOnce(init, id, pos);
        DeleteBeforeLast(s, pos);
      }
    }
  }

  lemma {:induction false} WithoutNobody(s: seq<SessionId>)
    ensures Without(s, {}) == s
  {
    if s != [] {
      var init, last := s[..|s| - 1], s[|s| - 1];
      WithoutNobody(init);
      InitLast(s);
      WithoutSnoc(init, last, {});
    }
  }

  lemma {:induction false} RestrictSnoc(ts: seq<TopicEntry>, e: TopicEntry, gone: set<SessionId>)
    ensures var d := RestrictEntry(e, gone);
            Restrict(ts + [e], gone) == Restrict(ts, gone) + if d.subscribers == [] then [] else [d]
  {
    assert (ts + [e])[..|ts|] == ts;
  }

  lemma {:induction false} RestrictEntryNobody(e: TopicEntry)
    ensures RestrictEntry(e, {}) == e
  {
    WithoutNobody(e.subscribers);
  }

  lemma {:induction false} RestrictNobody(ts: seq<TopicEntry>)
    requires forall i :: 0 <= i < |ts| ==> |ts[i].subscribers| > 0
    ensures Restrict(ts, {}) == ts
  {
    if ts != [] {
      var init, last := ts[..|ts| - 1], ts[|ts| - 1];
      RestrictNobody(init);
      RestrictEntryNobody(last);
      RestrictSnoc(init, last, {});
      InitLast(ts);
    }
  }

  lemma {:induction false} MatchingStep(ts: seq<TopicEntry>, i: nat, topic: Bytes)
    requires i < |ts|
    ensures Matching(ts[..i + 1], topic) == Matching(ts[..i], topic)
            + if Matches(topic, ts[i].filter) then ts[i].subscribers else []
  {
    assert ts[..i + 1][..i] == ts[..i];
  }

  lemma {:induction false} FilterSnoc(ts: seq<TopicEntry>, e: TopicEntry)
    ensures Filter(HasSubscribers, ts + [e]) == Filter(HasSubscribers, ts) + if e.subscribers == [] then [] else [e]
  {
    assert (ts + [e])[..|ts|] == ts;
  }

  lemma {:induction false} CountSnoc(ts: seq<TopicEntry>, e: TopicEntry)
    ensures Count(ts + [e]) == Count(ts) + |e.subscribers|
  {
    assert (ts + [e])[..|ts|] == ts;
  }

  lemma {:induction false} RestrictStep(ts: seq<TopicEntry>, i: nat, id: SessionId)
    requires i < |ts| && NoDup(ts[i].subscribers)
    ensures var (e, removed) := RemoveSubscriber(ts[i], id);
            && Restrict(ts[..i + 1], {id}) == Restrict(ts[..i], {id}) + (if e.subscribers == [] then [] else [e])
            && Count(ts[..i + 1]) == Count(ts[..i]) + |ts[i].subscribers|
            && Count(Restrict(ts[..i + 1], {id})) == Count(Restrict(ts[..i], {id})) + |e.subscribers|
  {
    assert ts[..i + 1][..i] == ts[..i];
    var e, r := RemoveSubscriber(ts[i], id).0, Restrict(ts[..i], {id});
    CountSnoc(r, e);
    assert r + [] == r;
  }

  // ---------- order ----------

  /** A subscription comes last: at the end of its filter's list, or as a new entry at the
      end of the index. Nothing else moves. */
  lemma {:induction false} SubscribeAppends(lim: Limits, ts: seq<TopicEntry>, id: SessionId, f: Bytes)
    ensures var ts' := Subscribe(lim, ts, id, f).0;
            && |ts| <= |ts'| <= |ts| + 1
            && (|ts'| > |ts| ==> ts'[|ts|] == TopicEntry(f, [id]))
            && forall i :: 0 <= i < |ts| ==>
                 && ts'[i].filter == ts[i].filter
                 && (ts'[i].subscribers == ts[i].subscribers || ts'[i].subscribers == ts[i].subscribers + [id])
  {
    assert [] + [id] == [id];
  }

  lemma {:induction false} PositionIs(s: seq<SessionId>, x: SessionId, q: nat)
    requires q < |s| && s[q] == x && x !in s[..q]
    ensures PositionOf(s, x) == q
  {
    if q > 0 {
      assert s[..q] == [s[0]] + s[1..][..q - 1];
      PositionIs(s[1..], x, q - 1);
    }
  }

  lemma {:induction false} PositionSnoc(s: seq<SessionId>, last: SessionId, x: SessionId)
    requires x in s || x == last
    ensures PositionOf(s + [last], x) == if x in s then PositionOf(s, x) else |s|
  {
    var t := s + [last];
    var q := if x in s then PositionOf(s, x) else |s|;
    assert s[..|s|] == s;
    assert t[..q] == s[..q];
    PositionIs(t, x, q);
  }

  /** The collected list is in the order of first occurrence. */
  lemma {:induction false} DedupInOrder(s: seq<SessionId>, i: nat, j: nat)
    requires i < j < |Dedup(s)|
    ensures PositionOf(s, Dedup(s)[i]) < PositionOf(s, Dedup(s)[j]) < |s|
  {
    var init, last := s[..|s| - 1], s[|s| - 1];
    var d := Dedup(init);
    InitLast(s);
    PositionSnoc(init, last, Dedup(s)[i]);
    PositionSnoc(init, last, Dedup(s)[j]);
    assert d[i] in d;
    if j < |d| {
      DedupInOrder(init, i, j);
      assert d[j] in d;
    } else {
      PositionIsInside(init, d[i]);
    }
  }

  lemma {:induction false} PositionIsInside(s: seq<SessionId>, x: SessionId)
    requires x in s
    ensures PositionOf(s, x) < |s|
  {
    assert s[..|s|] == s;
  }

  /** Lists are collected entry by entry. */
  lemma {:induction false} MatchingInOrder(ts: seq<TopicEntry>, i: nat, topic: Bytes)
    requires i <= |ts|
    ensures Matching(ts[..i], topic) <= Matching(ts, topic)
    decreases |ts|
  {
    if i < |ts| {
      MatchingInOrder(ts[..|ts| - 1], i, topic);
      assert ts[..|ts| - 1][..i] == ts[..i];
    } else {
      assert ts[..i] == ts;
    }
  }

  /** Removing sessions leaves the others on a list in their order. */
  lemma {:induction false} WithoutInOrder(s: seq<SessionId>, gone: set<SessionId>, i: nat, j: nat)
    requires NoDup(s) && i < j < |Without(s, gone)|
    ensures PositionOf(s, Without(s, gone)[i]) < PositionOf(s, Without(s, gone)[j]) < |s|
  {
    var init, last := s[..|s| - 1], s[|s| - 1];
    var w := Without(init, gone);
    InitLast(s);
    PositionSnoc(init, last, Without(s, gone)[i]);
    PositionSnoc(init, last, Without(s, gone)[j]);
    assert w[i] in w;
    if j < |w| {
      WithoutInOrder(init, gone, i, j);
      assert w[j] in w;
    } else {
      PositionIsInside(init, w[i]);
    }
  }

  /** Unsubscribing touches one entry: it loses the session, or goes if nobody else is left
      on it; all others stay where they were. */
  lemma {:induction false} UnsubscribeExact(lim: Limits, ts: seq<TopicEntry>, i: nat, id: SessionId)
    requires WellFormed(lim, ts) && i < |ts|
    ensures var ts' := Unsubscribe(ts, id, ts[i].filter);
            if ts[i].subscribers == [id] then ts' == ts[..i] + ts[i + 1..]
            else && |ts'| == |ts|
                 && (forall j :: 0 <= j < |ts| && j != i ==> ts'[j] == ts[j])
                 && ts'[i].filter == ts[i].filter
                 && (forall x :: x in ts'[i].subscribers <==> x in ts[i].subscribers && x != id)
  {
    assert FindFilter(ts, ts[i].filter) == i;
    assert EntryWellFormed(lim, ts[i]);
    NobodyLeft(ts[i].subscribers, id);
  }

  lemma {:induction false} NobodyLeft(s: seq<SessionId>, id: SessionId)
    requires NoDup(s) && s != []
    ensures Without(s, {id}) == [] <==> s == [id]
  {
    var r := Without(s, {id});
    assert s[0] in s;
    if |s| > 1 {
      var other := if s[0] == id then s[1] else s[0];
      assert other in r;
    } else {
      assert s == [s[0]];
      assert s[0] in r <==> s[0] != id;
      assert r != [] ==> r[0] in r;
    }
  }

  lemma {:induction false} FindFilterSnoc(ts: seq<TopicEntry>, e: TopicEntry, f: Bytes)
    ensures FindFilter(ts + [e], f) ==
            if FindFilter(ts, f) < |ts| then FindFilter(ts, f) else if e.filter == f then |ts| else |ts| + 1
  {
    var i, us := FindFilter(ts, f), ts + [e];
    assert forall j :: 0 <= j < |ts| ==> us[j] == ts[j];
    assert us[|ts|] == e;
  }

  /** And the remaining entries in theirs. */
  lemma {:induction false} RestrictInOrder(lim: Limits, ts: seq<TopicEntry>, gone: set<SessionId>, i: nat, j: nat)
    requires WellFormed(lim, ts) && i < j < |Restrict(ts, gone)|
    ensures var r := Restrict(ts, gone); FindFilter(ts, r[i].filter) < FindFilter(ts, r[j].filter) < |ts|
  {
    var init, last := ts[..|ts| - 1], ts[|ts| - 1];
    var r, q := Restrict(ts, gone), Restrict(init, gone);
    InitLast(ts);
    FindFilterSnoc(init, last, r[i].filter);
    FindFilterSnoc(init, last, r[j].filter);
    if j < |q| {
      RestrictInOrder(lim, init, gone, i, j);
    } else {
      RestrictEntryIsKnown(init, gone, i);
      assert r[j].filter == last.filter;
    }
  }

  lemma {:induction false} RestrictEntryIsKnown(ts: seq<TopicEntry>, gone: set<SessionId>, i: nat)
    requires i < |Restrict(ts, gone)|
    ensures FindFilter(ts, Restrict(ts, gone)[i].filter) < |ts|
  {
    var init, last := ts[..|ts| - 1], ts[|ts| - 1];
    InitLast(ts);
    FindFilterSnoc(init, last, Restrict(ts, gone)[i].filter);
    if i < |Restrict(init, gone)| {
      RestrictEntryIsKnown(init, gone, i);
    }
  }
}
