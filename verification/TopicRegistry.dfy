/** The registry that updates the topic index in place. */
module TopicRegistries {
  import opened Basics
  import opened BrokerTypes
  import opened TopicIndex
  import TopicFilter
  import Utf8

  class TopicRegistry {
    const lim: Limits
    var topics: seq<TopicEntry>

    ghost predicate Valid()
      reads this
    {
      lim.Ok() && WellFormed(lim, topics)
    }

    constructor (lim: Limits)
      requires lim.Ok()
      ensures this.lim == lim && topics == [] && Valid()
    {
      this.lim := lim;
      topics := [];
    }

    /** The linear search with the derived equality on filters. */
    method Position(f: Bytes) returns (i: nat)
      ensures i == FindFilter(topics, f)
    {
      i := 0;
      while i < |topics| && topics[i].filter != f
        invariant i <= |topics|
        invariant FindFilter(topics, f) == i + FindFilter(topics[i..], f)
      {
        assert topics[i..][1..] == topics[i + 1..];
        i := i + 1;
      }
    }

    method Subscribe(id: SessionId, f: Bytes) returns (status: Status)
      requires Valid()
      modifies this
      ensures Valid()
      ensures (topics, status) == TopicIndex.Subscribe(lim, old(topics), id, f)
    {
      SubscribeKeepsWellFormed(lim, topics, id, f);
      var i := Position(f);
      if i < |topics| {
        var (e, s) := AddSubscriber(lim, topics[i], id);
        topics := topics[i := e];
        return s;
      }
      if |topics| >= lim.maxTopics {
        return Err(MaxTopicsReached);
      }
      var (e, s) := AddSubscriber(lim, TopicEntry(f, []), id);
      if s.Err? {
        return s;
      }
      topics := topics + [e];
      return Ok;
    }

    method GetSubscribers(topic: Bytes) returns (subscribers: seq<SessionId>)
      ensures subscribers == Subscribers(lim, topics, topic)
    {
      subscribers := [];
      var publishedTopic := Utf8.AsStr(topic);
      ghost var seen: seq<SessionId> := [];
      for i := 0 to |topics|
        invariant seen == Matching(topics[..i], topic)
        invariant subscribers == Take(lim.maxSubscribers, Dedup(seen))
      {
        var entry := topics[i];
        MatchingStep(topics, i, topic);
        var matches := TopicFilter.TopicMatches(publishedTopic, Utf8.AsStr(entry.filter));
        if matches {
          subscribers := AddMatches(subscribers, seen, entry.subscribers);
          seen := seen + entry.subscribers;
        }
      }
      assert topics[..|topics|] == topics;
    }

    /** The inner loop: the subscribers of one matching entry. */
    method AddMatches(listed: seq<SessionId>, ghost seen: seq<SessionId>, more: seq<SessionId>)
      returns (subscribers: seq<SessionId>)
      requires listed == Take(lim.maxSubscribers, Dedup(seen))
      ensures subscribers == Take(lim.maxSubscribers, Dedup(seen + more))
    {
      subscribers := listed;
      assert seen + more[..0] == seen;
      for j := 0 to |more|
        invariant subscribers == Take(lim.maxSubscribers, Dedup(seen + more[..j]))
      {
        TakeDedupMore(lim.maxSubscribers, seen, more, j);
        if more[j] !in subscribers && |subscribers| < lim.maxSubscribers {
          subscribers := subscribers + [more[j]];
        }
      }
      assert more[..|more|] == more;
    }

    method Unsubscribe(id: SessionId, f: Bytes) returns (removed: bool)
      requires Valid()
      modifies this
      ensures Valid()
      ensures topics == TopicIndex.Unsubscribe(old(topics), id, f)
      ensures removed <==> (f, id) in Pairs(old(topics))
    {
      UnsubscribeKeepsWellFormed(lim, topics, id, f);
      var idx := Position(f);
      if idx == |topics| {
        PairsLack(topics, f, id);
        return false;
      }
      PairsAt(topics, idx);
      PairsLack(topics[..idx], f, id);
      PairsLack(topics[idx + 1..], f, id);
      var (e, r) := RemoveSubscriber(topics[idx], id);
      topics := topics[idx := e];
      if topics[idx].subscribers == [] {
        topics := topics[..idx] + topics[idx + 1..];
      }
      return r;
    }

    method UnregisterAll(id: SessionId) returns (removedCount: nat)
      requires Valid()
      modifies this
      ensures Valid()
      ensures topics == Restrict(old(topics), {id})
      ensures removedCount == Count(old(topics)) - Count(topics)
    {
      RestrictKeepsWellFormed(lim, topics, {id});
      var entries, count := RemoveFromEach(id);
      topics := Filter(HasSubscribers, entries);
      removedCount := count;
    }

    /** The first loop of `unregister_all`; it leaves empty entries behind. */
    method RemoveFromEach(id: SessionId) returns (entries: seq<TopicEntry>, removedCount: nat)
      requires Valid()
      ensures Filter(HasSubscribers, entries) == Restrict(topics, {id})
      ensures removedCount + Count(Restrict(topics, {id})) == Count(topics)
    {
      removedCount := 0;
      entries := [];
      for i := 0 to |topics|
        invariant Filter(HasSubscribers, entries) == Restrict(topics[..i], {id})
        invariant removedCount + Count(Restrict(topics[..i], {id})) == Count(topics[..i])
      {
        var (e, removed) := RemoveSubscriber(topics[i], id);
        RestrictStep(topics, i, id);
        FilterSnoc(entries, e);
        entries := entries + [e];
        if removed {
          removedCount := removedCount + 1;
        }
      }
      assert topics[..|topics|] == topics;
    }

    /** The number of pairs in the relation. */
    method SubscriptionCount() returns (n: nat)
      requires Valid()
      ensures n == |Pairs(topics)|
    {
      CountIsPairs(lim, topics);
      n := 0;
      for i := 0 to |topics|
        invariant n == Count(topics[..i])
      {
        assert topics[..i + 1][..i] == topics[..i];
        n := n + |topics[i].subscribers|;
      }
      assert topics[..|topics|] == topics;
    }
  }
}
