/** Exactly what the public operations other than draining do: what a new session holds,
    when a received packet is accepted, what handing over, disconnecting and removing
    leave behind. Everything that is not named stays as it was. */
module OperationEffects {
  import opened Basics
  import opened BrokerTypes
  import opened Packets
  import opened BrokerModel
  import opened Runs
  import Sessions = SessionModel
  import Topics = TopicIndex

  ghost predicate Known(b: Broker, id: SessionId) {
    exists i :: 0 <= i < |b.sessions| && b.sessions[i].id == id
  }

  lemma {:induction false} KnownIsLive(b: Broker, id: SessionId)
    ensures Known(b, id) <==> Sessions.Live(b.sessions, id)
  {
    if Sessions.Live(b.sessions, id) {
      assert b.sessions[Sessions.Find(b.sessions, id)].id == id;
    }
  }

  /** Registration fails when the registry is full, else when the id is taken. A new
      session comes last, has just been heard from, and has nothing waiting. */
  lemma {:induction false} RegisterExact(lim: Limits, b: Broker, id: SessionId, keepAlive: u16, now: nat)
    ensures var step := RegisterSession(lim, b, id, keepAlive, now);
            && (|b.sessions| >= lim.maxSessions ==> step == Step(b, Err(MaxSessionsReached)))
            && (|b.sessions| < lim.maxSessions && Known(b, id) ==> step == Step(b, Err(SessionAlreadyExists(id))))
            && (|b.sessions| < lim.maxSessions && !Known(b, id) ==>
                  && step.status == Ok
                  && step.b.topics == b.topics && step.b.inbox == b.inbox
                  && |step.b.sessions| == |b.sessions| + 1 && step.b.sessions[..|b.sessions|] == b.sessions
                  && var s := step.b.sessions[|b.sessions|];
                     && s.id == id && s.clientId == None && s.state == Sessions.Connecting
                     && s.keepAlive == keepAlive && s.lastActivity == now && s.rx == [] && s.tx == [])
  {
    KnownIsLive(b, id);
  }

  /** A session registered at some moment survives a cleanup pass at that moment. */
  lemma {:induction false} RegisteredSurvives(lim: Limits, b: Broker, id: SessionId, keepAlive: u16, now: nat)
    requires Inv(lim, b) && |b.sessions| < lim.maxSessions && !Known(b, id)
    ensures Known(Cleanup(RegisterSession(lim, b, id, keepAlive, now).b, now), id)
  {
    var c := RegisterSession(lim, b, id, keepAlive, now).b;
    RegisterExact(lim, b, id, keepAlive, now);
    RegisterKeepsInv(lim, b, id, keepAlive, now);
    Sessions.FindAt(c.sessions, |b.sessions|);
    CleanupExact(lim, c, now, id);
    KnownIsLive(Cleanup(c, now), id);
  }

  /** A packet of a known session is accepted if and only if its receive queue has room;
      then it comes last in the queue and in the log of accepted packets. In any case the
      session has been heard from. */
  lemma {:induction false} ReceiveExact(lim: Limits, b: Broker, i: nat, packet: Packet, now: nat)
    requires i < |b.sessions| && Sessions.UniqueIds(b.sessions)
    ensures var s := b.sessions[i];
            var step := BrokerModel.Receive(lim, b, s.id, packet, now);
            && step.b.topics == b.topics
            && (if |s.rx| < lim.queueSize
                then && step.status == Ok
                     && step.b.inbox == b.inbox + [(s.id, packet)]
                     && step.b.sessions ==
                        b.sessions[i := s.(lastActivity := now, rx := s.rx + [Sessions.Inbound(packet, |b.inbox|)])]
                else && step.status == Err(SessionQueueFull(s.id))
                     && step.b.inbox == b.inbox
                     && step.b.sessions == b.sessions[i := s.(lastActivity := now)])
  {
    var id := b.sessions[i].id;
    Sessions.FindAt(b.sessions, i);
    Sessions.FindSameIds(b.sessions, Sessions.SetActivity(b.sessions, id, now).0, id);
  }

  lemma {:induction false} ReceiveUnknown(lim: Limits, b: Broker, id: SessionId, packet: Packet, now: nat)
    requires !Known(b, id)
    ensures BrokerModel.Receive(lim, b, id, packet, now) == Step(b, Err(SessionNotFound(id)))
  {
    KnownIsLive(b, id);
  }

  /** Only this session's state changes. */
  lemma {:induction false} MarkDisconnectedExact(b: Broker, i: nat)
    requires i < |b.sessions| && Sessions.UniqueIds(b.sessions)
    ensures var s := b.sessions[i];
            MarkDisconnected(b, s.id) ==
            Step(b.(sessions := b.sessions[i := s.(state := Sessions.Disconnected)]), Ok)
  {
    Sessions.FindAt(b.sessions, i);
  }

  lemma {:induction false} MarkUnknown(b: Broker, id: SessionId)
    requires !Known(b, id)
    ensures MarkDisconnected(b, id) == Step(b, Err(SessionNotFound(id)))
  {
    KnownIsLive(b, id);
  }

  /** Handing over takes the oldest waiting packet of this session, and nothing else. */
  lemma {:induction false} SendExact(lim: Limits, r: Run, i: nat)
    requires i < |r.b.sessions| && Sessions.UniqueIds(r.b.sessions)
    ensures var s := r.b.sessions[i];
            var q := Apply(lim, r, Send(s.id));
            if s.tx == [] then q == r
            else && q.b == r.b.(sessions := r.b.sessions[i := s.(tx := s.tx[1..])])
                 && q.delivered == r.delivered[s.id := Sent(r, s.id) + [s.tx[0]]]
  {
    Sessions.FindAt(r.b.sessions, i);
  }

  /** Removal takes this session out of the registry and its pairs out of the relation. */
  lemma {:induction false} RemoveExact(b: Broker, i: nat)
    requires i < |b.sessions| && Sessions.UniqueIds(b.sessions)
    ensures var id := b.sessions[i].id;
            var c := Purge(b, {id});
            && c.sessions == b.sessions[..i] + b.sessions[i + 1..]
            && Topics.Pairs(c.topics) == (set p | p in Topics.Pairs(b.topics) && p.1 != id)
            && c.inbox == b.inbox
  {
    Sessions.WithoutAt(b.sessions, i);
    Topics.RestrictRemovesPairs(b.topics, {b.sessions[i].id});
  }
}
