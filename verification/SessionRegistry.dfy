/** The session registry as it is stored: slots that may be empty, queues of slots that
    may be empty. An empty slot would silently end a queue, so the class keeps all of
    them filled, and keeps its sessions equal to the value in `model`. */
module SessionRegistries {
  import opened Basics
  import opened BrokerTypes
  import opened Packets
  import opened SessionModel

  datatype SessionSlot = SessionSlot(
    id: SessionId,
    clientId: Option<Bytes>,
    state: SessionState,
    keepAlive: u16,
    lastActivity: nat,
    rxQueue: seq<Option<Packet>>,
    txQueue: seq<Option<Packet>>)

  function RxSlots(rx: seq<Inbound>): (r: seq<Option<Packet>>)
    ensures |r| == |rx| && forall i :: 0 <= i < |rx| ==> r[i] == Some(rx[i].packet)
  {
    seq(|rx|, i requires 0 <= i < |rx| => Some(rx[i].packet))
  }

  function TxSlots(tx: seq<Outbound>): (r: seq<Option<Packet>>)
    ensures |r| == |tx| && forall i :: 0 <= i < |tx| ==> r[i] == Some(tx[i].packet)
  {
    seq(|tx|, i requires 0 <= i < |tx| => Some(tx[i].packet))
  }

  /** How a session is stored: every queue slot filled, the bookkeeping left out. */
  function Stored(s: Session): SessionSlot {
    SessionSlot(s.id, s.clientId, s.state, s.keepAlive, s.lastActivity, RxSlots(s.rx), TxSlots(s.tx))
  }

  class SessionRegistry {
    const lim: Limits
    var sessions: seq<Option<SessionSlot>>
    ghost var model: seq<Session>

    ghost predicate Valid()
      reads this
    {
      && lim.Ok()
      && WellFormed(lim, model)
      && |sessions| == |model|
      && forall i :: 0 <= i < |model| ==> sessions[i] == Some(Stored(model[i]))
    }

    constructor (lim: Limits)
      requires lim.Ok()
      ensures this.lim == lim && Valid() && model == []
    {
      this.lim := lim;
      sessions := [];
      model := [];
    }

    /** `find_session`: the first filled slot with this id. */
    method FindSession(id: SessionId) returns (i: nat)
      requires Valid()
      ensures i == Find(model, id)
    {
      i := 0;
      while i < |sessions| && !(sessions[i].Some? && sessions[i].value.id == id)
        invariant i <= |sessions|
        invariant forall j :: 0 <= j < i ==> model[j].id != id
      {
        i := i + 1;
      }
    }

    /** Stores a session back into its slot. */
    method Store(i: nat, slot: SessionSlot, ghost s: Session)
      requires Valid() && i < |model|
      requires slot == Stored(s) && s.id == model[i].id
      requires |s.rx| <= lim.queueSize && |s.tx| <= lim.queueSize
      modifies this
      ensures Valid() && model == old(model)[i := s]
    {
      sessions := sessions[i := Some(slot)];
      model := model[i := s];
    }

    method RegisterNewSession(id: SessionId, keepAlive: u16, now: nat) returns (status: Status)
      requires Valid()
      modifies this
      ensures Valid() && (model, status) == Register(lim, old(model), id, keepAlive, now)
    {
      if |sessions| >= lim.maxSessions {
        return Err(MaxSessionsReached);
      }
      var i := FindSession(id);
      if i < |sessions| {
        return Err(SessionAlreadyExists(id));
      }
      sessions := sessions + [Some(SessionSlot(id, None, Connecting, keepAlive, now, [], []))];
      model := model + [Session(id, None, Connecting, keepAlive, now, [], [])];
      return Ok;
    }

    method RemoveSession(id: SessionId) returns (removed: bool)
      requires Valid()
      modifies this
      ensures Valid() && model == Without(old(model), {id})
      ensures removed <==> Live(old(model), id)
    {
      WithoutKeepsWellFormed(lim, model, {id});
      var idx := FindSession(id);
      if idx < |sessions| {
        WithoutAt(model, idx);
        sessions := sessions[..idx] + sessions[idx + 1..];
        model := model[..idx] + model[idx + 1..];
        return true;
      }
      WithoutNone(model, id);
      return false;
    }

    method UpdateSessionActivity(id: SessionId, now: nat) returns (status: Status)
      requires Valid()
      modifies this
      ensures Valid() && (model, status) == SetActivity(old(model), id, now)
    {
      var i := FindSession(id);
      if i == |sessions| {
        return Err(SessionNotFound(id));
      }
      Store(i, sessions[i].value.(lastActivity := now), model[i].(lastActivity := now));
      return Ok;
    }

    method UpdateState(id: SessionId, state: SessionState) returns (status: Status)
      requires Valid()
      modifies this
      ensures Valid() && (model, status) == SetState(old(model), id, state)
    {
      var i := FindSession(id);
      if i == |sessions| {
        return Err(SessionNotFound(id));
      }
      Store(i, sessions[i].value.(state := state), model[i].(state := state));
      return Ok;
    }

    method UpdateClientId(id: SessionId, clientId: Bytes) returns (status: Status)
      requires Valid()
      modifies this
      ensures Valid() && (model, status) == SetClientId(old(model), id, clientId)
    {
      var i := FindSession(id);
      if i == |sessions| {
        return Err(SessionNotFound(id));
      }
      Store(i, sessions[i].value.(clientId := Some(clientId)), model[i].(clientId := Some(clientId)));
      return Ok;
    }

    method UpdateKeepAlive(id: SessionId, keepAlive: u16) returns (status: Status)
      requires Valid()
      modifies this
      ensures Valid() && (model, status) == SetKeepAlive(old(model), id, keepAlive)
    {
      var i := FindSession(id);
      if i == |sessions| {
        return Err(SessionNotFound(id));
      }
      Store(i, sessions[i].value.(keepAlive := keepAlive), model[i].(keepAlive := keepAlive));
      return Ok;
    }

    method QueueRxPacket(id: SessionId, packet: Packet, ghost n: nat) returns (status: Status)
      requires Valid()
      modifies this
      ensures Valid() && (model, status) == QueueRx(lim, old(model), id, Inbound(packet, n))
    {
      var i := FindSession(id);
      if i == |sessions| {
        return Err(SessionNotFound(id));
      }
      var slot := sessions[i].value;
      if |slot.rxQueue| >= lim.queueSize {
        return Err(SessionQueueFull(id));
      }
      ghost var rx := model[i].rx + [Inbound(packet, n)];
      assert RxSlots(rx) == slot.rxQueue + [Some(packet)];
      Store(i, slot.(rxQueue := slot.rxQueue + [Some(packet)]), model[i].(rx := rx));
      return Ok;
    }

    method QueueTxPacket(id: SessionId, packet: Packet, ghost from: SessionId, ghost n: nat) returns (status: Status)
      requires Valid()
      modifies this
      ensures Valid() && (model, status) == QueueTx(lim, old(model), id, Outbound(packet, from, n))
    {
      var i := FindSession(id);
      if i == |sessions| {
        return Err(SessionNotFound(id));
      }
      var slot := sessions[i].value;
      if |slot.txQueue| >= lim.queueSize {
        return Err(SessionQueueFull(id));
      }
      ghost var tx := model[i].tx + [Outbound(packet, from, n)];
      assert TxSlots(tx) == slot.txQueue + [Some(packet)];
      Store(i, slot.(txQueue := slot.txQueue + [Some(packet)]), model[i].(tx := tx));
      return Ok;
    }

    /** `Ok(None)` when the queue is empty; an empty slot would look the same. */
    method DequeueRxPacket(id: SessionId) returns (status: Status, packet: Option<Packet>)
      requires Valid()
      modifies this
      ensures Valid() && model == DropRx(old(model), id)
      ensures status == if Live(old(model), id) then Ok else Err(SessionNotFound(id))
      ensures packet == if Rx(old(model), id) == [] then None else Some(Rx(old(model), id)[0].packet)
    {
      var i := FindSession(id);
      if i == |sessions| {
        return Err(SessionNotFound(id)), None;
      }
      var slot := sessions[i].value;
      if slot.rxQueue == [] {
        return Ok, None;
      }
      packet := slot.rxQueue[0];
      assert RxSlots(model[i].rx[1..]) == slot.rxQueue[1..];
      Store(i, slot.(rxQueue := slot.rxQueue[1..]), model[i].(rx := model[i].rx[1..]));
      return Ok, packet;
    }

    method DequeueTxPacket(id: SessionId) returns (status: Status, packet: Option<Packet>)
      requires Valid()
      modifies this
      ensures Valid() && model == DropTx(old(model), id)
      ensures status == if Live(old(model), id) then Ok else Err(SessionNotFound(id))
      ensures packet == if Tx(old(model), id) == [] then None else Some(Tx(old(model), id)[0].packet)
    {
      var i := FindSession(id);
      if i == |sessions| {
        return Err(SessionNotFound(id)), None;
      }
      var slot := sessions[i].value;
      if slot.txQueue == [] {
        return Ok, None;
      }
      packet := slot.txQueue[0];
      assert TxSlots(model[i].tx[1..]) == slot.txQueue[1..];
      Store(i, slot.(txQueue := slot.txQueue[1..]), model[i].(tx := model[i].tx[1..]));
      return Ok, packet;
    }

    method HasPendingTxPackets(id: SessionId) returns (pending: bool)
      requires Valid()
      ensures pending <==> Tx(model, id) != []
    {
      var i := FindSession(id);
      return i < |sessions| && sessions[i].value.txQueue != [];
    }

    /** The ids of all sessions, in registry order. */
    method GetAllSessions() returns (ids: seq<SessionId>)
      requires Valid()
      ensures ids == Ids(model)
    {
      ids := [];
      for k := 0 to |sessions|
        invariant |ids| == k && forall i :: 0 <= i < k ==> ids[i] == model[i].id
      {
        if sessions[k].Some? && |ids| < lim.maxSessions {
          ids := ids + [sessions[k].value.id];
        }
      }
    }

    /** What is known about each expired session, in registry order. */
    method GetExpiredSessions(now: nat) returns (infos: seq<ExpirationInfo>)
      requires Valid()
      ensures infos == Infos(Filter(ExpiredAt(now), model), now)
    {
      infos := [];
      for k := 0 to |sessions|
        invariant infos == Infos(Filter(ExpiredAt(now), model[..k]), now)
      {
        FilterStep(ExpiredAt(now), model, k);
        if sessions[k].Some? {
          var s := sessions[k].value;
          var info := ExpirationInfo(s.id, now, s.lastActivity, s.keepAlive);
          if Expired(info.keepAlive, info.lastActivity, info.now) && |infos| < lim.maxSessions {
            infos := infos + [info];
          }
        }
      }
      assert model[..|model|] == model;
    }

    /** The ids of the sessions in state Disconnected, in registry order. */
    method GetDisconnectedSessions() returns (ids: seq<SessionId>)
      requires Valid()
      ensures ids == Ids(Filter(IsDisconnected, model))
    {
      ids := [];
      for k := 0 to |sessions|
        invariant ids == Ids(Filter(IsDisconnected, model[..k]))
      {
        FilterStep(IsDisconnected, model, k);
        if sessions[k].Some? && sessions[k].value.state.Disconnected? && |ids| < lim.maxSessions {
          ids := ids + [sessions[k].value.id];
        }
      }
      assert model[..|model|] == model;
    }
  }
}
