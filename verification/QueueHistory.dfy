/** Conservation: over a session's whole lifetime, what was handed to the client
    followed by what waits for it is everything ever queued for it, in order. */
module QueueHistory {
  import opened Basics
  import opened BrokerTypes
  import opened BrokerModel
  import opened BrokerInvariant
  import opened Runs
  import opened MessageOrder
  import Sessions = SessionModel

  /** Everything the handling of a list of packets queues for one session. */
  function FoldGain(lim: Limits, b: Broker, agenda: seq<(SessionId, Sessions.Inbound)>, id: SessionId)
    : seq<Sessions.Outbound>
    decreases |agenda|
  {
    if agenda == [] then []
    else
      var (from, item) := agenda[0];
      var b1 := b.(sessions := Sessions.DropRx(b.sessions, from));
      var step := Handle(lim, b1, from, item);
      Gain(lim, b1, from, item, id) + if step.status.Err? then [] else FoldGain(lim, step.b, agenda[1..], id)
  }

  /** One turn of the draining loop, seen by the result and by what it queues. */
  lemma {:induction false} Unroll(lim: Limits, b: Broker, id: SessionId)
    requires Inv(lim, b) && Agenda(b.sessions) != []
    ensures var step := Next(lim, b);
            && Process(lim, b).b == (if step.status.Err? then step.b else Process(lim, step.b).b)
            && FoldGain(lim, b, Agenda(b.sessions), id) ==
               NextGain(lim, b, id)
               + if step.status.Err? then [] else FoldGain(lim, step.b, Agenda(step.b.sessions), id)
  {
    FoldStep(lim, b);
  }

  lemma {:induction false} ProcessGain(lim: Limits, b: Broker, id: SessionId)
    requires Inv(lim, b)
    ensures Sessions.Tx(Process(lim, b).b.sessions, id) ==
            Sessions.Tx(b.sessions, id) + FoldGain(lim, b, Agenda(b.sessions), id)
    decreases |Agenda(b.sessions)|
  {
    if Agenda(b.sessions) != [] {
      var step := Next(lim, b);
      assert Sessions.Tx(step.b.sessions, id) == Sessions.Tx(b.sessions, id) + NextGain(lim, b, id) by {
        NextQueues(lim, b, id);
      }
      assert Inv(lim, step.b) && |Agenda(step.b.sessions)| < |Agenda(b.sessions)| by {
        FoldStep(lim, b);
      }
      Unroll(lim, b, id);
      if step.status.Ok? {
        ProcessGain(lim, step.b, id);
        Assoc(Sessions.Tx(b.sessions, id), NextGain(lim, b, id), FoldGain(lim, step.b, Agenda(step.b.sessions), id));
      }
    }
  }

  /** What one operation queues for a session: only draining queues anything. */
  function EmittedBy(lim: Limits, r: Run, op: Op, id: SessionId): seq<Sessions.Outbound> {
    if op.ProcessAll? then FoldGain(lim, r.b, Agenda(r.b.sessions), id) else []
  }

  function Emitted(lim: Limits, r: Run, ops: seq<Op>, id: SessionId): seq<Sessions.Outbound>
    decreases |ops|
  {
    if ops == [] then []
    else EmittedBy(lim, r, ops[0], id) + Emitted(lim, Apply(lim, r, ops[0]), ops[1..], id)
  }

  /** No operation of the run ends the session. */
  ghost predicate NeverRemoved(lim: Limits, r: Run, ops: seq<Op>, id: SessionId)
    decreases |ops|
  {
    ops != [] ==>
      var r1 := Apply(lim, r, ops[0]);
      && (Sessions.Live(r.b.sessions, id) ==> Sessions.Live(r1.b.sessions, id))
      && NeverRemoved(lim, r1, ops[1..], id)
  }

  lemma {:induction false} ProcessLog(lim: Limits, r: Run, id: SessionId)
    requires Inv(lim, r.b)
    ensures Log(Apply(lim, r, ProcessAll), id) == Log(r, id) + EmittedBy(lim, r, ProcessAll, id)
  {
    ProcessGain(lim, r.b, id);
    Assoc(Sent(r, id), Sessions.Tx(r.b.sessions, id), FoldGain(lim, r.b, Agenda(r.b.sessions), id));
  }

  lemma {:induction false} PurgeLog(r: Run, gone: set<SessionId>, id: SessionId)
    requires Sessions.UniqueIds(r.b.sessions)
    requires Sessions.Live(r.b.sessions, id) ==> Sessions.Live(Purge(r.b, gone).sessions, id)
    ensures Log(r.(b := Purge(r.b, gone)), id) == Log(r, id)
  {
    Sessions.WithoutFind(r.b.sessions, gone, id);
  }

  lemma {:induction false} OtherLog(lim: Limits, r: Run, op: Op, id: SessionId)
    requires Inv(lim, r.b) && !op.ProcessAll?
    requires Sessions.Live(r.b.sessions, id) ==> Sessions.Live(Apply(lim, r, op).b.sessions, id)
    ensures Log(Apply(lim, r, op), id) == Log(r, id)
  {
    match op
    case Register(_, _, _) => RegisterQueues(lim, r, op, id);
    case Disconnected(_) => SameQueuesSame(r.b.sessions, Apply(lim, r, op).b.sessions, id);
    case Remove(client) => PurgeLog(r, {client}, id);
    case Receive(_, _, _) => ReceiveQueues(lim, r, op, id);
    case Send(client) => SendKeepsLog(lim, r, client, id);
    case CleanupPass(now) => PurgeLog(r, Sessions.DoomedIds(r.b.sessions, now), id);
  }

  /** Whatever other sessions do, a session's log only ever grows by what is queued for
      it: nothing is lost, reordered, repeated or invented on the way to the client. */
  lemma {:induction false} LogIsEverythingQueued(lim: Limits, r: Run, ops: seq<Op>, id: SessionId)
    requires Inv(lim, r.b) && NeverRemoved(lim, r, ops, id)
    ensures Log(Exec(lim, r, ops), id) == Log(r, id) + Emitted(lim, r, ops, id)
    decreases |ops|
  {
    if ops != [] {
      var op, r1 := ops[0], Apply(lim, r, ops[0]);
      assert Inv(lim, r1.b) by {
        ApplyKeepsInv(lim, r, op);
      }
      assert Log(r1, id) == Log(r, id) + EmittedBy(lim, r, op, id) by {
        if op.ProcessAll? {
          ProcessLog(lim, r, id);
        } else {
          OtherLog(lim, r, op, id);
        }
      }
      LogIsEverythingQueued(lim, r1, ops[1..], id);
      Assoc(Log(r, id), EmittedBy(lim, r, op, id), Emitted(lim, r1, ops[1..], id));
    }
  }
}
