/** Sessions as values: what the session registry stands for. Packets carry the
    bookkeeping that the ordering results are stated with; no decision looks at it. */
module SessionModel {
  import opened Basics
  import opened BrokerTypes
  import opened Packets

  datatype SessionState = Connecting | Connected | Disconnected

  /** A packet received from a client: the n-th packet the broker accepted. */
  datatype Inbound = Inbound(packet: Packet, n: nat)

  /** A packet for a client, caused by the n-th accepted packet, which came from `from`. */
  datatype Outbound = Outbound(packet: Packet, from: SessionId, n: nat)

  datatype Session = Session(
    id: SessionId,
    clientId: Option<Bytes>,
    state: SessionState,
    keepAlive: u16,
    lastActivity: nat,
    rx: seq<Inbound>,
    tx: seq<Outbound>)

  /** Index of a session, or the length when there is none. */
  function Find(ss: seq<Session>, id: SessionId): (i: nat)
    ensures i <= |ss|
    ensures i < |ss| ==> ss[i].id == id
    ensures forall j :: 0 <= j < i ==> ss[j].id != id
  {
    if ss == [] || ss[0].id == id then 0 else 1 + Find(ss[1..], id)
  }

  predicate Live(ss: seq<Session>, id: SessionId) {
    Find(ss, id) < |ss|
  }

  ghost predicate UniqueIds(ss: seq<Session>) {
    forall i, j :: 0 <= i < j < |ss| ==> ss[i].id != ss[j].id
  }

  ghost predicate WellFormed(lim: Limits, ss: seq<Session>) {
    && |ss| <= lim.maxSessions
    && UniqueIds(ss)
    && (forall i :: 0 <= i < |ss| ==> |ss[i].rx| <= lim.queueSize && |ss[i].tx| <= lim.queueSize)
  }

  lemma {:induction false} FindAt(ss: seq<Session>, i: nat)
    requires UniqueIds(ss) && i < |ss|
    ensures Find(ss, ss[i].id) == i
  {
  }

  /** The search depends on the ids alone. */
  lemma {:induction false} FindSameIds(ss: seq<Session>, tt: seq<Session>, id: SessionId)
    requires |ss| == |tt| && forall i :: 0 <= i < |ss| ==> ss[i].id == tt[i].id
    ensures Find(ss, id) == Find(tt, id)
  {
  }

  function Register(lim: Limits, ss: seq<Session>, id: SessionId, keepAlive: u16, now: nat): (seq<Session>, Status) {
    if |ss| >= lim.maxSessions then (ss, Err(MaxSessionsReached))
    else if Live(ss, id) then (ss, Err(SessionAlreadyExists(id)))
    else (ss + [Session(id, None, Connecting, keepAlive, now, [], [])], Ok)
  }

  /** The registry without some sessions; the others keep their order and contents. */
  function Without(ss: seq<Session>, gone: set<SessionId>): seq<Session> {
    if ss == [] then []
    else
      var last := ss[|ss| - 1];
      Without(ss[..|ss| - 1], gone) + if last.id in gone then [] else [last]
  }

  function SetActivity(ss: seq<Session>, id: SessionId, now: nat): (seq<Session>, Status) {
    var i := Find(ss, id);
    if i < |ss| then (ss[i := ss[i].(lastActivity := now)], Ok) else (ss, Err(SessionNotFound(id)))
  }

  function SetState(ss: seq<Session>, id: SessionId, state: SessionState): (seq<Session>, Status) {
    var i := Find(ss, id);
    if i < |ss| then (ss[i := ss[i].(state := state)], Ok) else (ss, Err(SessionNotFound(id)))
  }

  function SetClientId(ss: seq<Session>, id: SessionId, clientId: Bytes): (seq<Session>, Status) {
    var i := Find(ss, id);
    if i < |ss| then (ss[i := ss[i].(clientId := Some(clientId))], Ok) else (ss, Err(SessionNotFound(id)))
  }

  function SetKeepAlive(ss: seq<Session>, id: SessionId, keepAlive: u16): (seq<Session>, Status) {
    var i := Find(ss, id);
    if i < |ss| then (ss[i := ss[i].(keepAlive := keepAlive)], Ok) else (ss, Err(SessionNotFound(id)))
  }

  function QueueRx(lim: Limits, ss: seq<Session>, id: SessionId, item: Inbound): (seq<Session>, Status) {
    var i := Find(ss, id);
    if i == |ss| then (ss, Err(SessionNotFound(id)))
    else if |ss[i].rx| >= lim.queueSize then (ss, Err(SessionQueueFull(id)))
    else (ss[i := ss[i].(rx := ss[i].rx + [item])], Ok)
  }

  function QueueTx(lim: Limits, ss: seq<Session>, id: SessionId, item: Outbound): (seq<Session>, Status) {
    var i := Find(ss, id);
    if i == |ss| then (ss, Err(SessionNotFound(id)))
    else if |ss[i].tx| >= lim.queueSize then (ss, Err(SessionQueueFull(id)))
    else (ss[i := ss[i].(tx := ss[i].tx + [item])], Ok)
  }

  /** The registry after the oldest received packet of a session has been taken. */
  function DropRx(ss: seq<Session>, id: SessionId): seq<Session> {
    var i := Find(ss, id);
    if i < |ss| && ss[i].rx != [] then ss[i := ss[i].(rx := ss[i].rx[1..])] else ss
  }

  /** The registry after the oldest packet waiting for a client has been taken. */
  function DropTx(ss: seq<Session>, id: SessionId): seq<Session> {
    var i := Find(ss, id);
    if i < |ss| && ss[i].tx != [] then ss[i := ss[i].(tx := ss[i].tx[1..])] else ss
  }

  /** The packets waiting for a client; none when there is no such session. */
  function Tx(ss: seq<Session>, id: SessionId): seq<Outbound> {
    var i := Find(ss, id);
    if i < |ss| then ss[i].tx else []
  }

  /** The packets received from a client and not handled yet. */
  function Rx(ss: seq<Session>, id: SessionId): seq<Inbound> {
    var i := Find(ss, id);
    if i < |ss| then ss[i].rx else []
  }

  const NANOS_PER_SECOND: nat := 1_000_000_000

  /** `is_expired`: the elapsed time saturates at zero, the timeout is a whole number
      of seconds, and a keep-alive of zero switches the mechanism off. */
  predicate Expired(keepAlive: u16, lastActivity: nat, now: nat) {
    var timeout := keepAlive * 3 / 2 * NANOS_PER_SECOND;
    var elapsed := if now < lastActivity then 0 else now - lastActivity;
    keepAlive != 0 && elapsed > timeout
  }

  /** Section 3.1.2.10: a client heard from within its keep-alive is never expired, one
      silent for more than one and a half times as long always is, zero never expires. */
  lemma {:induction false} ExpiryBounds(keepAlive: u16, lastActivity: nat, now: nat)
    ensures now - lastActivity <= keepAlive * NANOS_PER_SECOND ==> !Expired(keepAlive, lastActivity, now)
    ensures keepAlive > 0 && 2 * (now - lastActivity) > 3 * keepAlive * NANOS_PER_SECOND
            ==> Expired(keepAlive, lastActivity, now)
    ensures keepAlive == 0 ==> !Expired(keepAlive, lastActivity, now)
  {
    var seconds := keepAlive * 3 / 2;
    assert keepAlive > 0 ==> keepAlive <= seconds;
    assert 2 * seconds <= 3 * keepAlive;
  }

  /** The exact threshold: one and a half times the keep-alive, in whole seconds. */
  lemma {:induction false} ExpiredIff(keepAlive: u16, lastActivity: nat, now: nat)
    ensures Expired(keepAlive, lastActivity, now) <==>
            keepAlive > 0 && now - lastActivity > (keepAlive + keepAlive / 2) * 1_000_000_000
  {
    assert keepAlive * 3 / 2 == keepAlive + keepAlive / 2;
  }

  datatype ExpirationInfo = ExpirationInfo(id: SessionId, now: nat, lastActivity: nat, keepAlive: u16)

  function ExpiredAt(now: nat): Session -> bool {
    (s: Session) => Expired(s.keepAlive, s.lastActivity, now)
  }

  predicate HasPending(s: Session) {
    s.tx != []
  }

  predicate IsDisconnected(s: Session) {
    s.state.Disconnected?
  }

  function Ids(ss: seq<Session>): (r: seq<SessionId>)
    ensures |r| == |ss| && forall i :: 0 <= i < |ss| ==> r[i] == ss[i].id
  {
    seq(|ss|, i requires 0 <= i < |ss| => ss[i].id)
  }

  function Infos(ss: seq<Session>, now: nat): (r: seq<ExpirationInfo>)
    ensures |r| == |ss|
    ensures forall i :: 0 <= i < |ss| ==> r[i] == ExpirationInfo(ss[i].id, now, ss[i].lastActivity, ss[i].keepAlive)
  {
    seq(|ss|, i requires 0 <= i < |ss| => ExpirationInfo(ss[i].id, now, ss[i].lastActivity, ss[i].keepAlive))
  }

  function InfoIds(infos: seq<ExpirationInfo>): (r: seq<SessionId>)
    ensures |r| == |infos| && forall i :: 0 <= i < |infos| ==> r[i] == infos[i].id
  {
    seq(|infos|, i requires 0 <= i < |infos| => infos[i].id)
  }

  /** A filtered registry holds exactly the chosen sessions, each once and in registry
      order. */
  lemma {:induction false} FilteredSessions(keep: Session -> bool, ss: seq<Session>, s: Session)
    ensures s in Filter(keep, ss) <==> s in ss && keep(s)
  {
    if ss != [] {
      FilteredSessions(keep, ss[..|ss| - 1], s);
      InitLast(ss);
    }
  }

  lemma {:induction false} FilteredInOrder(keep: Session -> bool, ss: seq<Session>, i: nat, j: nat)
    requires UniqueIds(ss) && i < j < |Filter(keep, ss)|
    ensures var f := Filter(keep, ss); Find(ss, f[i].id) < Find(ss, f[j].id) < |ss|
  {
    var init, last, f := ss[..|ss| - 1], ss[|ss| - 1], Filter(keep, ss);
    var g := Filter(keep, init);
    InitLast(ss);
    FindSnoc(init, last, f[i].id);
    FindSnoc(init, last, f[j].id);
    if j < |g| {
      FilteredInOrder(keep, init, i, j);
    } else {
      FindAt(ss, |ss| - 1);
      MemberIsLive(init, g[i]);
    }
  }

  lemma {:induction false} MemberIsLive(ss: seq<Session>, s: Session)
    requires s in ss
    ensures Live(ss, s.id)
  {
  }

  /** The ids of the sessions with packets to be sent, each once. */
  lemma {:induction false} PendingIds(ss: seq<Session>)
    requires UniqueIds(ss)
    ensures var ids := Ids(Filter(HasPending, ss));
            NoDup(ids) && forall x :: x in ids <==> Tx(ss, x) != []
  {
    var f := Filter(HasPending, ss);
    var ids := Ids(f);
    forall i, j | 0 <= i < j < |ids|
      ensures ids[i] != ids[j]
    {
      FilteredInOrder(HasPending, ss, i, j);
    }
    forall x | x in ids
      ensures Tx(ss, x) != []
    {
      var i :| 0 <= i < |ids| && ids[i] == x;
      FilteredSessions(HasPending, ss, f[i]);
      var k :| 0 <= k < |ss| && ss[k] == f[i];
      FindAt(ss, k);
    }
    forall x | Tx(ss, x) != []
      ensures x in ids
    {
      var s := ss[Find(ss, x)];
      FilteredSessions(HasPending, ss, s);
      var k :| 0 <= k < |f| && f[k] == s;
      assert ids[k] == x;
    }
  }

  /** What the cleanup pass removes. */
  predicate Doomed(s: Session, now: nat) {
    Expired(s.keepAlive, s.lastActivity, now) || s.state.Disconnected?
  }

  function DoomedIds(ss: seq<Session>, now: nat): set<SessionId> {
    set s | s in ss && Doomed(s, now) :: s.id
  }

  /** Same sessions with the same received packets. */
  ghost predicate SameRx(ss: seq<Session>, tt: seq<Session>) {
    |ss| == |tt| && forall i :: 0 <= i < |ss| ==> ss[i].id == tt[i].id && ss[i].rx == tt[i].rx
  }

  /** Same sessions up to the packets waiting to be sent. */
  ghost predicate SameButTx(ss: seq<Session>, tt: seq<Session>) {
    |ss| == |tt| && forall i :: 0 <= i < |ss| ==> tt[i] == ss[i].(tx := tt[i].tx)
  }

  lemma {:induction false} WithoutUnlisted(ss: seq<Session>, gone: set<SessionId>, id: SessionId)
    requires !Live(ss, id)
    ensures !Live(Without(ss, gone), id)
  {
    if ss != [] {
      var init, last := ss[..|ss| - 1], ss[|ss| - 1];
      assert forall i :: 0 <= i < |init| ==> init[i] == ss[i];
      WithoutUnlisted(init, gone, id);
    }
  }

  lemma {:induction false} FindSnoc(ss: seq<Session>, s: Session, id: SessionId)
    ensures Find(ss + [s], id) == if Live(ss, id) then Find(ss, id) else if s.id == id then |ss| else |ss| + 1
  {
    var i, tt := Find(ss, id), ss + [s];
    assert forall j :: 0 <= j < |ss| ==> tt[j] == ss[j];
    assert i < |ss| ==> tt[i].id == id;
    assert tt[|ss|] == s;
  }

  /** Survivors are found with everything they had; the others are gone. */
  lemma {:induction false} WithoutFind(ss: seq<Session>, gone: set<SessionId>, id: SessionId)
    requires UniqueIds(ss)
    ensures Live(Without(ss, gone), id) <==> Live(ss, id) && id !in gone
    ensures Live(ss, id) && id !in gone ==>
              Without(ss, gone)[Find(Without(ss, gone), id)] == ss[Find(ss, id)]
  {
    if ss != [] {
      var init, last := ss[..|ss| - 1], ss[|ss| - 1];
      InitLast(ss);
      WithoutFind(init, gone, id);
      FindSnoc(init, last, id);
      FindSnoc(Without(init, gone), last, id);
      assert Without(init, gone) + [] == Without(init, gone);
    }
  }

  lemma {:induction false} WithoutKeepsWellFormed(lim: Limits, ss: seq<Session>, gone: set<SessionId>)
    requires WellFormed(lim, ss)
    ensures WellFormed(lim, Without(ss, gone)) && |Without(ss, gone)| <= |ss|
  {
    if ss != [] {
      var init, last := ss[..|ss| - 1], ss[|ss| - 1];
      WithoutKeepsWellFormed(lim, init, gone);
      WithoutUnlisted(init, gone, last.id);
      var r := Without(init, gone);
      assert forall i :: 0 <= i < |r| ==> r[i].id != last.id;
    }
  }

  lemma {:induction false} WithoutCompose(ss: seq<Session>, a: set<SessionId>, b: set<SessionId>)
    ensures Without(Without(ss, a), b) == Without(ss, a + b)
  {
    if ss != [] {
      var w, last := Without(ss[..|ss| - 1], a), ss[|ss| - 1];
      WithoutCompose(ss[..|ss| - 1], a, b);
      assert (w + [last])[..|w|] == w;
      assert w + [] == w;
    }
  }

  lemma {:induction false} WithoutKeepsOrder(ss: seq<Session>, gone: set<SessionId>, i: nat, j: nat)
    requires UniqueIds(ss) && i < j < |Without(ss, gone)|
    ensures var tt := Without(ss, gone); Find(ss, tt[i].id) < Find(ss, tt[j].id) < |ss|
  {
    var init, last, tt := ss[..|ss| - 1], ss[|ss| - 1], Without(ss, gone);
    var r := Without(init, gone);
    InitLast(ss);
    FindSnoc(init, last, tt[i].id);
    FindSnoc(init, last, tt[j].id);
    if j < |r| {
      WithoutKeepsOrder(init, gone, i, j);
    } else {
      assert tt[j] == last;
      FindAt(ss, |ss| - 1);
      assert tt[i] == r[i];
      WithoutMember(init, gone, i);
    }
  }

  lemma {:induction false} WithoutMember(ss: seq<Session>, gone: set<SessionId>, i: nat)
    requires i < |Without(ss, gone)|
    ensures Without(ss, gone)[i] in ss && Live(ss, Without(ss, gone)[i].id)
  {
    var init := ss[..|ss| - 1];
    InitLast(ss);
    if i < |Without(init, gone)| {
      WithoutMember(init, gone, i);
      FindSnoc(init, ss[|ss| - 1], Without(ss, gone)[i].id);
    } else {
      FindSnoc(init, ss[|ss| - 1], Without(ss, gone)[i].id);
    }
  }

  lemma {:induction false} WithoutSnoc(ss: seq<Session>, s: Session, gone: set<SessionId>)
    ensures Without(ss + [s], gone) == Without(ss, gone) + if s.id in gone then [] else [s]
  {
    assert (ss + [s])[..|ss|] == ss;
  }

  lemma {:induction false} WithoutNobody(ss: seq<Session>)
    ensures Without(ss, {}) == ss
  {
    if ss != [] {
      var init, last := ss[..|ss| - 1], ss[|ss| - 1];
      WithoutNobody(init);
      InitLast(ss);
      WithoutSnoc(init, last, {});
    }
  }

  lemma {:induction false} WithoutMembers(ss: seq<Session>, gone: set<SessionId>)
    ensures forall s :: s in Without(ss, gone) <==> s in ss && s.id !in gone
  {
    if ss != [] {
      var init, last := ss[..|ss| - 1], ss[|ss| - 1];
      WithoutMembers(init, gone);
      InitLast(ss);
    }
  }

  lemma {:induction false} WithoutNone(ss: seq<Session>, id: SessionId)
    requires forall i :: 0 <= i < |ss| ==> ss[i].id != id
    ensures Without(ss, {id}) == ss
  {
    if ss != [] {
      var init, last := ss[..|ss| - 1], ss[|ss| - 1];
      WithoutNone(init, id);
      InitLast(ss);
      WithoutSnoc(init, last, {id});
    }
  }

  /** Removing one session by position is removing it by id. */
  lemma {:induction false} WithoutAt(ss: seq<Session>, i: nat)
    requires UniqueIds(ss) && i < |ss|
    ensures Without(ss, {ss[i].id}) == ss[..i] + ss[i + 1..]
  {
    var init, last := ss[..|ss| - 1], ss[|ss| - 1];
    var id := ss[i].id;
    InitLast(ss);
    WithoutSnoc(init, last, {id});
    if i == |init| {
      WithoutNone(init, id);
      assert ss[i + 1..] == [];
    } else {
      assert init[i] == ss[i];
      WithoutAt(init, i);
      DeleteBeforeLast(ss, i);
    }
  }
}
