/** Cutting packets out of a byte stream that arrives in pieces. */
module Framing {
  import opened Basics
  import opened Packets
  import opened WireFormat
  import opened RoundTrip
  import Length = RemainingLength

  datatype Outcome = EndOfStream | Got(packet: Packet) | Rejected(error: ProtocolError)

  /** What one read from the socket delivers; reading nothing means the end. */
  type Piece = p: Bytes | p != [] witness [0]

  /** What a reader holds: bytes it has, and the pieces still to arrive. */
  datatype Input = Input(buffer: Bytes, pieces: seq<Piece>)

  function Concat(pieces: seq<Piece>): Bytes {
    if pieces == [] then [] else pieces[0] + Concat(pieces[1..])
  }

  /** All bytes that are here or will arrive. */
  function Stream(i: Input): Bytes {
    i.buffer + Concat(i.pieces)
  }

  /** One read from the socket. */
  function Advance(i: Input): Input
    requires i.pieces != []
  {
    Input(i.buffer + i.pieces[0], i.pieces[1..])
  }

  /** Waits until the buffer holds n bytes or the stream has ended. */
  function Fill(i: Input, n: nat): Input
    decreases |i.pieces|
  {
    if |i.buffer| >= n || i.pieces == [] then i else Fill(Advance(i), n)
  }

  /** The second half of `read_packet`: wait for the whole frame, decode it, advance. */
  function Finish(build: Build, j: Input, total: nat): (Outcome, Input) {
    var k := Fill(j, total);
    if |k.buffer| < total then (Rejected(IncompletePacket), k)
    else
      match Decode(build, k.buffer[..total])
      case Failure(e) => (Rejected(e), k)
      case Success(p) => (Got(p), k.(buffer := k.buffer[total..]))
  }

  /** One call of `read_packet`. The length is parsed as soon as two bytes are there. */
  function ReadOne(build: Build, i: Input): (Outcome, Input) {
    var j := Fill(i, 2);
    if |j.buffer| < 2 then (EndOfStream, j)
    else
      match Length.Parse(j.buffer)
      case Incomplete => (Rejected(IncompletePacket), j)
      case Malformed => (Rejected(InvalidPacketLength), j)
      case Length(value, size) => Finish(build, j, 1 + size + value)
  }

  /** The buffer holds a whole length field, for a frame of `total` bytes. */
  predicate Announces(buffer: Bytes, total: nat) {
    && buffer != []
    && Length.Parse(buffer).Length?
    && total == 1 + Length.Parse(buffer).size + Length.Parse(buffer).value
  }

  lemma {:induction false} FillExtends(i: Input, n: nat)
    ensures i.buffer <= Fill(i, n).buffer
    ensures i.pieces == [] ==> Fill(i, n) == i
    decreases |i.pieces|
  {
    if |i.buffer| < n && i.pieces != [] {
      FillExtends(Advance(i), n);
    }
  }

  /** Cutting at the announced length gives an exact frame of that length. */
  lemma {:induction false} SliceIsFramed(j: Input, total: nat)
    requires Announces(j.buffer, total) && |Fill(j, total).buffer| >= total
    ensures var slice := Fill(j, total).buffer[..total];
            && Framed(slice) && slice[0] == j.buffer[0]
            && |BodyOf(slice)| == Length.Parse(j.buffer).value
  {
    FillExtends(j, total);
    var slice := Fill(j, total).buffer[..total];
    var s, t, k := j.buffer[1..], slice[1..], Length.Parse(j.buffer).size;
    assert forall i :: 0 <= i < k ==> t[i] == slice[i + 1] == j.buffer[i + 1] == s[i];
    assert Length.Terminator(s) == k - 1;
    assert t[k - 1] == s[k - 1];
    assert Length.Terminator(t) == k - 1;
    assert t[..k] == s[..k];
  }

  lemma {:induction false} FillKeepsStream(i: Input, n: nat)
    ensures Stream(Fill(i, n)) == Stream(i)
    ensures |Fill(i, n).buffer| < n ==> Fill(i, n).pieces == [] && Fill(i, n).buffer == Stream(i)
    ensures |i.buffer| <= |Fill(i, n).buffer|
    decreases |i.pieces|
  {
    if |i.buffer| < n && i.pieces != [] {
      FillKeepsStream(Advance(i), n);
      Assoc(i.buffer, i.pieces[0], Concat(i.pieces[1..]));
    } else if i.pieces == [] {
      assert i.buffer + [] == i.buffer;
    }
  }

  /** The buffer is a prefix of the stream. */
  lemma {:induction false} BufferIsPrefix(i: Input, n: nat)
    requires n <= |i.buffer|
    ensures n <= |Stream(i)| && Stream(i)[..n] == i.buffer[..n]
  {
  }

  /** On a buffer that starts with an exact frame's header, the length is the frame's;
      on a buffer that stops inside the length, it is incomplete. */
  lemma {:induction false} ParsePrefix(frame: Bytes, buffer: Bytes, rest: Bytes)
    requires Framed(frame) && |buffer| >= 2 && buffer <= frame + rest
    ensures var r := Length.Read(frame[1..]);
            Length.Parse(buffer) == if |buffer| >= 1 + r.size then r else Length.Incomplete
  {
    var s, t, r := frame[1..], buffer[1..], Length.Read(frame[1..]);
    var all := frame + rest;
    assert all[1..] == s + rest;
    assert forall i :: 0 <= i < |t| && i < |s| ==> t[i] == buffer[i + 1] == all[i + 1] == s[i];
    var k := r.size;
    assert Length.Terminator(s) == k - 1;
    if |buffer| >= 1 + k {
      assert t[k - 1] == s[k - 1];
      assert Length.Terminator(t) == k - 1;
      assert t[..k] == s[..k];
    } else {
      assert Length.Terminator(t) == |t| < 4;
    }
  }

  /** Whether the length field of a frame with this body is complete once two bytes of
      input are there. */
  ghost predicate LengthArrivesWhole(i: Input, body: Bytes) {
    |Fill(i, 2).buffer| >= 1 + Length.Size(|body|)
  }

  /** Once the length is known, the frame is read however the rest is cut. */
  lemma {:induction false} FinishExact(build: Build, j: Input, p: Packet, rest: Bytes)
    requires build.Ok() && PacketOk(build, p) && Stream(j) == Frame(p) + rest
    requires Announces(j.buffer, |Frame(p)|)
    ensures var (outcome, after) := Finish(build, j, |Frame(p)|); outcome == Got(p) && Stream(after) == rest
  {
    var frame := Frame(p);
    var k := Fill(j, |frame|);
    FrameRoundTrip(build, p, []);
    assert frame + [] == frame;
    FillKeepsStream(j, |frame|);
    BufferIsPrefix(k, |frame|);
    assert (frame + rest)[..|frame|] == frame;
    TailAfter(k.buffer, Concat(k.pieces), frame, rest);
  }

  /** Up to the length: either it is there and the second half follows, or the reader
      gives up. */
  lemma {:induction false} ReadLengthExact(build: Build, i: Input, frame: Bytes, rest: Bytes)
    requires Framed(frame) && Stream(i) == frame + rest
    ensures var j := Fill(i, 2);
            && Stream(j) == frame + rest
            && if |j.buffer| >= BodyStart(frame)
               then Announces(j.buffer, |frame|) && ReadOne(build, i) == Finish(build, j, |frame|)
               else ReadOne(build, i) == (Rejected(IncompletePacket), j)
  {
    var j := Fill(i, 2);
    FillKeepsStream(i, 2);
    assert j.buffer <= Stream(j);
    ParsePrefix(frame, j.buffer, rest);
  }

  /** Reading a frame at the front of the stream, however it is cut into pieces,
      returns its packet and leaves exactly what follows, if and only if the first two
      bytes arrive together with the rest of the length field. Otherwise the reader
      reports an incomplete packet although the bytes are on their way. */
  lemma {:induction false} ReadOneExact(build: Build, i: Input, p: Packet, rest: Bytes)
    requires build.Ok() && PacketOk(build, p) && Stream(i) == Frame(p) + rest
    ensures var (outcome, after) := ReadOne(build, i);
            if LengthArrivesWhole(i, Body(p))
            then outcome == Got(p) && Stream(after) == rest
            else outcome == Rejected(IncompletePacket)
  {
    FrameIsFramed(build, p);
    ReadLengthExact(build, i, Frame(p), rest);
    if LengthArrivesWhole(i, Body(p)) {
      FinishExact(build, Fill(i, 2), p, rest);
    }
  }

  lemma {:induction false} TailAfter(a: Bytes, b: Bytes, frame: Bytes, rest: Bytes)
    requires a + b == frame + rest && |a| >= |frame|
    ensures a[|frame|..] + b == rest
  {
    assert (a + b)[|frame|..] == a[|frame|..] + b;
    assert (frame + rest)[|frame|..] == rest;
  }

  /** Every length arrives whole when the stream is already buffered. */
  lemma {:induction false} BufferedLengthsArriveWhole(build: Build, i: Input, p: Packet, rest: Bytes)
    requires build.Ok() && PacketOk(build, p) && Stream(i) == Frame(p) + rest && i.pieces == []
    ensures LengthArrivesWhole(i, Body(p))
  {
    FrameIsFramed(build, p);
    assert i.buffer + [] == i.buffer;
  }

  /** Frames are a prefix code: a stream starts with at most one of them. */
  lemma {:induction false} PrefixFree(build: Build, p: Packet, q: Packet, x: Bytes, y: Bytes)
    requires build.Ok() && PacketOk(build, p) && PacketOk(build, q)
    requires Frame(p) + x == Frame(q) + y
    ensures p == q && x == y
  {
    var i := Input(Frame(p) + x, []);
    assert Stream(i) == Frame(p) + x;
    BufferedLengthsArriveWhole(build, i, p, x);
    BufferedLengthsArriveWhole(build, i, q, y);
    ReadOneExact(build, i, p, x);
    ReadOneExact(build, i, q, y);
  }

  predicate Panicked(outcome: Outcome) {
    outcome.Rejected? && IsPanic(outcome.error)
  }

  /** What arrives with the first two bytes announces a frame that the stream holds, of a
      kind of fixed size and with a length that alone exceeds it. */
  predicate Fatal(i: Input) {
    var j := Fill(i, 2);
    && |j.buffer| >= 2 && Length.Parse(j.buffer).Length?
    && var Length(n, size) := Length.Parse(j.buffer);
       TooLongFor(j.buffer[0] / 16, n) && |Stream(i)| >= 1 + size + n
  }

  lemma {:induction false} FinishPanicsIff(build: Build, j: Input, total: nat)
    requires Announces(j.buffer, total)
    ensures Panicked(Finish(build, j, total).0) <==>
            build.overflowChecks && TooLongFor(j.buffer[0] / 16, Length.Parse(j.buffer).value) && |Stream(j)| >= total
  {
    var k := Fill(j, total);
    FillKeepsStream(j, total);
    if |k.buffer| >= total {
      var slice := k.buffer[..total];
      SliceIsFramed(j, total);
      FramedPanicsIff(build, slice);
      assert |Stream(k)| >= total;
    }
  }

  /** Exactly the inputs on which reading a packet makes the code panic: none without
      overflow checks. */
  lemma {:induction false} ReadOnePanicsIff(build: Build, i: Input)
    ensures Panicked(ReadOne(build, i).0) <==> build.overflowChecks && Fatal(i)
  {
    var j := Fill(i, 2);
    FillKeepsStream(i, 2);
    if |j.buffer| >= 2 && Length.Parse(j.buffer).Length? {
      var total := 1 + Length.Parse(j.buffer).size + Length.Parse(j.buffer).value;
      ReadOneIsFinish(build, i, total);
      FinishPanicsIff(build, j, total);
    } else {
      ReadOneGivesUp(build, i);
    }
  }

  lemma {:induction false} ReadOneIsFinish(build: Build, i: Input, total: nat)
    requires |Fill(i, 2).buffer| >= 2 && Announces(Fill(i, 2).buffer, total)
    ensures ReadOne(build, i) == Finish(build, Fill(i, 2), total)
  {
  }

  lemma {:induction false} ReadOneGivesUp(build: Build, i: Input)
    requires |Fill(i, 2).buffer| >= 2 ==> !Length.Parse(Fill(i, 2).buffer).Length?
    ensures !ReadOne(build, i).0.Got? && !Panicked(ReadOne(build, i).0)
  {
  }

  // ---------- where the stream is cut ----------

  /** A boundary lies in front of byte x of the stream: the end of the buffer, or the
      end of a piece. */
  predicate CutAt(i: Input, x: nat)
    decreases |i.pieces|
  {
    x == |i.buffer| || (i.pieces != [] && CutAt(Advance(i), x))
  }

  lemma {:induction false} CutsFollowBuffer(i: Input, x: nat)
    requires CutAt(i, x)
    ensures |i.buffer| <= x
    decreases |i.pieces|
  {
    if x != |i.buffer| {
      CutsFollowBuffer(Advance(i), x);
    }
  }

  /** Waiting for n bytes goes on to the first cut from n on, and no further. */
  lemma {:induction false} FillStopsAtCut(i: Input, n: nat, x: nat)
    ensures var j := Fill(i, n);
            && CutAt(i, |j.buffer|)
            && (CutAt(i, x) && x >= n ==> x >= |j.buffer|)
            && (CutAt(j, x) <==> CutAt(i, x) && x >= |j.buffer|)
    decreases |i.pieces|
  {
    if |i.buffer| < n && i.pieces != [] {
      FillStopsAtCut(Advance(i), n, x);
      FillExtends(Advance(i), n);
    } else if CutAt(i, x) {
      CutsFollowBuffer(i, x);
    }
  }

  /** Dropping bytes from the front shifts the cuts. */
  lemma {:induction false} CutShift(i: Input, t: nat, x: nat)
    requires t <= |i.buffer|
    ensures CutAt(i.(buffer := i.buffer[t..]), x) <==> CutAt(i, x + t)
    decreases |i.pieces|
  {
    if i.pieces != [] {
      var d := i.(buffer := i.buffer[t..]);
      CutShift(Advance(i), t, x);
      assert Advance(d).buffer == Advance(i).buffer[t..];
    }
  }

  /** The length field, of k bytes, of a frame at offset o is not cut behind its first
      byte. */
  ghost predicate LengthUncut(i: Input, o: nat, k: nat) {
    forall x :: o + 2 <= x <= o + k ==> !CutAt(i, x)
  }

  /** The length arrives whole exactly when no cut lies within it behind its first byte. */
  lemma {:induction false} ArrivesWholeIffUncut(i: Input, body: Bytes)
    requires |Stream(i)| >= 2
    ensures LengthArrivesWhole(i, body) <==> LengthUncut(i, 0, Length.Size(|body|))
  {
    var n := |Fill(i, 2).buffer|;
    FillKeepsStream(i, 2);
    FillStopsAtCut(i, 2, n);
    if LengthArrivesWhole(i, body) {
      forall x | 2 <= x <= Length.Size(|body|)
        ensures !CutAt(i, x)
      {
        FillStopsAtCut(i, 2, x);
      }
    }
  }

  /** What is left after taking the first `total` bytes, waiting in two steps. */
  function Rest(i: Input, total: nat): Input
    requires |Fill(Fill(i, 2), total).buffer| >= total
  {
    var k := Fill(Fill(i, 2), total);
    k.(buffer := k.buffer[total..])
  }

  lemma {:induction false} CutsOfRest(i: Input, total: nat, x: nat)
    requires total >= 2 && |Fill(Fill(i, 2), total).buffer| >= total
    ensures CutAt(Rest(i, total), x) <==> CutAt(i, x + total)
  {
    var j := Fill(i, 2);
    CutShift(Fill(j, total), total, x);
    FillStopsAtCut(i, 2, x + total);
    FillStopsAtCut(j, total, x + total);
  }

  lemma {:induction false} FinishLeaves(build: Build, i: Input, total: nat)
    requires Finish(build, Fill(i, 2), total).0.Got?
    ensures |Fill(Fill(i, 2), total).buffer| >= total
    ensures Finish(build, Fill(i, 2), total).1 == Rest(i, total)
  {
  }

  /** A packet that was read is gone from the front. */
  lemma {:induction false} ReadOneLeaves(build: Build, i: Input, p: Packet, rest: Bytes)
    requires build.Ok() && PacketOk(build, p) && Stream(i) == Frame(p) + rest && LengthArrivesWhole(i, Body(p))
    ensures |Frame(p)| >= 2 && |Fill(Fill(i, 2), |Frame(p)|).buffer| >= |Frame(p)|
    ensures ReadOne(build, i).1 == Rest(i, |Frame(p)|)
  {
    FrameIsFramed(build, p);
    ReadLengthExact(build, i, Frame(p), rest);
    FinishExact(build, Fill(i, 2), p, rest);
    FinishLeaves(build, i, |Frame(p)|);
  }

  // ---------- reading packet after packet ----------

  function Frames(ps: seq<Packet>): Bytes {
    if ps == [] then [] else Frame(ps[0]) + Frames(ps[1..])
  }

  /** Where the m-th frame starts. */
  function Offset(ps: seq<Packet>, m: nat): nat
    requires m <= |ps|
  {
    |Frames(ps[..m])|
  }

  /** The length field of the m-th frame is not cut behind its first byte. */
  ghost predicate SafeAt(i: Input, ps: seq<Packet>, m: nat)
    requires m < |ps|
  {
    LengthUncut(i, Offset(ps, m), Length.Size(|Body(ps[m])|))
  }

  ghost predicate AllOk(build: Build, ps: seq<Packet>) {
    build.Ok() && forall m :: 0 <= m < |ps| ==> PacketOk(build, ps[m])
  }

  lemma {:induction false} ReadOneConsumes(build: Build, i: Input)
    requires ReadOne(build, i).0.Got?
    ensures |Stream(ReadOne(build, i).1)| < |Stream(i)|
  {
    var j := Fill(i, 2);
    var total := 1 + Length.Parse(j.buffer).size + Length.Parse(j.buffer).value;
    FillKeepsStream(i, 2);
    FillKeepsStream(j, total);
  }

  /** Reads packets until something else comes, as a connection handler does: all
      packets read, and what ended the reading. */
  function ReadList(build: Build, i: Input): (seq<Packet>, Outcome)
    decreases |Stream(i)|
  {
    var (outcome, after) := ReadOne(build, i);
    if !outcome.Got? then ([], outcome)
    else
      ReadOneConsumes(build, i);
      var (packets, last) := ReadList(build, after);
      ([outcome.packet] + packets, last)
  }

  lemma {:induction false} OffsetStep(ps: seq<Packet>, m: nat)
    requires m < |ps|
    ensures Offset(ps, m + 1) == |Frame(ps[0])| + Offset(ps[1..], m)
  {
    assert ps[..m + 1][1..] == ps[1..][..m];
  }

  /** The first of several frames: it is read if it is safe, and then the others are as
      safe as before. */
  lemma {:induction false} ReadFirst(build: Build, i: Input, ps: seq<Packet>)
    requires AllOk(build, ps) && ps != [] && Stream(i) == Frames(ps)
    ensures var (outcome, after) := ReadOne(build, i);
            if SafeAt(i, ps, 0)
            then outcome == Got(ps[0]) && Stream(after) == Frames(ps[1..])
                 && forall m :: 0 <= m < |ps| - 1 ==> (SafeAt(after, ps[1..], m) <==> SafeAt(i, ps, m + 1))
            else outcome == Rejected(IncompletePacket)
  {
    var p, rest, after := ps[0], Frames(ps[1..]), ReadOne(build, i).1;
    FrameIsFramed(build, p);
    assert ps[..0] == [];
    ArrivesWholeIffUncut(i, Body(p));
    ReadOneExact(build, i, p, rest);
    if SafeAt(i, ps, 0) {
      forall m | 0 <= m < |ps| - 1
        ensures SafeAt(after, ps[1..], m) <==> SafeAt(i, ps, m + 1)
      {
        OffsetStep(ps, m);
        UncutAfterRead(build, i, p, rest, Offset(ps[1..], m), Length.Size(|Body(ps[m + 1])|));
      }
    }
  }

  lemma {:induction false} UncutAfterRead(build: Build, i: Input, p: Packet, rest: Bytes, o: nat, k: nat)
    requires build.Ok() && PacketOk(build, p) && Stream(i) == Frame(p) + rest && LengthArrivesWhole(i, Body(p))
    ensures LengthUncut(ReadOne(build, i).1, o, k) <==> LengthUncut(i, |Frame(p)| + o, k)
  {
    var n, after := |Frame(p)|, ReadOne(build, i).1;
    ReadOneLeaves(build, i, p, rest);
    forall x: nat
      ensures CutAt(after, x) <==> CutAt(i, x + n)
    {
      CutsOfRest(i, n, x);
    }
    if LengthUncut(after, o, k) {
      forall x | n + o + 2 <= x <= n + o + k
        ensures !CutAt(i, x)
      {
        assert !CutAt(after, x - n);
      }
    }
  }

  /** The first `m` frames are safe. */
  ghost predicate SafeUpTo(i: Input, ps: seq<Packet>, m: nat)
    requires m <= |ps|
  {
    m > 0 ==> SafeUpTo(i, ps, m - 1) && SafeAt(i, ps, m - 1)
  }

  lemma {:induction false} SafeUpToAt(i: Input, ps: seq<Packet>, m: nat, l: nat)
    requires l < m <= |ps| && SafeUpTo(i, ps, m)
    ensures SafeAt(i, ps, l)
  {
    if l < m - 1 {
      SafeUpToAt(i, ps, m - 1, l);
    }
  }

  lemma {:induction false} SafeAfterFirst(build: Build, i: Input, ps: seq<Packet>, m: nat)
    requires AllOk(build, ps) && Stream(i) == Frames(ps) && 0 < m <= |ps| && SafeUpTo(i, ps, m)
    ensures var (outcome, after) := ReadOne(build, i);
            && outcome == Got(ps[0])
            && Stream(after) == Frames(ps[1..])
            && SafeUpTo(after, ps[1..], m - 1)
            && (m < |ps| ==> (SafeAt(after, ps[1..], m - 1) <==> SafeAt(i, ps, m)))
    decreases m
  {
    SafeUpToAt(i, ps, m, 0);
    ReadFirst(build, i, ps);
    if m > 1 {
      SafeAfterFirst(build, i, ps, m - 1);
    }
  }

  lemma {:induction false} ReadListStep(build: Build, i: Input, p: Packet, after: Input)
    requires ReadOne(build, i) == (Got(p), after)
    ensures ReadList(build, i) == ([p] + ReadList(build, after).0, ReadList(build, after).1)
  {
  }

  lemma {:induction false} ReadNothing(build: Build, i: Input)
    requires Stream(i) == []
    ensures ReadOne(build, i).0 == EndOfStream
  {
    FillKeepsStream(i, 2);
  }

  /** With no frame, or with an unsafe one, there is nothing to be read. */
  lemma {:induction false} ReadListStops(build: Build, i: Input, ps: seq<Packet>)
    requires AllOk(build, ps) && Stream(i) == Frames(ps) && (ps != [] ==> !SafeAt(i, ps, 0))
    ensures ReadList(build, i) == ([], if ps == [] then EndOfStream else Rejected(IncompletePacket))
  {
    if ps == [] {
      ReadNothing(build, i);
    } else {
      ReadFirst(build, i, ps);
    }
  }

  /** Reading gets exactly as far as the frames are safe. */
  lemma {:induction false} ReadListUpTo(build: Build, i: Input, ps: seq<Packet>, m: nat, last: Outcome)
    requires AllOk(build, ps) && Stream(i) == Frames(ps)
    requires m <= |ps| && SafeUpTo(i, ps, m) && (m < |ps| ==> !SafeAt(i, ps, m))
    requires last == if m == |ps| then EndOfStream else Rejected(IncompletePacket)
    ensures ReadList(build, i) == (ps[..m], last)
    decreases |ps|
  {
    if m > 0 {
      var after := ReadOne(build, i).1;
      SafeAfterFirst(build, i, ps, m);
      ReadListUpTo(build, after, ps[1..], m - 1, last);
      ReadListStep(build, i, ps[0], after);
      TakeCons(ps, m);
    } else {
      ReadListStops(build, i, ps);
    }
  }

  /** The m-th frame is the first whose length field is cut. */
  ghost predicate FirstUnsafe(i: Input, ps: seq<Packet>, m: nat) {
    m < |ps| && SafeUpTo(i, ps, m) && !SafeAt(i, ps, m)
  }

  lemma {:induction false} SomeFirstUnsafe(i: Input, ps: seq<Packet>, n: nat) returns (m: nat)
    requires n <= |ps| && !SafeUpTo(i, ps, n)
    ensures FirstUnsafe(i, ps, m)
  {
    if SafeUpTo(i, ps, n - 1) {
      m := n - 1;
    } else {
      m := SomeFirstUnsafe(i, ps, n - 1);
    }
  }

  /** For every list of well-formed packets and every way of cutting their frames into a
      buffer and pieces: the list is read back, up to the end of the stream, if and only
      if no cut lies within a length field behind its first byte. Otherwise the reader
      returns the packets in front of the first such frame and reports an incomplete
      packet. */
  lemma {:induction false} ReadListExact(build: Build, i: Input, ps: seq<Packet>)
    requires AllOk(build, ps) && Stream(i) == Frames(ps)
    ensures ReadList(build, i) == (ps, EndOfStream) <==> SafeUpTo(i, ps, |ps|)
    ensures forall m: nat :: FirstUnsafe(i, ps, m) ==> ReadList(build, i) == (ps[..m], Rejected(IncompletePacket))
  {
    forall m: nat | FirstUnsafe(i, ps, m)
      ensures ReadList(build, i) == (ps[..m], Rejected(IncompletePacket))
    {
      ReadListUpTo(build, i, ps, m, Rejected(IncompletePacket));
    }
    if SafeUpTo(i, ps, |ps|) {
      ReadListUpTo(build, i, ps, |ps|, EndOfStream);
      assert ps[..|ps|] == ps;
    } else {
      var m := SomeFirstUnsafe(i, ps, |ps|);
    }
  }

  /** In particular every list of frames with bodies under 128 bytes is read back,
      however it is cut. */
  lemma {:induction false} ShortFramesAreSafe(i: Input, ps: seq<Packet>, m: nat)
    requires m <= |ps| && forall l :: 0 <= l < m ==> |Body(ps[l])| < 128
    ensures SafeUpTo(i, ps, m)
  {
    if m > 0 {
      ShortFramesAreSafe(i, ps, m - 1);
      assert Length.Size(|Body(ps[m - 1])|) == 1;
    }
  }

  // ---------- streams that end or go wrong ----------

  lemma {:induction false} ParseOfCut(build: Build, p: Packet, buffer: Bytes)
    requires build.Ok() && PacketOk(build, p) && 2 <= |buffer| && buffer <= Frame(p)
    ensures Length.Parse(buffer) ==
            if |buffer| >= 1 + Length.Size(|Body(p)|) then Length.Length(|Body(p)|, Length.Size(|Body(p)|))
            else Length.Incomplete
  {
    FrameIsFramed(build, p);
    BodyFits(build, p);
    Length.WriteThenRead(|Body(p)|, Body(p));
    assert Frame(p)[1..] == Length.Encode(|Body(p)|) + Body(p);
    assert Frame(p) + [] == Frame(p);
    ParsePrefix(Frame(p), buffer, []);
  }

  /** A stream that ends inside a frame: however it is cut, the reader reports the end if
      it has less than two bytes, else an incomplete packet. */
  lemma {:induction false} StreamEndsEarly(build: Build, i: Input, p: Packet, k: nat)
    requires build.Ok() && PacketOk(build, p) && k < |Frame(p)| && Stream(i) == Frame(p)[..k]
    ensures ReadOne(build, i).0 == if k < 2 then EndOfStream else Rejected(IncompletePacket)
  {
    var j := Fill(i, 2);
    FillKeepsStream(i, 2);
    if k >= 2 {
      assert j.buffer <= Stream(j);
      ParseOfCut(build, p, j.buffer);
      if Length.Parse(j.buffer).Length? {
        FrameIsFramed(build, p);
        ReadOneIsFinish(build, i, |Frame(p)|);
        FillKeepsStream(j, |Frame(p)|);
      }
    }
  }

  /** Four bytes that all announce another one are refused as soon as they are there. */
  lemma {:induction false} EndlessLengthIsRejected(build: Build, i: Input)
    requires |i.buffer| >= 5 && forall x :: 1 <= x <= 4 ==> i.buffer[x] >= 128
    ensures ReadOne(build, i) == (Rejected(InvalidPacketLength), i)
  {
    var s := i.buffer[1..];
    assert s[0] >= 128 && s[1] >= 128 && s[2] >= 128 && s[3] >= 128;
    assert Length.Terminator(s) >= 4;
  }

  /** Every longer frame has a cut that defeats the reader: after its second byte. */
  lemma {:induction false} CutInsideLengthIsRejected(build: Build, p: Packet)
    requires build.Ok() && PacketOk(build, p) && |Body(p)| >= 128
    ensures |Frame(p)| > 2
    ensures ReadOne(build, Input([], [Frame(p)[..2], Frame(p)[2..]])).0 == Rejected(IncompletePacket)
  {
    FrameIsFramed(build, p);
    var frame := Frame(p);
    var i := Input([], [frame[..2], frame[2..]]);
    TwoPieces(frame[..2], frame[2..]);
    assert frame + [] == frame;
    ReadOneExact(build, i, p, []);
  }

  lemma {:induction false} TwoPieces(a: Bytes, b: Bytes)
    requires |a| == 2 && b != []
    ensures Stream(Input([], [a, b])) == a + b
    ensures Fill(Input([], [a, b]), 2) == Input(a, [b])
  {
    var pieces: seq<Piece> := [a, b];
    assert pieces[1..] == [b] && pieces[1..][1..] == [];
    assert Concat(pieces[1..]) == b + Concat(pieces[1..][1..]) == b;
    assert [] + a == a;
    assert Fill(Input([], pieces), 2) == Fill(Advance(Input([], pieces)), 2);
  }
}
