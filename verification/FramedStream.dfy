/** What the reads of a framed transport add up to. */
module FramedStream {
  import opened Options
  import opened Words
  import opened Frames
  import opened FramedTransport

  // ---------------------------------------------------------------- any stream, one call

  /** The bytes the stream holds for its reader: what is left of the current frame, then the frames
      after it, up to the end of the stream or a header that is too large. */
  function Pending(max: U32, s: FState): seq<Byte>
    decreases |s.stream|
  {
    if s.frameSize == 0 then
      match Enter(max, s)
      case NoFrame(_, _) => []
      case InFrame(f, rest) => Pending(max, FState(f, rest))
    else if |s.stream| <= s.frameSize then s.stream
    else s.stream[..s.frameSize] + Pending(max, FState(0, s.stream[s.frameSize..]))
  }

  lemma PendingAfter(max: U32, f: nat, got: seq<Byte>, rest: seq<Byte>)
    requires |got| <= f
    ensures Pending(max, FState(f, got + rest)) == got + Pending(max, FState(f - |got|, rest))
  {
    hide FromBigEndian;
    var stream := got + rest;
    if f == 0 {
      assert stream == rest;
    } else if |stream| > f {
      assert stream[f..] == rest[f - |got|..];
      assert stream[..f] == got + rest[..f - |got|];
    }
  }

  lemma PendingEnter(max: U32, s: FState)
    requires Enter(max, s).InFrame?
    ensures Pending(max, s) == Pending(max, FState(Enter(max, s).size, Enter(max, s).rest))
  {
    hide FromBigEndian;
  }

  /** Where no frame can be entered nothing is pending. */
  lemma NothingPending(max: U32, s: FState)
    ensures Enter(max, s).NoFrame? ==> Pending(max, s) == []
    ensures s.stream == [] ==> Pending(max, s) == []
  {
    hide FromBigEndian;
  }

  /** A call of Read loses, repeats and invents nothing, unless it steps over an empty frame onto a
      header that is too large, and then it does. */
  lemma ReadConserves(max: U32, s: FState, len: nat, got: seq<Byte>, err: Option<FrameError>, t: FState)
    requires ReadRel(max, s, len, got, err, t) && s.frameSize < 0x1_0000_0000
    requires len < 0x1_0000_0000
    requires !(err.Some? && err.value.TooLarge?)
    ensures Pending(max, s) == got + Pending(max, t) <==> !Stray(max, s, len)
  {
    hide FromBigEndian, Pending, ToU32;
    ToU32Small(len);
    var e := Enter(max, s);
    if e.NoFrame? {
      NothingPending(max, s);
      NothingPending(max, t);
    } else {
      PendingEnter(max, s);
      if len <= e.size {
        ToU32Small(e.size - |got|);
        PendingAfter(max, e.size, got, t.stream);
      } else if e.size > 0 {
        PendingAfter(max, e.size, got, t.stream);
      } else {
        EmptyFrameConserves(max, s, len, got, err, t);
      }
    }
  }

  lemma EmptyFrameConserves(max: U32, s: FState, len: nat, got: seq<Byte>, err: Option<FrameError>, t: FState)
    requires s.frameSize == 0 && len > 0 && Enter(max, s).InFrame? && Enter(max, s).size == 0
    requires EmptyFrameRel(max, Enter(max, s).rest, len, got, err, t)
    ensures Pending(max, s) == got + Pending(max, t) <==> !Stray(max, s, len)
  {
    hide FromBigEndian, Pending, ToU32;
    ToU32Small(0);
    var rest := Enter(max, s).rest;
    assert |rest| >= 4 ==> rest[..4] == s.stream[4..8];
    var inner := Enter(max, FState(0, rest));
    PendingEnter(max, s);
    if inner.InFrame? {
      PendingEnter(max, FState(0, rest));
    } else {
      NothingPending(max, FState(0, rest));
      if inner.rest == [] {
        assert got == [] && t == FState(0, []);
        NothingPending(max, t);
      } else {
        assert |got + Pending(max, t)| > 0;
      }
    }
  }

  /** Such a call: an empty frame, a header of 17 under a limit of 16, and a byte. The byte is
      returned without an error, though no frame holds it, and the frame size wraps round. */
  lemma StrayByte()
    ensures
      var s := FState(0, [0, 0, 0, 0, 0, 0, 0, 17, 65]);
      var t := FState(0xffff_ffff, []);
      ReadRel(16, s, 1, [65], None, t) && Pending(16, s) == [] && Stray(16, s, 1)
  {
    var stream: seq<Byte> := [0, 0, 0, 0, 0, 0, 0, 17, 65];
    var s := FState(0, stream);
    ZeroHeader();
    assert stream[..4] == [0, 0, 0, 0] && stream[4..8] == [0, 0, 0, 17];
    assert stream[4..][..4] == [0, 0, 0, 17] && stream[4..][4..] == [65];
    assert Enter(16, s) == InFrame(0, stream[4..]);
    assert Enter(16, FState(0, stream[4..])) == NoFrame(TooLarge(17), [65]);
    PendingEnter(16, s);
  }

  lemma ZeroHeader()
    ensures FromBigEndian([0, 0, 0, 0]) == 0 && FromBigEndian([0, 0, 0, 17]) == 17
  {
    var x: seq<Byte> := [0];
    var y: seq<Byte> := [0, 0];
    var z: seq<Byte> := [0, 0, 0];
    assert x[..0] == [] && y[..1] == x && z[..2] == y;
    assert FromBigEndian(x) == 0;
    assert FromBigEndian(y) == 0;
    assert FromBigEndian(z) == 0;
    var a: seq<Byte> := [0, 0, 0, 0];
    var b: seq<Byte> := [0, 0, 0, 17];
    assert a[..3] == z && b[..3] == z;
  }

  lemma ReadByteConserves(max: U32, s: FState, got: seq<Byte>, err: Option<FrameError>, t: FState)
    requires ReadByteRel(max, s, got, err, t)
    requires !(err.Some? && err.value.TooLarge?)
    ensures Pending(max, s) == got + Pending(max, t)
  {
    hide FromBigEndian, Pending;
    var e := Enter(max, s);
    if e.NoFrame? {
      NothingPending(max, s);
      NothingPending(max, t);
    } else {
      PendingEnter(max, s);
      if e.size >= 1 { PendingAfter(max, e.size, got, t.stream); }
    }
  }

  // ---------------------------------------------------------------- whole messages, many calls

  datatype Call = Read(len: nat) | ReadByte
  datatype Reply = Reply(got: seq<Byte>, err: Option<FrameError>)

  predicate CallRel(max: U32, s: FState, c: Call, r: Reply, t: FState) {
    match c
    case Read(len) => ReadRel(max, s, len, r.got, r.err, t)
    case ReadByte => ReadByteRel(max, s, r.got, r.err, t)
  }

  predicate Calls(max: U32, states: seq<FState>, calls: seq<Call>, replies: seq<Reply>) {
    && |states| == |calls| + 1 && |replies| == |calls|
    && forall i :: 0 <= i < |calls| ==>
        && CallRel(max, states[i], calls[i], replies[i], states[i + 1])
        && (calls[i].Read? ==> calls[i].len < 0x1_0000_0000)
  }

  predicate Fits(ms: seq<seq<Byte>>, max: U32) { forall i :: 0 <= i < |ms| ==> |ms[i]| <= max }

  function Gots(replies: seq<Reply>): seq<Byte> {
    if replies == [] then [] else Gots(replies[..|replies| - 1]) + replies[|replies| - 1].got
  }

  /** The reader has had the first j messages and a bytes of the next. */
  datatype Place = Place(j: nat, a: nat)

  predicate At(ms: seq<seq<Byte>>, s: FState, p: Place) {
    if p.a == 0 && s.frameSize == 0 then p.j <= |ms| && s.stream == Stream(ms[p.j..])
    else p.j < |ms| && p.a < |ms[p.j]| && s.frameSize == |ms[p.j]| - p.a && s.stream == Left(ms, p)
  }

  function Left(ms: seq<seq<Byte>>, p: Place): seq<Byte>
    requires p.j < |ms| && p.a <= |ms[p.j]|
  {
    ms[p.j][p.a..] + Stream(ms[p.j + 1..])
  }

  function Given(ms: seq<seq<Byte>>, p: Place): seq<Byte>
    requires p.j <= |ms| && (p.j < |ms| ==> p.a <= |ms[p.j]|)
  {
    Concat(ms[..p.j]) + if p.j < |ms| then ms[p.j][..p.a] else []
  }

  lemma {:induction false} ConcatAppend(ms: seq<seq<Byte>>, m: seq<Byte>)
    ensures Concat(ms + [m]) == Concat(ms) + m
  {
    if ms == [] {
      assert Concat([m][1..]) == [];
    } else {
      ConcatAppend(ms[1..], m);
      assert (ms + [m])[1..] == ms[1..] + [m];
    }
  }

  lemma EnterAt(max: U32, ms: seq<seq<Byte>>, s: FState, p: Place)
    requires At(ms, s, p) && Fits(ms, max)
    ensures Enter(max, s).NoFrame? ==> Enter(max, s) == NoFrame(EndOfFile, []) && p == Place(|ms|, 0)
    ensures Enter(max, s).InFrame? ==>
        p.j < |ms| && p.a <= |ms[p.j]| && Enter(max, s) == InFrame(|ms[p.j]| - p.a, Left(ms, p))
  {
    hide FromBigEndian, BigEndian;
    if s.frameSize == 0 {
      if p.j < |ms| {
        assert ms[p.j..][1..] == ms[p.j + 1..];
        assert s.stream == Frame(ms[p.j]) + Stream(ms[p.j + 1..]);
        HeaderBack(ms[p.j], Stream(ms[p.j + 1..]));
      }
    }
  }

  function Advanced(ms: seq<seq<Byte>>, p: Place, n: nat): Place
    requires p.j < |ms|
  {
    if p.a + n == |ms[p.j]| then Place(p.j + 1, 0) else Place(p.j, p.a + n)
  }

  lemma AdvanceBy(ms: seq<seq<Byte>>, p: Place, got: seq<Byte>, rest: seq<Byte>)
    requires p.j < |ms| && p.a + |got| <= |ms[p.j]| && Left(ms, p) == got + rest
    ensures At(ms, FState(|ms[p.j]| - p.a - |got|, rest), Advanced(ms, p, |got|))
    ensures Given(ms, Advanced(ms, p, |got|)) == Given(ms, p) + got
    ensures got == ms[p.j][p.a..p.a + |got|]
  {
    hide Stream;
    var m, n := ms[p.j], |got|;
    var after := Stream(ms[p.j + 1..]);
    assert (m[p.a..] + after)[..n] == m[p.a..p.a + n];
    assert got == (got + rest)[..n];
    assert rest == (got + rest)[n..] == m[p.a + n..] + after;
    assert m[..p.a + n] == m[..p.a] + got;
    if p.a + n == |m| {
      assert ms[..p.j + 1] == ms[..p.j] + [m];
      ConcatAppend(ms[..p.j], m);
      assert m[p.a + n..] + after == after;
    }
  }

  /** A call returns the next bytes of the message the reader is in, or none. */
  predicate NextBytes(ms: seq<seq<Byte>>, p: Place, r: Reply, q: Place) {
    && p.j <= |ms| && q.j <= |ms| && (p.j < |ms| ==> p.a <= |ms[p.j]|) && (q.j < |ms| ==> q.a <= |ms[q.j]|)
    && (r.got != [] ==> p.j < |ms| && p.a + |r.got| <= |ms[p.j]| && r.got == ms[p.j][p.a..p.a + |r.got|])
    && Given(ms, q) == Given(ms, p) + r.got
    && (r.err.Some? ==> r.err.value.EndOfFile? || r.err.value.NotEnough?)
    && (r.err == Some(EndOfFile) ==> r.got == [] && Given(ms, q) == Concat(ms))
  }

  /** What each call answers at its place. Inside a message ReadByte returns the next byte, and Read
      some of what is left, with an error if and only if less is left than was asked for. An empty
      message is passed over with an error, and after the last one there is only the end. */
  predicate Answers(ms: seq<seq<Byte>>, p: Place, c: Call, r: Reply) {
    if p.j >= |ms| then r == Reply([], Some(EndOfFile))
    else if p.a < |ms[p.j]| then AnswersInside(ms[p.j][p.a], |ms[p.j]| - p.a, c, r)
    else if c == Read(0) then r == Reply([], None)
    else if c.ReadByte? || p.j + 1 < |ms| then r == Reply([], Some(NotEnough(0, Wanted(c))))
    else r == Reply([], Some(EndOfFile))
  }

  function Wanted(c: Call): nat {
    match c case Read(len) => len case ReadByte => 1
  }

  predicate AnswersInside(next: Byte, left: nat, c: Call, r: Reply) {
    match c
    case ReadByte => r == Reply([next], None)
    case Read(len) =>
      && |r.got| <= len && |r.got| <= left && (r.got == [] <==> len == 0)
      && r.err == if len > left then Some(NotEnough(left, len)) else None
  }

  lemma EndPlace(ms: seq<seq<Byte>>)
    ensures Given(ms, Place(|ms|, 0)) == Concat(ms)
  {
    assert ms[..|ms|] == ms;
  }

  lemma CallAt(max: U32, ms: seq<seq<Byte>>, s: FState, p: Place, c: Call, r: Reply, t: FState) returns (q: Place)
    requires At(ms, s, p) && Fits(ms, max) && CallRel(max, s, c, r, t)
    requires c.Read? ==> c.len < 0x1_0000_0000
    ensures At(ms, t, q) && NextBytes(ms, p, r, q) && Answers(ms, p, c, r)
    ensures p.j < |ms| && p.a < |ms[p.j]| ==> q == Advanced(ms, p, |r.got|)
  {
    hide Enter, ToU32, Given, At, Stream, EmptyFrameRel;
    EnterAt(max, ms, s, p);
    EndPlace(ms);
    ToU32Small(0);
    if c.Read? { ToU32Small(c.len); }
    var e := Enter(max, s);
    if e.NoFrame? {
      q := p;
      AtEndOfAll(ms);
    } else if c.Read? && e.size == 0 && c.len > 0 {
      q := EmptyFrameAt(max, ms, s, p, c.len, r, t);
    } else if e.size == 0 {
      q := Advanced(ms, p, 0);
      AdvanceBy(ms, p, [], e.rest);
      assert e.rest == [] + e.rest;
      assert c == Read(0) ==> r.got == [] && t == FState(0, e.rest);
    } else {
      q := Advanced(ms, p, |r.got|);
      InsideAt(max, ms, s, p, c, r, t);
    }
  }

  lemma InsideAt(max: U32, ms: seq<seq<Byte>>, s: FState, p: Place, c: Call, r: Reply, t: FState)
    requires p.j < |ms| && p.a < |ms[p.j]| && Enter(max, s) == InFrame(|ms[p.j]| - p.a, Left(ms, p))
    requires Fits(ms, max) && CallRel(max, s, c, r, t) && (c.Read? ==> c.len < 0x1_0000_0000)
    ensures At(ms, t, Advanced(ms, p, |r.got|)) && NextBytes(ms, p, r, Advanced(ms, p, |r.got|)) && Answers(ms, p, c, r)
  {
    hide Enter, ToU32, Given, At, Stream, EmptyFrameRel;
    if c.Read? { ToU32Small(c.len); }
    var size := |ms[p.j]| - p.a;
    LeftNonempty(ms, p);
    assert |r.got| <= size && Left(ms, p) == r.got + t.stream;
    ToU32Small(size - |r.got|);
    AdvanceBy(ms, p, r.got, t.stream);
  }

  lemma AtEndOfAll(ms: seq<seq<Byte>>)
    ensures At(ms, FState(0, []), Place(|ms|, 0))
  {
  }

  lemma LeftNonempty(ms: seq<seq<Byte>>, p: Place)
    requires p.j < |ms| && p.a < |ms[p.j]|
    ensures Left(ms, p) != []
  {
    hide Stream;
  }

  lemma EmptyFrameAt(max: U32, ms: seq<seq<Byte>>, s: FState, p: Place, len: nat, r: Reply,
      t: FState) returns (q: Place)
    requires At(ms, s, p) && Fits(ms, max) && len > 0
    requires Enter(max, s).InFrame? && Enter(max, s).size == 0
    requires EmptyFrameRel(max, Enter(max, s).rest, len, r.got, r.err, t)
    ensures At(ms, t, q) && NextBytes(ms, p, r, q) && Answers(ms, p, Read(len), r)
  {
    hide Enter, ToU32, Given, At, Stream;
    ToU32Small(0);
    EnterAt(max, ms, s, p);
    EndPlace(ms);
    var rest := Enter(max, s).rest;
    q := Advanced(ms, p, 0);
    AdvanceBy(ms, p, [], rest);
    assert At(ms, FState(0, rest), q);
    EnterAt(max, ms, FState(0, rest), q);
    var inner := Enter(max, FState(0, rest));
    if inner.InFrame? {
      assert q.a == 0;
      EnteredAt(ms, q);
      if |ms[q.j]| == 0 {
        AdvanceBy(ms, q, [], inner.rest);
        q := Advanced(ms, q, 0);
      }
    } else {
      AtEndOfAll(ms);
    }
  }

  lemma EnteredAt(ms: seq<seq<Byte>>, q: Place)
    requires q.j < |ms| && q.a == 0
    ensures |ms[q.j]| > 0 ==> At(ms, FState(|ms[q.j]|, Left(ms, q)), q)
  {
    hide Stream;
  }

  predicate Follows(ms: seq<seq<Byte>>, states: seq<FState>, calls: seq<Call>, replies: seq<Reply>,
      places: seq<Place>)
  {
    && |places| == |states| == |replies| + 1 == |calls| + 1
    && places[0] == Place(0, 0)
    && (forall i :: 0 <= i < |places| ==> At(ms, states[i], places[i]))
    && (forall i :: 0 <= i < |replies| ==> NextBytes(ms, places[i], replies[i], places[i + 1]))
    && (forall i :: 0 <= i < |replies| ==> Answers(ms, places[i], calls[i], replies[i]))
  }

  lemma AtStart(ms: seq<seq<Byte>>)
    ensures At(ms, FState(0, Stream(ms)), Place(0, 0))
  {
    assert ms[0..] == ms;
  }

  /** A header above the maximum: both calls report it, having taken the header and nothing more. */
  lemma OversizedRefused(max: U32, n: U32, rest: seq<Byte>, c: Call, r: Reply, t: FState)
    requires CallRel(max, FState(0, BigEndian(4, n) + rest), c, r, t) && n > max
    ensures r == Reply([], Some(TooLarge(n))) && t == FState(0, rest)
  {
    hide BigEndian, FromBigEndian, EmptyFrameRel;
    Pow2Widths();
    BigEndianRoundTrip(4, n);
    assert (BigEndian(4, n) + rest)[..4] == BigEndian(4, n);
    assert (BigEndian(4, n) + rest)[4..] == rest;
  }

  /** A stream that ends before a frame does: in the header, or in the body. */
  lemma CutShort(max: U32, s: FState, c: Call, r: Reply, t: FState)
    requires CallRel(max, s, c, r, t) && (s.frameSize == 0 || c != Read(0)) && s.frameSize < 0x1_0000_0000
    requires if s.frameSize == 0 then |s.stream| < 4 else s.stream == []
    requires c.Read? ==> c.len < 0x1_0000_0000
    ensures r == Reply([], Some(if s.stream == [] then EndOfFile else UnexpectedEnd))
    ensures t == FState(s.frameSize, [])
  {
    hide FromBigEndian, EmptyFrameRel, ToU32;
    if c.Read? { ToU32Small(c.len); }
    ToU32Small(s.frameSize);
  }

  lemma CallsCount(max: U32, states: seq<FState>, calls: seq<Call>, replies: seq<Reply>)
    requires Calls(max, states, calls, replies)
    ensures |states| == |calls| + 1 && |replies| == |calls|
  {
  }

  lemma {:induction false} PlacesAlong(max: U32, ms: seq<seq<Byte>>, states: seq<FState>, calls: seq<Call>,
      replies: seq<Reply>)
      returns (places: seq<Place>)
    requires Fits(ms, max) && Calls(max, states, calls, replies) && states[0] == FState(0, Stream(ms))
    ensures Follows(ms, states, calls, replies, places)
    decreases |calls|
  {
    hide CallRel, Stream, At, NextBytes, Answers;
    var n := |calls|;
    if n == 0 {
      places := [Place(0, 0)];
      AtStart(ms);
    } else {
      places := PlacesAlong(max, ms, states[..n], calls[..n - 1], replies[..n - 1]);
      assert At(ms, states[..n][n - 1], places[n - 1]);
      var q := CallAt(max, ms, states[n - 1], places[n - 1], calls[n - 1], replies[n - 1], states[n]);
      assert forall i :: 0 <= i < n ==> At(ms, states[..n][i], places[i]);
      assert forall i :: 0 <= i < n - 1 ==> NextBytes(ms, places[i], replies[..n - 1][i], places[i + 1]);
      assert forall i :: 0 <= i < n - 1 ==> Answers(ms, places[i], calls[..n - 1][i], replies[..n - 1][i]);
      places := places + [q];
    }
  }

  lemma {:induction false} GotsAlong(ms: seq<seq<Byte>>, replies: seq<Reply>, places: seq<Place>)
    requires |places| == |replies| + 1 && places[0] == Place(0, 0)
    requires forall i :: 0 <= i < |replies| ==> NextBytes(ms, places[i], replies[i], places[i + 1])
    ensures places[|replies|].j <= |ms|
        && (places[|replies|].j < |ms| ==> places[|replies|].a <= |ms[places[|replies|].j]|)
    ensures Gots(replies) == Given(ms, places[|replies|])
    decreases |replies|
  {
    var n := |replies|;
    if n > 0 {
      hide Given;
      GotsAlong(ms, replies[..n - 1], places[..n]);
      assert NextBytes(ms, places[n - 1], replies[n - 1], places[n]);
    }
  }

  /** Calls of ReadByte alone inside a message give its bytes one by one, without an error, up to
      and including its last. */
  lemma {:induction false} BytesOfMessage(max: U32, ms: seq<seq<Byte>>, states: seq<FState>, calls: seq<Call>,
      replies: seq<Reply>, p: Place)
    requires Fits(ms, max) && Calls(max, states, calls, replies) && At(ms, states[0], p)
    requires forall i :: 0 <= i < |calls| ==> calls[i].ReadByte?
    requires p.j < |ms| && p.a + |calls| <= |ms[p.j]| && p.a < |ms[p.j]|
    ensures Gots(replies) == ms[p.j][p.a..p.a + |calls|]
    ensures forall i :: 0 <= i < |replies| ==> replies[i].err == None
    ensures At(ms, states[|calls|], Advanced(ms, p, |calls|))
    decreases |calls|
  {
    hide CallRel, At, NextBytes, Fits;
    var n, m := |calls|, ms[p.j];
    if n > 0 {
      BytesOfMessage(max, ms, states[..n], calls[..n - 1], replies[..n - 1], p);
      assert states[..n][n - 1] == states[n - 1];
      var q := CallAt(max, ms, states[n - 1], Place(p.j, p.a + n - 1), calls[n - 1], replies[n - 1], states[n]);
      assert replies[n - 1] == Reply([m[p.a + n - 1]], None);
      assert m[p.a..p.a + n] == m[p.a..p.a + n - 1] + [m[p.a + n - 1]];
      assert forall i :: 0 <= i < n - 1 ==> replies[..n - 1][i] == replies[i];
    } else {
      assert m[p.a..p.a] == [];
    }
  }

  /** Framing preserves messages: whatever sizes are asked for and however short the reads come
      back, each call returns the next bytes of one message, the calls together the beginning of
      the messages in order, and all of them by the time one reports the end. */
  lemma FramesDelivered(max: U32, ms: seq<seq<Byte>>, states: seq<FState>, calls: seq<Call>, replies: seq<Reply>)
      returns (places: seq<Place>)
    requires Fits(ms, max) && Calls(max, states, calls, replies) && states[0] == FState(0, Stream(ms))
    ensures Follows(ms, states, calls, replies, places)
    ensures Gots(replies) <= Concat(ms)
    ensures calls != [] && replies[|calls| - 1].err == Some(EndOfFile) ==> Gots(replies) == Concat(ms)
  {
    hide Calls, Stream, Concat, Given, At;
    CallsCount(max, states, calls, replies);
    places := PlacesAlong(max, ms, states, calls, replies);
    GotsAlong(ms, replies, places);
    GivenPrefix(ms, places[|calls|]);
    assert calls != [] ==> NextBytes(ms, places[|calls| - 1], replies[|calls| - 1], places[|calls|]);
  }

  lemma GivenPrefix(ms: seq<seq<Byte>>, p: Place)
    requires p.j <= |ms| && (p.j < |ms| ==> p.a <= |ms[p.j]|)
    ensures Given(ms, p) <= Concat(ms)
  {
    hide Concat;
    ConcatSplit(ms, p.j);
    if p.j < |ms| {
      ConcatHead(ms[p.j..]);
      PrefixWithin(Concat(ms[..p.j]), ms[p.j], p.a, Concat(ms[p.j..][1..]));
    } else {
      assert Given(ms, p) == Concat(ms[..p.j]) + [] == Concat(ms[..p.j]);
    }
  }

  lemma ConcatHead(ms: seq<seq<Byte>>)
    requires ms != []
    ensures Concat(ms) == ms[0] + Concat(ms[1..])
  {
  }

  lemma PrefixWithin(before: seq<Byte>, m: seq<Byte>, a: nat, after: seq<Byte>)
    requires a <= |m|
    ensures before + m[..a] <= before + (m + after)
  {
    assert before + (m + after) == (before + m[..a]) + (m[a..] + after);
  }

  lemma {:induction false} ConcatSplit(ms: seq<seq<Byte>>, j: nat)
    requires j <= |ms|
    ensures Concat(ms) == Concat(ms[..j]) + Concat(ms[j..])
  {
    if j == 0 {
      assert ms[0..] == ms;
    } else {
      ConcatSplit(ms[1..], j - 1);
      assert ms[1..][..j - 1] == ms[..j][1..];
      assert ms[1..][j - 1..] == ms[j..];
    }
  }
}
