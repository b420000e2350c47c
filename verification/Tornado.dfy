/** The Tornado transport: frames read under a FIFO lock by concurrent coroutines, and frames
    written through a buffer. */
module Tornado {
  import opened Options
  import opened Words
  import opened Frames

  /** A call of readFrame, from the moment it has called acquire. */
  datatype Reader =
    | Waiting(blocker: Option<nat>)   // inside acquire, before its yield of the blocker has returned
    | Header                          // holds the lock, reading four bytes
    | Body(len: nat)                  // holds the lock, reading the frame
    | Got(frame: seq<Byte>)
    | Failed

  /** Calls are numbered in the order in which they called acquire, and each one's future carries
      its call's number. sent is every byte the stream has received, of which pos are consumed. */
  datatype State = State(readers: seq<Reader>, lock: Lock, resolved: set<nat>, sent: seq<Byte>, pos: nat)

  // ---------------------------------------------------------------- the lock

  /** The value of a lock: the futures in its deque, the holder's first. */
  datatype Lock = Lock(waiters: seq<nat>) {
    predicate Acquired() { waiters != [] }

    function Blocker(): Option<nat> { if Acquired() then Some(waiters[|waiters| - 1]) else None }

    function Enqueue(future: nat): Lock { Lock(waiters + [future]) }

    function Dequeue(): Lock
      requires Acquired()
    {
      Lock(waiters[1..])
    }
  }

  /** _Lock itself. Acquire goes as far as its yield. */
  class FifoLock {
    var waiters: seq<nat>

    ghost function Value(): Lock
      reads this
    {
      Lock(waiters)
    }

    constructor ()
      ensures Value() == Lock([])
    {
      waiters := [];
    }

    method Acquire(future: nat) returns (blocker: Option<nat>)
      modifies this
      ensures blocker == old(Value()).Blocker() && Value() == old(Value()).Enqueue(future)
    {
      blocker := if |waiters| > 0 then Some(waiters[|waiters| - 1]) else None;
      waiters := waiters + [future];
    }

    /** The future to resolve. */
    method Release() returns (future: nat)
      requires Value().Acquired()
      modifies this
      ensures future == old(waiters)[0] && Value() == old(Value()).Dequeue()
    {
      future := waiters[0];
      waiters := waiters[1..];
    }
  }

  // ---------------------------------------------------------------- steps

  predicate Init(s: State) {
    s.readers == [] && s.lock == Lock([]) && s.resolved == {} && s.pos == 0 && s.sent == []
  }

  function Unread(s: State): seq<Byte> { if s.pos <= |s.sent| then s.sent[s.pos..] else [] }

  /** struct.unpack('!i') of four bytes. */
  function FrameLength(header: seq<Byte>): int { ToI32(FromBigEndian(header)) }

  /** Leaving the lock's context: the future at the head is removed and resolved. */
  function Release(s: State): State
    requires s.lock.Acquired()
  {
    s.(lock := s.lock.Dequeue(), resolved := s.resolved + {s.lock.waiters[0]})
  }

  predicate Start(s: State, t: State) {
    t == s.(readers := s.readers + [Waiting(s.lock.Blocker())], lock := s.lock.Enqueue(|s.readers|))
  }

  predicate Arrive(s: State, t: State) {
    s.sent <= t.sent && t == s.(sent := t.sent)
  }

  predicate ReaderStep(s: State, i: nat, t: State)
    requires i < |s.readers|
  {
    match s.readers[i]
    case Waiting(blocker) =>
      (blocker.Some? ==> blocker.value in s.resolved) && t == s.(readers := s.readers[i := Header])
    case Header =>
      if |Unread(s)| < 4 then false
      else
        var len := FrameLength(Unread(s)[..4]);
        var u := s.(pos := s.pos + 4);
        if len < 0 then s.lock.Acquired() && t == Release(u.(readers := s.readers[i := Failed]))
        else t == u.(readers := s.readers[i := Body(len)])
    case Body(len) =>
      if |Unread(s)| < len then false
      else
        s.lock.Acquired() &&
        t == Release(s.(pos := s.pos + len, readers := s.readers[i := Got(Unread(s)[..len])]))
    case Got(_) => false
    case Failed => false
  }

  /** A read on the stream raises: the lock's context is left all the same. */
  predicate Raise(s: State, i: nat, t: State)
    requires i < |s.readers|
  {
    Reading(s.readers[i]) && s.lock.Acquired() && t == Release(s.(readers := s.readers[i := Failed]))
  }

  predicate Next(s: State, t: State) {
    || Start(s, t)
    || Arrive(s, t)
    || (exists i :: 0 <= i < |s.readers| && (ReaderStep(s, i, t) || Raise(s, i, t)))
  }

  predicate IsRun(run: seq<State>) {
    run != [] && Init(run[0]) && forall i :: 0 <= i < |run| - 1 ==> Next(run[i], run[i + 1])
  }

  // ---------------------------------------------------------------- invariant

  predicate Reading(r: Reader) { r.Header? || r.Body? }

  predicate Over(r: Reader) { r.Got? || r.Failed? }

  /** How many calls have left the lock. */
  function Left(s: State): int { |s.readers| - |s.lock.waiters| }

  /** The queue is the calls still inside, in order; only its head may be past its wait, and each
      later one waits on the call just before it. */
  ghost predicate Fifo(s: State) {
    && 0 <= Left(s)
    && (forall j :: 0 <= j < |s.lock.waiters| ==> s.lock.waiters[j] == Left(s) + j)
    && (forall k: nat :: k in s.resolved <==> k < Left(s))
    && (forall k :: 0 <= k < Left(s) ==> Over(s.readers[k]))
    && (forall k :: Left(s) <= k < |s.readers| ==> Queued(s, k))
  }

  predicate Queued(s: State, k: nat)
    requires k < |s.readers|
  {
    var r := s.readers[k];
    if k == Left(s) then Reading(r) || r == Waiting(None) || (k > 0 && r == Waiting(Some(k - 1)))
    else k > 0 && r == Waiting(Some(k - 1))
  }

  predicate NoneFailed(readers: seq<Reader>, k: nat)
    requires k <= |readers|
  {
    forall j :: 0 <= j < k ==> !readers[j].Failed?
  }

  /** The frames of the first k calls. */
  function Taken(readers: seq<Reader>, k: nat): (ms: seq<seq<Byte>>)
    requires k <= |readers|
    ensures |ms| == k
  {
    if k == 0 then []
    else Taken(readers, k - 1) + [if readers[k - 1].Got? then readers[k - 1].frame else []]
  }

  /** What the head has taken of its own frame. */
  function Partial(s: State): seq<Byte> {
    var h := Left(s);
    if 0 <= h < |s.readers| && s.readers[h].Body? then BigEndian(4, s.readers[h].len) else []
  }

  predicate Sized(readers: seq<Reader>) {
    forall k :: 0 <= k < |readers| ==>
      && (readers[k].Body? ==> readers[k].len < 0x8000_0000)
      && (readers[k].Got? ==> |readers[k].frame| < 0x8000_0000)
  }

  predicate Delivered(s: State, k: nat)
    requires k <= |s.readers|
  {
    NoneFailed(s.readers, k) ==> Stream(Taken(s.readers, k)) <= s.sent
  }

  /** Until a call fails, the consumed bytes are whole frames and the head's header. */
  predicate Aligned(s: State) {
    && s.pos <= |s.sent|
    && 0 <= Left(s) <= |s.readers|
    && (NoneFailed(s.readers, Left(s)) ==>
        s.sent[..s.pos] == Stream(Taken(s.readers, Left(s))) + Partial(s))
  }

  ghost predicate Inv(s: State) {
    && Fifo(s)
    && Sized(s.readers)
    && Aligned(s)
    && forall k :: 0 <= k <= Left(s) ==> Delivered(s, k)
  }

  // ---------------------------------------------------------------- steps keep the invariant

  lemma {:induction false} TakenSame(a: seq<Reader>, b: seq<Reader>, k: nat)
    requires k <= |a| && k <= |b| && a[..k] == b[..k]
    ensures Taken(a, k) == Taken(b, k) && NoneFailed(a, k) == NoneFailed(b, k)
  {
    assert forall j :: 0 <= j < k ==> a[..k][j] == a[j] && b[..k][j] == b[j];
    if k > 0 {
      assert a[..k - 1] == a[..k][..k - 1] && b[..k - 1] == b[..k][..k - 1];
      TakenSame(a, b, k - 1);
    }
  }

  /** Only the head can move: it is the only call past its wait, and the only one whose blocker
      has been resolved. */
  lemma OnlyHeadMoves(s: State, i: nat)
    requires Fifo(s) && i < |s.readers|
    requires
      var r := s.readers[i];
      Reading(r) || (r.Waiting? && (r.blocker.Some? ==> r.blocker.value in s.resolved))
    ensures i == Left(s) && s.lock.Acquired() && s.lock.waiters[0] == i
  {
    assert i >= Left(s);
    assert Queued(s, i);
  }

  lemma StartKeepsInv(s: State, t: State)
    requires Inv(s) && Start(s, t)
    ensures Inv(t)
  {
    hide Taken, Stream, BigEndian;
    var n := |s.readers|;
    assert t.readers[..n] == s.readers;
    assert forall k :: 0 <= k < n ==> t.readers[k] == s.readers[k];
    assert Left(t) == Left(s);
    forall k | Left(s) <= k <= n ensures Queued(t, k) {
      assert k < n ==> Queued(s, k);
    }
    assert Fifo(t);
    assert Partial(t) == Partial(s);
    forall k | 0 <= k <= Left(s) ensures Delivered(t, k) && Taken(t.readers, k) == Taken(s.readers, k) {
      assert t.readers[..k] == s.readers[..k];
      TakenSame(s.readers, t.readers, k);
      assert Delivered(s, k);
    }
    assert s.readers[..Left(s)] == t.readers[..Left(s)];
    TakenSame(s.readers, t.readers, Left(s));
  }

  lemma ArriveKeepsInv(s: State, t: State)
    requires Inv(s) && Arrive(s, t)
    ensures Inv(t)
  {
    hide Taken, Stream, BigEndian;
    assert t.sent[..s.pos] == s.sent[..s.pos];
    forall k | Left(s) <= k < |s.readers| ensures Queued(t, k) {
      assert Queued(s, k);
    }
    forall k | 0 <= k <= Left(s) ensures Delivered(t, k) {
      assert Delivered(s, k);
    }
  }

  /** A step of the head that does not leave the lock. */
  lemma HeadStays(s: State, t: State, r: Reader)
    requires Inv(s) && s.lock.Acquired() && 0 <= Left(s) < |s.readers|
    requires t.readers == s.readers[Left(s) := r] && t.lock == s.lock && t.resolved == s.resolved && t.sent == s.sent
    requires Reading(r) && (r.Body? ==> r.len < 0x8000_0000)
    requires t.pos <= |t.sent|
    requires s.sent[..t.pos] == s.sent[..s.pos] + Partial(t) && Partial(s) == []
    ensures Inv(t)
  {
    hide Taken, Stream, BigEndian;
    hide Partial;
    var h := Left(s);
    assert forall k :: 0 <= k < |s.readers| && k != h ==> t.readers[k] == s.readers[k];
    forall k | h <= k < |s.readers| ensures Queued(t, k) {
      assert Queued(s, k);
    }
    assert Fifo(t);
    forall k | 0 <= k <= h ensures Delivered(t, k) {
      assert t.readers[..k] == s.readers[..k];
      TakenSame(s.readers, t.readers, k);
      assert Delivered(s, k);
    }
    assert t.readers[..h] == s.readers[..h];
    TakenSame(s.readers, t.readers, h);
    if NoneFailed(t.readers, h) {
      assert s.sent[..t.pos] == Stream(Taken(t.readers, h)) + Partial(t);
    }
  }

  /** A step of the head that leaves the lock. */
  lemma HeadLeaves(s: State, u: State, r: Reader)
    requires Inv(s) && s.lock.Acquired() && 0 <= Left(s) < |s.readers|
    requires u.readers == s.readers[Left(s) := r] && u.lock == s.lock && u.resolved == s.resolved && u.sent == s.sent
    requires Over(r) && (r.Got? ==> |r.frame| < 0x8000_0000)
    requires u.pos <= |u.sent|
    requires r.Got? ==> s.sent[..u.pos] == s.sent[..s.pos] + r.frame && Partial(s) == BigEndian(4, |r.frame|)
    ensures Inv(Release(u))
  {
    hide Taken, Stream, BigEndian, Partial;
    var h := Left(s);
    var t := Release(u);
    assert s.lock.waiters[0] == h;
    LeavesFifo(s, u, r);
    assert Left(t) == h + 1;
    assert Sized(t.readers);
    forall k | 0 <= k <= h ensures Delivered(t, k) {
      assert t.readers[..k] == s.readers[..k];
      TakenSame(s.readers, t.readers, k);
      assert Delivered(s, k);
    }
    assert t.readers[..h] == s.readers[..h];
    TakenSame(s.readers, t.readers, h);
    LeavesAligned(s, u, r);
  }

  lemma LeavesFifo(s: State, u: State, r: Reader)
    requires Inv(s) && s.lock.Acquired() && 0 <= Left(s) < |s.readers|
    requires u.readers == s.readers[Left(s) := r] && u.lock == s.lock && u.resolved == s.resolved && Over(r)
    ensures Fifo(Release(u))
  {
    var h := Left(s);
    var t := Release(u);
    assert forall k :: 0 <= k < |s.readers| && k != h ==> t.readers[k] == s.readers[k];
    assert s.lock.waiters[0] == h;
    forall k | h < k < |s.readers| ensures Queued(t, k) {
      assert Queued(s, k);
    }
    assert forall j :: 0 <= j < |t.lock.waiters| ==> t.lock.waiters[j] == s.lock.waiters[j + 1];
  }

  lemma LeavesAligned(s: State, u: State, r: Reader)
    requires Inv(s) && s.lock.Acquired() && 0 <= Left(s) < |s.readers|
    requires u.readers == s.readers[Left(s) := r] && u.lock == s.lock && u.sent == s.sent && Over(r)
    requires u.pos <= |u.sent|
    requires r.Got? ==> s.sent[..u.pos] == s.sent[..s.pos] + r.frame && Partial(s) == BigEndian(4, |r.frame|)
    requires Fifo(Release(u))
    ensures Aligned(Release(u)) && Delivered(Release(u), Left(s) + 1)
  {
    hide Stream, BigEndian;
    var h := Left(s);
    var t := Release(u);
    assert t.readers[..h] == s.readers[..h];
    TakenSame(s.readers, t.readers, h);
    assert Left(t) == h + 1;
    assert h + 1 < |t.readers| ==> Queued(s, h + 1);
    assert Partial(t) == [];
    if NoneFailed(t.readers, h + 1) {
      assert t.readers[h] == r && r.Got?;
      assert NoneFailed(t.readers, h);
      var before := Taken(s.readers, h);
      assert Taken(t.readers, h + 1) == before + [r.frame];
      StreamAppend(before, r.frame);
      assert t.sent[..t.pos] == (Stream(before) + BigEndian(4, |r.frame|)) + r.frame;
      assert t.sent[..t.pos] == Stream(before + [r.frame]);
    }
  }

  lemma BytesBack(header: seq<Byte>)
    requires |header| == 4
    ensures FrameLength(header) >= 0 ==> BigEndian(4, FrameLength(header)) == header
    ensures FrameLength(header) < 0x8000_0000
  {
    Pow2Widths();
    FromBigEndianBound(header);
    BigEndianBack(header);
  }

  lemma InvParts(s: State)
    requires Inv(s)
    ensures Fifo(s) && Sized(s.readers) && s.pos <= |s.sent|
  {
    hide Fifo, Sized;
  }

  lemma ReaderKeepsInv(s: State, i: nat, t: State)
    requires Inv(s) && i < |s.readers| && (ReaderStep(s, i, t) || Raise(s, i, t))
    ensures Inv(t)
  {
    hide Inv, Taken, Stream, BigEndian, FromBigEndian, Release, Aligned;
    InvParts(s);
    OnlyHeadMoves(s, i);
    match s.readers[i]
    case Waiting(blocker) =>
      assert s.sent[..s.pos] + [] == s.sent[..s.pos];
      HeadStays(s, t, Header);
    case Header =>
      if Raise(s, i, t) {
        HeadLeaves(s, s.(readers := s.readers[i := Failed]), Failed);
      } else {
        var header := Unread(s)[..4];
        BytesBack(header);
        var len := FrameLength(header);
        var u := s.(pos := s.pos + 4);
        assert s.sent[..s.pos + 4] == s.sent[..s.pos] + header;
        if len < 0 {
          HeadLeaves(s, u.(readers := s.readers[i := Failed]), Failed);
        } else {
          HeadStays(s, t, Body(len));
        }
      }
    case Body(len) =>
      if Raise(s, i, t) {
        HeadLeaves(s, s.(readers := s.readers[i := Failed]), Failed);
      } else {
        var frame := Unread(s)[..len];
        assert s.sent[..s.pos + len] == s.sent[..s.pos] + frame;
        HeadLeaves(s, s.(pos := s.pos + len, readers := s.readers[i := Got(frame)]), Got(frame));
      }
  }

  lemma NextKeepsInv(s: State, t: State)
    requires Inv(s) && Next(s, t)
    ensures Inv(t)
  {
    hide Inv, Start, Arrive, ReaderStep, Raise;
    if Start(s, t) {
      StartKeepsInv(s, t);
    } else if Arrive(s, t) {
      ArriveKeepsInv(s, t);
    } else {
      var i :| 0 <= i < |s.readers| && (ReaderStep(s, i, t) || Raise(s, i, t));
      ReaderKeepsInv(s, i, t);
    }
  }

  lemma InitHasInv(s: State)
    requires Init(s)
    ensures Inv(s)
  {
    assert Taken(s.readers, 0) == [];
  }

  lemma {:induction false} RunKeepsInv(run: seq<State>, i: nat)
    requires IsRun(run) && i < |run|
    ensures Inv(run[i])
  {
    hide Inv, Init, Next;
    if i == 0 {
      InitHasInv(run[0]);
    } else {
      RunKeepsInv(run, i - 1);
      NextKeepsInv(run[i - 1], run[i]);
    }
  }

  // ---------------------------------------------------------------- every interleaving

  /** Mutual exclusion and order: a call that is past its wait is the head of the queue, so there
      is at most one, every earlier call has left, and every later one waits on its predecessor. */
  lemma MutualExclusion(run: seq<State>, n: nat, i: nat)
    requires IsRun(run) && n < |run| && i < |run[n].readers| && Reading(run[n].readers[i])
    ensures run[n].lock.Acquired() && run[n].lock.waiters[0] == i
    ensures forall k :: 0 <= k < i ==> Over(run[n].readers[k])
    ensures forall k :: i < k < |run[n].readers| ==> run[n].readers[k] == Waiting(Some(k - 1))
  {
    var s := run[n];
    RunKeepsInv(run, n);
    OnlyHeadMoves(s, i);
    forall k | i < k < |s.readers| ensures s.readers[k] == Waiting(Some(k - 1)) {
      assert Queued(s, k);
    }
  }

  /** The lock is never lost: while any call is inside, the head is not held up by the lock. */
  lemma HeadIsNotBlocked(run: seq<State>, n: nat)
    requires IsRun(run) && n < |run| && run[n].lock.Acquired()
    ensures
      var s := run[n];
      var h := s.lock.waiters[0];
      && h < |s.readers|
      && (Reading(s.readers[h]) ||
          (s.readers[h].Waiting? && ReaderStep(s, h, s.(readers := s.readers[h := Header]))))
  {
    var s := run[n];
    RunKeepsInv(run, n);
    var h := s.lock.waiters[0];
    assert Queued(s, h);
  }

  /** The lock's assertion never fires, and what release removes is the releasing call's own future. */
  lemma ReleaseRemovesOwn(run: seq<State>, n: nat, i: nat)
    requires IsRun(run) && n + 1 < |run|
    requires i < |run[n].readers| && i < |run[n + 1].readers|
    requires !Over(run[n].readers[i]) && Over(run[n + 1].readers[i])
    ensures run[n].lock.Acquired() && run[n].lock.waiters[0] == i
    ensures run[n + 1].lock.waiters == run[n].lock.waiters[1..]
  {
    hide Init, Next, Aligned, Sized, Taken, Stream;
    RunKeepsInv(run, n);
    assert Next(run[n], run[n + 1]);
    StepRemovesOwn(run[n], run[n + 1], i);
  }

  lemma StepRemovesOwn(s: State, t: State, i: nat)
    requires Inv(s) && Next(s, t) && i < |s.readers| && i < |t.readers|
    requires !Over(s.readers[i]) && Over(t.readers[i])
    ensures s.lock.Acquired() && s.lock.waiters[0] == i && t.lock.waiters == s.lock.waiters[1..]
  {
    hide Inv, Aligned, Sized, Taken, Stream, Fifo;
    InvParts(s);
    var k :| 0 <= k < |s.readers| && (ReaderStep(s, k, t) || Raise(s, k, t));
    assert k == i;
    OnlyHeadMoves(s, i);
  }

  lemma {:induction false} TakenAt(readers: seq<Reader>, k: nat, j: nat)
    requires k < j <= |readers| && readers[k].Got?
    ensures Taken(readers, j)[k] == readers[k].frame
  {
    if k < j - 1 { TakenAt(readers, k, j - 1); }
  }

  lemma {:induction false} TakenFramable(readers: seq<Reader>, k: nat)
    requires k <= |readers| && Sized(readers)
    ensures Framable(Taken(readers, k))
  {
    if k > 0 { TakenFramable(readers, k - 1); }
  }

  /** The k-th call to start gets the k-th frame the peer sent, whole, unless it or an earlier one
      raised; whatever the peer sends after those frames, and however the bytes come in pieces. */
  lemma FramesInOrder(run: seq<State>, n: nat, k: nat, ms: seq<seq<Byte>>, stream: seq<Byte>)
    requires IsRun(run) && n < |run|
    requires k < |run[n].readers| && run[n].readers[k].Got? && NoneFailed(run[n].readers, k)
    requires Framable(ms) && k < |ms| && Stream(ms) <= stream && run[n].sent <= stream
    ensures run[n].readers[k].frame == ms[k]
  {
    hide IsRun, Stream, Taken, NoneFailed, Framable;
    var readers := run[n].readers;
    TakenSent(run, n, k);
    TakenAt(readers, k, k + 1);
    FramesAgree(Taken(readers, k + 1), ms, stream, k);
  }

  lemma TakenSent(run: seq<State>, n: nat, k: nat)
    requires IsRun(run) && n < |run|
    requires k < |run[n].readers| && run[n].readers[k].Got? && NoneFailed(run[n].readers, k)
    ensures Stream(Taken(run[n].readers, k + 1)) <= run[n].sent && Framable(Taken(run[n].readers, k + 1))
  {
    hide IsRun, Stream, Taken, Aligned;
    var s := run[n];
    RunKeepsInv(run, n);
    assert k < Left(s) by {
      assert k >= Left(s) ==> Queued(s, k);
    }
    assert Delivered(s, k + 1) && NoneFailed(s.readers, k + 1);
    TakenFramable(s.readers, k + 1);
  }

  // ---------------------------------------------------------------- when a call fails

  /** From s to t call i failed. */
  predicate Fails(s: State, t: State, i: nat) {
    i < |s.readers| && i < |t.readers| && !s.readers[i].Failed? && t.readers[i].Failed?
  }

  /** A failure that takes nothing from the stream: the stream itself raised. */
  predicate StreamRaises(s: State, t: State, i: nat) { Fails(s, t, i) && t.pos == s.pos }

  /** The first byte of a header tells the sign of the length. */
  lemma SignOfHeader(header: seq<Byte>)
    requires |header| == 4
    ensures FrameLength(header) < 0 <==> header[0] >= 0x80
    ensures header[0] < 0x80 ==> FrameLength(header) == FromBigEndian(header) < 0x8000_0000
  {
    hide FromBigEndian;
    FromBigEndianBound(header[1..]);
    HeaderValue(header);
  }

  lemma HeaderValue(header: seq<Byte>)
    requires |header| == 4
    ensures FromBigEndian(header) == FromBigEndian(header[1..]) + 0x100_0000 * (header[0] as int)
    ensures FromBigEndian(header[1..]) < 0x100_0000
  {
    var a: int, b: int, c: int, d: int := header[0], header[1], header[2], header[3];
    var three, two, one := header[..3], header[..3][..2], header[..3][..2][..1];
    assert one[..0] == [];
    assert FromBigEndian(one) == a;
    assert FromBigEndian(two) == a * 0x100 + b;
    assert FromBigEndian(three) == (a * 0x100 + b) * 0x100 + c;
    var last, first := header[1..], header[1..][..2];
    assert first[..1][..0] == [];
    assert FromBigEndian(first[..1]) == b;
    assert FromBigEndian(first) == b * 0x100 + c;
    assert FromBigEndian(last) == (b * 0x100 + c) * 0x100 + d;
  }

  /** In every interleaving a call that fails and has used up input has read a header with its sign
      bit set, and that is all it used up. */
  lemma FailureIsNegativeLength(run: seq<State>, n: nat, i: nat)
    requires IsRun(run) && n + 1 < |run| && Fails(run[n], run[n + 1], i) && !StreamRaises(run[n], run[n + 1], i)
    ensures var s := run[n];
      && s.readers[i].Header? && s.pos + 4 <= |s.sent| && s.sent[s.pos] >= 0x80 && run[n + 1].pos == s.pos + 4
  {
    hide Init, Stream, Taken, FromBigEndian, Aligned, Fifo, Sized;
    var s, t := run[n], run[n + 1];
    RunKeepsInv(run, n);
    InvParts(s);
    assert Next(s, t);
    var k :| 0 <= k < |s.readers| && (ReaderStep(s, k, t) || Raise(s, k, t));
    assert k == i;
    SignOfHeader(Unread(s)[..4]);
  }

  // ---------------------------------------------------------------- when a call goes on

  /** The head's header: with four bytes unread the call can take them, and goes on to its body
      unless the sign bit is set. */
  lemma HeaderTaken(run: seq<State>, n: nat, i: nat) returns (t: State)
    requires IsRun(run) && n < |run| && i < |run[n].readers| && run[n].readers[i].Header?
    requires run[n].pos + 4 <= |run[n].sent|
    ensures Next(run[n], t) && t.pos == run[n].pos + 4
    ensures t.readers == run[n].readers[i := if run[n].sent[run[n].pos] < 0x80
      then Body(FromBigEndian(run[n].sent[run[n].pos..run[n].pos + 4])) else Failed]
  {
    hide IsRun, Stream, Taken, FromBigEndian, Aligned, Sized;
    var s := run[n];
    RunKeepsInv(run, n);
    OnlyHeadMoves(s, i);
    var header := Unread(s)[..4];
    assert header == s.sent[s.pos..s.pos + 4];
    SignOfHeader(header);
    var u := s.(pos := s.pos + 4);
    t := if FrameLength(header) < 0 then Release(u.(readers := s.readers[i := Failed]))
         else u.(readers := s.readers[i := Body(FrameLength(header))]);
    assert ReaderStep(s, i, t);
  }

  /** The head's body: with as many bytes unread as announced the call can take them, and then it
      has its frame. */
  lemma BodyTaken(run: seq<State>, n: nat, i: nat) returns (t: State)
    requires IsRun(run) && n < |run| && i < |run[n].readers| && run[n].readers[i].Body?
    requires run[n].pos + run[n].readers[i].len <= |run[n].sent|
    ensures Next(run[n], t) && t.pos == run[n].pos + run[n].readers[i].len
    ensures t.readers == run[n].readers[i := Got(run[n].sent[run[n].pos..run[n].pos + run[n].readers[i].len])]
  {
    hide IsRun, Stream, Taken, Aligned, Sized;
    var s := run[n];
    RunKeepsInv(run, n);
    OnlyHeadMoves(s, i);
    var len := s.readers[i].len;
    assert Unread(s)[..len] == s.sent[s.pos..s.pos + len];
    t := Release(s.(pos := s.pos + len, readers := s.readers[i := Got(Unread(s)[..len])]));
    assert ReaderStep(s, i, t);
  }

  // ---------------------------------------------------------------- a peer that sends frames

  /** Each length fits the signed header. */
  predicate Sendable(ms: seq<seq<Byte>>) { forall i :: 0 <= i < |ms| ==> |ms[i]| < 0x8000_0000 }

  predicate Raised(s: State, t: State) { exists i :: 0 <= i < |s.readers| && StreamRaises(s, t, i) }

  /** The stream does not raise in the first n steps. */
  predicate NoRaise(run: seq<State>, n: nat)
    requires n < |run|
  {
    forall k :: 0 <= k < n ==> !Raised(run[k], run[k + 1])
  }

  /** Frames within the bytes of other frames are the first of those. */
  lemma {:induction false} StreamPrefix(a: seq<seq<Byte>>, b: seq<seq<Byte>>, more: seq<Byte>)
    requires Framable(a) && Framable(b) && Stream(a) + more == Stream(b)
    ensures |a| <= |b| && a == b[..|a|] && more == Stream(b[|a|..])
  {
    hide Frame;
    if a == [] {
      assert b[0..] == b;
    } else {
      if b == [] { FrameNotEmpty(a[0]); }
      assert Frame(a[0]) + (Stream(a[1..]) + more) == Frame(b[0]) + Stream(b[1..]);
      FirstFrameAgrees(a[0], Stream(a[1..]) + more, b[0], Stream(b[1..]));
      StreamPrefix(a[1..], b[1..], more);
      assert b[1..][..|a| - 1] == b[..|a|][1..] && b[1..][|a| - 1..] == b[|a|..];
      assert a == [a[0]] + a[1..];
    }
  }

  lemma FrameNotEmpty(m: seq<Byte>)
    ensures |Frame(m)| >= 4
  {
    hide BigEndian;
  }
  lemma FirstByte(m: seq<Byte>)
    requires |m| < 0x8000_0000
    ensures |Frame(m)| >= 4 && Frame(m)[0] < 0x80
  {
    hide BigEndian, FromBigEndian;
    Pow2Widths();
    BigEndianRoundTrip(4, |m|);
    SignOfHeader(BigEndian(4, |m|));
    SignedOfBits(|m|);
  }

  /** Where the head stands in the frames that the peer sends: those before it have been taken, and
      what it has taken of its own and the rest of the stream are its frame and those after it. */
  lemma HeadPlace(s: State, ms: seq<seq<Byte>>)
    requires Inv(s) && NoneFailed(s.readers, |s.readers|) && Framable(ms) && s.sent <= Stream(ms)
    ensures 0 <= Left(s) <= |s.readers| && Left(s) <= |ms| && s.pos <= |s.sent|
    ensures Taken(s.readers, Left(s)) == ms[..Left(s)]
    ensures Partial(s) + Stream(ms)[s.pos..] == Stream(ms[Left(s)..])
  {
    hide Stream, Taken, Partial, Inv, Framable, Sized;
    HeadAligned(s);
    TakenFramable(s.readers, Left(s));
    PlaceOf(Taken(s.readers, Left(s)), Partial(s), s.sent, s.pos, ms);
  }

  lemma PlaceOf(taken: seq<seq<Byte>>, partial: seq<Byte>, sent: seq<Byte>, pos: nat, ms: seq<seq<Byte>>)
    requires Framable(taken) && Framable(ms) && sent <= Stream(ms) && pos <= |sent|
    requires sent[..pos] == Stream(taken) + partial
    ensures |taken| <= |ms| && taken == ms[..|taken|] && partial + Stream(ms)[pos..] == Stream(ms[|taken|..])
  {
    hide Stream, Framable;
    var whole := Stream(ms);
    assert whole[..pos] == sent[..pos];
    assert whole == (Stream(taken) + partial) + whole[pos..];
    assert whole == Stream(taken) + (partial + whole[pos..]);
    StreamPrefix(taken, ms, partial + whole[pos..]);
  }

  lemma HeadAligned(s: State)
    requires Inv(s) && NoneFailed(s.readers, |s.readers|)
    ensures Sized(s.readers) && 0 <= Left(s) <= |s.readers| && s.pos <= |s.sent|
    ensures s.sent[..s.pos] == Stream(Taken(s.readers, Left(s))) + Partial(s)
  {
    hide Stream, Taken, Partial, Fifo, Sized;
    assert NoneFailed(s.readers, Left(s));
  }

  lemma FirstOfRest(ms: seq<seq<Byte>>, h: nat)
    requires Sendable(ms) && h <= |ms| && Stream(ms[h..]) != []
    ensures h < |ms| && |Stream(ms[h..])| >= 4 + |ms[h]| && Stream(ms[h..])[0] < 0x80
    ensures Stream(ms[h..]) == Frame(ms[h]) + Stream(ms[h + 1..])
  {
    hide Frame;
    assert ms[h..][1..] == ms[h + 1..];
    FirstByte(ms[h]);
    FrameLengthOf(ms[h]);
  }

  lemma FrameLengthOf(m: seq<Byte>)
    ensures |Frame(m)| == 4 + |m|
  {
    hide BigEndian;
  }

  /** While the stream does not raise and the peer sends nothing but frames that the signed header
      can announce, no call fails. */
  lemma {:induction false} NoCallFails(run: seq<State>, n: nat, ms: seq<seq<Byte>>)
    requires IsRun(run) && n < |run| && NoRaise(run, n) && Sendable(ms) && run[n].sent <= Stream(ms)
    ensures NoneFailed(run[n].readers, |run[n].readers|)
  {
    hide Next, Stream, Raised, Inv, Sendable;
    if n > 0 {
      var s, t := run[n - 1], run[n];
      assert Next(s, t);
      StepGrows(s, t);
      NoCallFails(run, n - 1, ms);
      RunKeepsInv(run, n - 1);
      forall i | 0 <= i < |t.readers|
        ensures !t.readers[i].Failed?
      {
        if t.readers[i].Failed? {
          assert Fails(s, t, i);
          assert !StreamRaises(s, t, i) by { NotRaised(s, t, i); }
          FailureIsNegativeLength(run, n - 1, i);
          NoNegativeLength(s, ms, i);
        }
      }
    }
  }

  lemma NotRaised(s: State, t: State, i: nat)
    requires !Raised(s, t) && i < |s.readers|
    ensures !StreamRaises(s, t, i)
  {
  }

  lemma StepGrows(s: State, t: State)
    requires Next(s, t)
    ensures s.sent <= t.sent && |s.readers| <= |t.readers|
    ensures forall i :: |s.readers| <= i < |t.readers| ==> t.readers[i].Waiting?
  {
  }

  lemma NoNegativeLength(s: State, ms: seq<seq<Byte>>, i: nat)
    requires Inv(s) && NoneFailed(s.readers, |s.readers|) && Sendable(ms) && s.sent <= Stream(ms)
    requires i < |s.readers| && s.readers[i].Header? && s.pos + 4 <= |s.sent|
    ensures s.sent[s.pos] < 0x80
  {
    hide Stream, Taken, Aligned, Sized;
    OnlyHeadMoves(s, i);
    HeadPlace(s, ms);
    assert Partial(s) == [];
    FirstOfRest(ms, i);
  }
  /** No step can take a call further, other than by the stream raising. */
  ghost predicate Quiet(s: State) {
    forall t :: Next(s, t) && |t.readers| == |s.readers| && t.readers != s.readers ==> Raised(s, t)
  }

  /** Every frame is delivered: once the peer has sent its frames, the stream has not raised and no
      call can go further, the k-th call has the k-th frame, for as many as there are of both. */
  lemma EveryFrameDelivered(run: seq<State>, n: nat, ms: seq<seq<Byte>>, k: nat)
    requires IsRun(run) && n < |run| && NoRaise(run, n) && Sendable(ms) && run[n].sent == Stream(ms)
    requires Quiet(run[n]) && k < |run[n].readers| && k < |ms|
    ensures run[n].readers[k] == Got(ms[k])
  {
    hide IsRun, NoRaise, Next, Raised, Inv, Stream, Taken, Partial, Sendable, Quiet;
    var s := run[n];
    var h := Left(s);
    RunKeepsInv(run, n);
    NoCallFails(run, n, ms);
    SendableFramable(ms);
    HeadPlace(s, ms);
    if h < |s.readers| && h < |ms| {
      HeadGoesOn(run, n, ms);
    } else {
      LeftAreOver(s, k);
      TakenAt(s.readers, k, h);
    }
  }

  lemma SendableFramable(ms: seq<seq<Byte>>)
    requires Sendable(ms)
    ensures Framable(ms)
  {}

  lemma LeftAreOver(s: State, k: nat)
    requires Inv(s) && NoneFailed(s.readers, |s.readers|) && k < Left(s)
    ensures k < |s.readers| && s.readers[k].Got?
  {
    hide Aligned, Sized, Stream, Taken;
    assert Over(s.readers[k]);
  }

  /** A head whose frame has arrived can go on. */
  lemma HeadGoesOn(run: seq<State>, n: nat, ms: seq<seq<Byte>>)
    requires IsRun(run) && n < |run| && Sendable(ms) && run[n].sent == Stream(ms)
    requires NoneFailed(run[n].readers, |run[n].readers|) && 0 <= Left(run[n]) < |run[n].readers|
    requires Left(run[n]) < |ms|
    ensures !Quiet(run[n])
  {
    hide IsRun, Next, Inv, Stream, Taken, Partial, Sendable, ReaderStep;
    var s := run[n];
    var h := Left(s);
    RunKeepsInv(run, n);
    SendableFramable(ms);
    HeadPlace(s, ms);
    FrameNotEmpty(ms[h]);
    StreamAt(ms, h);
    HeadQueued(s);
    HeadIsNotBlocked(run, n);
    if s.readers[h].Waiting? {
      var t := s.(readers := s.readers[h := Header]);
      assert Next(s, t) by { ReaderNext(s, h, t); }
      assert t.readers[h] == Header;
      assert !Raised(s, t);
    } else if s.readers[h].Header? {
      PartialOf(s);
      var t := HeaderTaken(run, n, h);
      assert t.readers[h] != Header;
      assert !Raised(s, t);
    } else {
      BodyArrived(s, ms);
      var t := BodyTaken(run, n, h);
      assert t.readers[h].Got?;
      assert !Raised(s, t);
    }
  }

  lemma StreamAt(ms: seq<seq<Byte>>, h: nat)
    requires h < |ms|
    ensures Stream(ms[h..]) == Frame(ms[h]) + Stream(ms[h + 1..])
  {
    hide Frame;
    assert ms[h..][1..] == ms[h + 1..];
  }

  lemma ReaderNext(s: State, i: nat, t: State)
    requires i < |s.readers| && ReaderStep(s, i, t)
    ensures Next(s, t)
  {
    hide ReaderStep, Raise, Start, Arrive;
  }

  lemma HeadQueued(s: State)
    requires Inv(s) && 0 <= Left(s) < |s.readers|
    ensures s.lock.Acquired() && s.lock.waiters[0] == Left(s)
    ensures var r := s.readers[Left(s)]; r.Waiting? || r.Header? || r.Body?
  {
    hide Aligned, Sized, Stream, Taken;
    assert Queued(s, Left(s));
  }

  lemma PartialOf(s: State)
    requires 0 <= Left(s) < |s.readers| && !s.readers[Left(s)].Body?
    ensures Partial(s) == []
  {}

  /** A head that has taken its header finds its whole body. */
  lemma BodyArrived(s: State, ms: seq<seq<Byte>>)
    requires Inv(s) && Sendable(ms) && s.sent == Stream(ms) && NoneFailed(s.readers, |s.readers|)
    requires 0 <= Left(s) < |s.readers| && Left(s) < |ms| && s.readers[Left(s)].Body?
    ensures s.pos + s.readers[Left(s)].len <= |s.sent|
  {
    hide Stream, Taken, Aligned, Fifo, BigEndian, FromBigEndian;
    var h := Left(s);
    SendableFramable(ms);
    HeadPlace(s, ms);
    StreamAt(ms, h);
    var len := s.readers[h].len;
    assert len < 0x8000_0000;
    var rest := s.sent[s.pos..];
    HeaderBack(ms[h], Stream(ms[h + 1..]));
    assert Partial(s) + rest == Frame(ms[h]) + Stream(ms[h + 1..]);
    LengthAnnounced(len, rest, Frame(ms[h]) + Stream(ms[h + 1..]));
    assert rest == (Partial(s) + rest)[4..];
  }

  lemma LengthAnnounced(len: nat, rest: seq<Byte>, b: seq<Byte>)
    requires len < 0x8000_0000 && b == BigEndian(4, len) + rest
    ensures |b| >= 4 && FromBigEndian(b[..4]) == len
  {
    hide BigEndian, FromBigEndian;
    Pow2Widths();
    BigEndianRoundTrip(4, len);
    assert b[..4] == BigEndian(4, len);
  }

  // ---------------------------------------------------------------- writing

  datatype Flushed = Sent | StreamError | TooLong

  /** The writing half of TTornadoStreamTransport; out is what the stream has accepted. */
  class FrameWriter {
    var wbuf: seq<Byte>
    var out: seq<Byte>

    constructor ()
      ensures wbuf == [] && out == []
    {
      wbuf := [];
      out := [];
    }

    method Write(buf: seq<Byte>)
      modifies this`wbuf
      ensures wbuf == old(wbuf) + buf
    {
      wbuf := wbuf + buf;
    }

    /** The buffer is reset before the stream is written, so a message whose write raises is lost
        rather than sent twice; one too long for struct.pack('!i') stays. */
    method Flush(streamRaises: bool) returns (r: Flushed)
      modifies this
      ensures r == if |old(wbuf)| >= 0x8000_0000 then TooLong else if streamRaises then StreamError else Sent
      ensures wbuf == if r.TooLong? then old(wbuf) else []
      ensures out == if r.Sent? then old(out) + Frame(old(wbuf)) else old(out)
    {
      var frame := wbuf;
      if |frame| >= 0x8000_0000 { return TooLong; }
      var frameLength := BigEndian(4, |frame|);
      wbuf := [];
      if streamRaises { return StreamError; }
      out := out + (frameLength + frame);
      return Sent;
    }
  }
}
