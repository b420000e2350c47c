/** TFramedTransport: reading a framed stream in pieces, and writing frames. */
module FramedTransport {
  import opened Options
  import opened Words
  import opened Frames

  datatype FrameError = EndOfFile | UnexpectedEnd | TooLarge(size: nat) | NotEnough(frameSize: nat,
      wanted: nat) | WriteFailed

  /** frameSize is what is left of the current frame, and stream what the underlying transport has
      yet to deliver. */
  datatype FState = FState(frameSize: nat, stream: seq<Byte>)

  // ---------------------------------------------------------------- what a call does

  datatype Entered = InFrame(size: nat, rest: seq<Byte>) | NoFrame(err: FrameError, rest: seq<Byte>)

  /** The frame a call works in: the current one, or the next one on the stream. */
  function Enter(max: U32, s: FState): Entered {
    if s.frameSize != 0 then InFrame(s.frameSize, s.stream)
    else if |s.stream| < 4 then NoFrame(if s.stream == [] then EndOfFile else UnexpectedEnd, [])
    else
      var size := FromBigEndian(s.stream[..4]);
      if size > max then NoFrame(TooLarge(size), s.stream[4..]) else InFrame(size, s.stream[4..])
  }

  /** One read of the buffered reader: some bytes, and none only when none were asked for or the
      stream has ended. */
  predicate Took(stream: seq<Byte>, most: nat, got: seq<Byte>, rest: seq<Byte>) {
    && stream == got + rest && |got| <= most
    && (most > 0 && stream != [] ==> got != [])
  }

  function AtEnd(stream: seq<Byte>, most: nat): Option<FrameError> {
    if most > 0 && stream == [] then Some(EndOfFile) else None
  }

  /** What Read(buf) with len(buf) == len returns, and leaves. The length is compared as a uint32. */
  predicate ReadRel(max: U32, s: FState, len: nat, got: seq<Byte>, err: Option<FrameError>, t: FState) {
    match Enter(max, s)
    case NoFrame(e, rest) => got == [] && err == Some(e) && t == FState(0, rest)
    case InFrame(f, rest) =>
      if ToU32(len) <= f then
        Took(rest, len, got, t.stream) && err == AtEnd(rest, len) && t.frameSize == ToU32(f - |got|)
      else if f > 0 then
        && Took(rest, f, got, t.stream) && t.frameSize == f - |got|
        && err == if rest == [] then Some(EndOfFile) else Some(NotEnough(f, len))
      else EmptyFrameRel(max, rest, len, got, err, t)
  }

  /** An empty frame: the inner call of Read enters the frame after it, and when that fails the
      outer call reads on regardless. */
  predicate EmptyFrameRel(max: U32, rest: seq<Byte>, len: nat, got: seq<Byte>, err: Option<FrameError>, t: FState) {
    match Enter(max, FState(0, rest))
    case InFrame(f, rest') => got == [] && err == Some(NotEnough(0, len)) && t == FState(f, rest')
    case NoFrame(_, rest') =>
      Took(rest', len, got, t.stream) && err == AtEnd(rest', len) && t.frameSize == ToU32(-|got|)
  }

  predicate ReadByteRel(max: U32, s: FState, got: seq<Byte>, err: Option<FrameError>, t: FState) {
    match Enter(max, s)
    case NoFrame(e, rest) => got == [] && err == Some(e) && t == FState(0, rest)
    case InFrame(f, rest) =>
      if f < 1 then got == [] && err == Some(NotEnough(f, 1)) && t == FState(f, rest)
      else Took(rest, 1, got, t.stream) && err == AtEnd(rest, 1) && t.frameSize == f - |got|
  }

  // ---------------------------------------------------------------- the transport

  class TFramedTransport {
    var stream: seq<Byte>
    var sent: seq<Byte>
    var buf: seq<Byte>
    var frameSize: U32
    const maxLength: U32
    ghost var header: nat      // of the frame entered last
    ghost var delivered: nat   // bytes of it returned so far

    /** What has been returned of the current frame and what is left of it make up its header. */
    ghost predicate Accounted()
      reads this
    {
      delivered + frameSize == header
    }

    function State(): FState
      reads this
    {
      FState(frameSize, stream)
    }

    constructor (bytes: seq<Byte>, max: U32)
      ensures State() == FState(0, bytes) && buf == [] && sent == [] && maxLength == max && Accounted()
    {
      stream, sent, buf, frameSize, maxLength := bytes, [], [], 0, max;
      header, delivered := 0, 0;
    }

    /** bufio.Reader.Read: however many bytes the stream happens to give. */
    method ReaderRead(most: nat) returns (got: seq<Byte>, err: Option<FrameError>)
      modifies this`stream
      ensures Took(old(stream), most, got, stream) && err == AtEnd(old(stream), most)
    {
      if most == 0 { return [], None; }
      if stream == [] { return [], Some(EndOfFile); }
      var n :| 1 <= n <= most && n <= |stream|;
      got := stream[..n];
      stream := stream[n..];
      err := None;
    }

    /** io.ReadFull into the four-byte buffer. */
    method ReadFullHeader() returns (bytes: seq<Byte>, err: Option<FrameError>)
      modifies this`stream
      ensures |old(stream)| >= 4 ==> err == None && bytes == old(stream)[..4] && stream == old(stream)[4..]
      ensures |old(stream)| < 4 ==>
          stream == [] && err == Some(if old(stream) == [] then EndOfFile else UnexpectedEnd)
    {
      bytes := [];
      while |bytes| < 4
        invariant |bytes| <= 4 && old(stream) == bytes + stream
        decreases 4 - |bytes|
      {
        var more, e := ReaderRead(4 - |bytes|);
        if e.Some? {
          assert old(stream) == bytes;
          return bytes, Some(if bytes == [] then EndOfFile else UnexpectedEnd);
        }
        bytes := bytes + more;
      }
      err := None;
    }

    method ReadFrameHeader() returns (size: U32, err: Option<FrameError>)
      requires frameSize == 0
      modifies this`stream
      ensures match Enter(maxLength, old(State()))
              case InFrame(f, rest) => size == f && err == None && stream == rest
              case NoFrame(e, rest) => size == 0 && err == Some(e) && stream == rest
    {
      var bytes, e := ReadFullHeader();
      if e.Some? { return 0, e; }
      HeaderFits(bytes);
      var n := FromBigEndian(bytes);
      if n > maxLength { return 0, Some(TooLarge(n)); }
      return n, None;
    }

    method EnterFrame() returns (err: Option<FrameError>)
      modifies this`stream, this`frameSize, this`header, this`delivered
      ensures match Enter(maxLength, old(State()))
              case InFrame(f, rest) => err == None && State() == FState(f, rest)
              case NoFrame(e, rest) => err == Some(e) && State() == FState(0, rest)
      ensures old(Accounted()) ==> Accounted()
    {
      err := None;
      if frameSize == 0 {
        var size, e := ReadFrameHeader();
        frameSize, err := size, e;
        header, delivered := size, 0;
      }
    }

    method Read(len: nat) returns (got: seq<Byte>, err: Option<FrameError>)
      modifies this`stream, this`frameSize, this`header, this`delivered
      ensures ReadRel(maxLength, old(State()), len, got, err, State())
      ensures old(Accounted()) && len < 0x1_0000_0000 && !Stray(maxLength, old(State()), len) ==> Accounted()
      decreases len
    {
      hide FromBigEndian, Stray, ToU32;
      if len < 0x1_0000_0000 { ToU32Small(len); }
      ToU32Small(0);
      err := EnterFrame();
      if err.Some? { return [], err; }
      ghost var rest := stream;
      if frameSize < ToU32(len) {
        var size := frameSize;
        ToU32Small(size);
        NeverStray(maxLength, State(), size);
        got, err := Read(frameSize);
        ghost var next := Enter(maxLength, FState(0, rest));
        if size == 0 && next.InFrame? { ToU32Small(next.size); }
        assert size > 0 ==> |got| <= size;
        if size > 0 { ToU32Small(size - |got|); }
        if err == None { return got, Some(NotEnough(size, len)); }
        assert size > 0 ==> stream == [] && rest == [];
        if size == 0 && !Stray(maxLength, old(State()), len) { NothingStray(maxLength, old(State()), len); }
      }
      ToU32Small(frameSize);
      got, err := ReaderRead(len);
      if |got| <= frameSize { ToU32Small(frameSize - |got|); }
      frameSize := ToU32(frameSize - |got|);
      delivered := delivered + |got|;
    }

    method ReadByte() returns (got: seq<Byte>, err: Option<FrameError>)
      modifies this`stream, this`frameSize, this`header, this`delivered
      ensures ReadByteRel(maxLength, old(State()), got, err, State())
      ensures old(Accounted()) ==> Accounted()
    {
      hide FromBigEndian;
      err := EnterFrame();
      if err.Some? { return [], err; }
      if frameSize < 1 { return [], Some(NotEnough(frameSize, 1)); }
      got, err := ReaderRead(1);
      if err == None {
        frameSize := frameSize - 1;
        delivered := delivered + 1;
      }
    }

    method Write(bytes: seq<Byte>)
      modifies this`buf
      ensures buf == old(buf) + bytes
    {
      buf := buf + bytes;
    }

    /** The underlying transport accepts bytes until room runs out, if it ever does. */
    method TransportWrite(bytes: seq<Byte>, room: Option<nat>) returns (left: Option<nat>, failed: bool)
      modifies this`sent
      ensures failed == (room.Some? && room.value < |bytes|)
      ensures sent == old(sent) + if failed then bytes[..room.value] else bytes
      ensures !failed ==> left == if room.Some? then Some(room.value - |bytes|) else None
    {
      if room.Some? && room.value < |bytes| {
        sent := sent + bytes[..room.value];
        return None, true;
      }
      sent := sent + bytes;
      left := if room.Some? then Some(room.value - |bytes|) else None;
      failed := false;
    }

    /** One frame goes out, whole or cut off where the transport failed, and the buffer is empty
        either way. */
    method Flush(room: Option<nat>) returns (err: Option<FrameError>)
      modifies this`buf, this`sent
      ensures buf == []
      ensures
        var frame := BigEndian(4, ToU32(|old(buf)|)) + old(buf);
        && err == (if room.Some? && room.value < |frame| then Some(WriteFailed) else None)
        && sent == old(sent) + if err.Some? then frame[..room.value] else frame
      ensures |old(buf)| < 0x1_0000_0000 && err == None ==> sent == old(sent) + Frame(old(buf))
    {
      hide BigEndian;
      var size := |buf|;
      var head := BigEndian(4, ToU32(size));
      ghost var frame := head + buf;
      var left, failed := TransportWrite(head, room);
      if failed {
        assert head[..room.value] == frame[..room.value];
        buf := [];
        return Some(WriteFailed);
      }
      if size > 0 {
        var body := buf;
        ghost var before := sent;
        left, failed := TransportWrite(body, left);
        buf := [];
        if failed {
          assert frame[..room.value] == head + body[..room.value - 4];
          return Some(WriteFailed);
        }
      }
      assert sent == old(sent) + frame;
      err := None;
    }
  }

  lemma HeaderFits(bytes: seq<Byte>)
    requires |bytes| == 4
    ensures 0 <= FromBigEndian(bytes) < 0x1_0000_0000
  {
    FromBigEndianBound(bytes);
    Pow2Widths();
  }

  /** An empty frame followed by a header that is too large and by at least one more byte: Read then
      returns bytes that belong to no frame, without an error. */
  predicate Stray(max: U32, s: FState, len: nat) {
    && len > 0 && s.frameSize == 0 && |s.stream| > 8
    && FromBigEndian(s.stream[..4]) == 0 && FromBigEndian(s.stream[4..8]) > max
  }

  lemma NeverStray(max: U32, s: FState, len: nat)
    requires len == 0 || s.frameSize != 0
    ensures !Stray(max, s, len)
  {
  }

  lemma NothingStray(max: U32, s: FState, len: nat)
    requires len > 0 && s.frameSize == 0 && !Stray(max, s, len)
    requires Enter(max, s).InFrame? && Enter(max, s).size == 0 && Enter(max, FState(0, Enter(max, s).rest)).NoFrame?
    ensures Enter(max, FState(0, Enter(max, s).rest)).rest == []
  {
    hide FromBigEndian;
    var rest := s.stream[4..];
    assert |rest| >= 4 ==> rest[..4] == s.stream[4..8];
  }

  lemma ToU32Small(n: int)
    requires 0 <= n < 0x1_0000_0000
    ensures ToU32(n) == n
  {
  }
}
