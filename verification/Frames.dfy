/** Length-prefixed frames on a byte stream, shared by the framed transports. */
module Frames {
  import opened Words

  const FRAME_HEADER := 4

  /** A message as it travels: its length in four big-endian bytes, then its bytes. */
  function Frame(m: seq<Byte>): seq<Byte> { BigEndian(FRAME_HEADER, |m|) + m }

  function Stream(ms: seq<seq<Byte>>): seq<Byte> {
    if ms == [] then [] else Frame(ms[0]) + Stream(ms[1..])
  }

  function Concat(ms: seq<seq<Byte>>): seq<Byte> {
    if ms == [] then [] else ms[0] + Concat(ms[1..])
  }

  /** Each length is one the header can hold. */
  predicate Framable(ms: seq<seq<Byte>>) { forall i :: 0 <= i < |ms| ==> |ms[i]| < 0x1_0000_0000 }

  lemma HeaderBack(m: seq<Byte>, rest: seq<Byte>)
    requires |m| < 0x1_0000_0000
    ensures |Frame(m) + rest| >= 4 && FromBigEndian((Frame(m) + rest)[..4]) == |m|
    ensures (Frame(m) + rest)[4..] == m + rest
  {
    hide BigEndian, FromBigEndian;
    Pow2Widths();
    BigEndianRoundTrip(4, |m|);
    assert (Frame(m) + rest)[..4] == BigEndian(4, |m|);
    assert (Frame(m) + rest)[4..] == m + rest;
  }

  lemma {:induction false} StreamAppend(ms: seq<seq<Byte>>, m: seq<Byte>)
    ensures Stream(ms + [m]) == Stream(ms) + Frame(m)
  {
    hide BigEndian;
    if ms == [] {
      assert Stream([m][1..]) == [];
    } else {
      StreamAppend(ms[1..], m);
      assert (ms + [m])[1..] == ms[1..] + [m];
    }
  }

  lemma FirstFrameAgrees(m: seq<Byte>, tail: seq<Byte>, n: seq<Byte>, tail': seq<Byte>)
    requires |m| < 0x1_0000_0000 && |n| < 0x1_0000_0000
    requires Frame(m) + tail == Frame(n) + tail'
    ensures m == n && tail == tail'
  {
    hide Frame, FromBigEndian;
    HeaderBack(m, tail);
    HeaderBack(n, tail');
    assert m == (m + tail)[..|m|] && n == (n + tail')[..|n|];
    assert tail == (m + tail)[|m|..] && tail' == (n + tail')[|n|..];
  }

  /** Frames delimit themselves: two runs of frames that begin the same bytes hold the same
      messages, as far as both go. */
  lemma {:induction false} FramesAgree(ms: seq<seq<Byte>>, ns: seq<seq<Byte>>, whole: seq<Byte>, k: nat)
    requires Framable(ms) && Framable(ns)
    requires Stream(ms) <= whole && Stream(ns) <= whole
    requires k < |ms| && k < |ns|
    ensures ms[k] == ns[k]
  {
    hide Frame;
    var after, after' := whole[|Stream(ms)|..], whole[|Stream(ns)|..];
    var tail, tail' := Stream(ms[1..]) + after, Stream(ns[1..]) + after';
    assert whole == Frame(ms[0]) + tail;
    assert whole == Frame(ns[0]) + tail';
    FirstFrameAgrees(ms[0], tail, ns[0], tail');
    if k > 0 { FramesAgree(ms[1..], ns[1..], tail, k - 1); }
  }
}
