/** The variable-length and zigzag integer encodings of the compact protocol, as arithmetic. */
module Varint {
  import opened Options
  import opened Words

  /** The base-128 digits of u, least significant first, a continuation bit on all but the last. */
  function Digits(u: nat): (b: seq<Byte>)
    ensures b != []
  {
    if u < 0x80 then [u] else [u % 0x80 + 0x80] + Digits(u / 0x80)
  }

  /** What a reader without a length cap finds: the value of the bytes up to and including the
      first whose top bit is clear, and the bytes after it. */
  function Undigits(b: seq<Byte>): (r: Option<(nat, seq<Byte>)>)
    ensures r.Some? ==> |r.value.1| < |b|
  {
    if b == [] then None
    else if b[0] < 0x80 then Some((b[0], b[1..]))
    else match Undigits(b[1..])
      case None => None
      case Some((u, rest)) => Some((b[0] - 0x80 + 0x80 * u, rest))
  }

  lemma UndigitsStep(d: Byte, b: seq<Byte>, u: nat, rest: seq<Byte>)
    requires d >= 0x80 && Undigits(b) == Some((u, rest))
    ensures Undigits([d] + b) == Some((d - 0x80 + 0x80 * u, rest))
  {
    assert ([d] + b)[1..] == b;
  }

  lemma {:induction false} UndigitsOfDigits(u: nat, rest: seq<Byte>)
    ensures Undigits(Digits(u) + rest) == Some((u, rest))
  {
    if u < 0x80 {
      assert Digits(u) + rest == [u] + rest;
    } else {
      UndigitsOfDigits(u / 0x80, rest);
      assert Digits(u) + rest == [u % 0x80 + 0x80] + (Digits(u / 0x80) + rest);
      UndigitsStep(u % 0x80 + 0x80, Digits(u / 0x80) + rest, u / 0x80, rest);
    }
  }

  /** Only the last byte of a varint has a clear top bit. */
  predicate IsVarint(b: seq<Byte>) {
    b != [] && b[|b| - 1] < 0x80 && forall i :: 0 <= i < |b| - 1 ==> b[i] >= 0x80
  }

  lemma {:induction false} DigitsAreVarint(u: nat)
    ensures IsVarint(Digits(u))
  {
    if u >= 0x80 {
      DigitsAreVarint(u / 0x80);
      var tail := Digits(u / 0x80);
      forall i | 0 <= i < |Digits(u)| - 1
        ensures Digits(u)[i] >= 0x80
      {
        if i > 0 { assert Digits(u)[i] == tail[i - 1]; }
      }
    }
  }

  /** No varint of the same value is shorter, and the shortest one is unique. */
  lemma {:induction false} DigitsShortest(u: nat, b: seq<Byte>)
    requires IsVarint(b) && Undigits(b) == Some((u, []))
    ensures |Digits(u)| <= |b|
    ensures |Digits(u)| == |b| ==> b == Digits(u)
  {
    if |b| > 1 {
      var tail := Undigits(b[1..]).value.0;
      assert b == [b[0]] + b[1..];
      DigitsShortest(tail, b[1..]);
      if u >= 0x80 {
        assert u / 0x80 == tail && u % 0x80 + 0x80 == b[0];
      }
    }
  }

  /** One of the first k bytes has a clear top bit. */
  predicate EndsWithin(b: seq<Byte>, k: nat) {
    exists i :: 0 <= i < |b| && i < k && b[i] < 0x80
  }

  /** The reader consumes at most k bytes if and only if one of the first k ends the varint, and
      runs out of input if and only if no byte does. */
  lemma {:induction false} ConsumedWithinIff(b: seq<Byte>, k: nat)
    ensures Undigits(b).Some? <==> EndsWithin(b, |b|)
    ensures Undigits(b).Some? ==> (|b| - |Undigits(b).value.1| <= k <==> EndsWithin(b, k))
  {
    if b != [] && b[0] >= 0x80 {
      var tail := b[1..];
      ConsumedWithinIff(tail, if k == 0 then 0 else k - 1);
      ConsumedWithinIff(tail, |tail|);
      assert forall i :: 0 <= i < |tail| ==> tail[i] == b[i + 1];
      EndsLater(b, k);
      EndsLater(b, |b|);
    }
  }

  lemma EndsLater(b: seq<Byte>, k: nat)
    requires b != [] && b[0] >= 0x80
    ensures EndsWithin(b, k) <==> k > 0 && EndsWithin(b[1..], k - 1)
  {
    if EndsWithin(b, k) {
      var i :| 0 <= i < |b| && i < k && b[i] < 0x80;
      assert b[1..][i - 1] == b[i];
    }
    if k > 0 && EndsWithin(b[1..], k - 1) {
      var i :| 0 <= i < |b[1..]| && i < k - 1 && b[1..][i] < 0x80;
      assert b[i + 1] == b[1..][i];
    }
  }

  /** There is no other bound: any number of bytes may go before the one that ends a varint. */
  lemma {:induction false} AnyLengthIsRead(k: nat, rest: seq<Byte>)
    ensures Undigits(Continued(k) + [0] + rest) == Some((0, rest))
  {
    var b := Continued(k) + [0] + rest;
    if k == 0 {
      assert b == [0] + rest && b[1..] == rest;
    } else {
      AnyLengthIsRead(k - 1, rest);
      assert b == [0x80] + (Continued(k - 1) + [0] + rest);
      UndigitsStep(0x80, Continued(k - 1) + [0] + rest, 0, rest);
    }
  }

  function Continued(k: nat): (b: seq<Byte>)
    ensures |b| == k
  {
    if k == 0 then [] else [0x80] + Continued(k - 1)
  }

  lemma {:induction false} DigitsLength(u: nat, k: nat)
    requires k > 0
    ensures |Digits(u)| <= k <==> u < Pow2(7 * k)
  {
    Pow2Widths();
    Pow2Add(7, 7 * (k - 1));
    if k > 1 {
      DigitsLength(u / 0x80, k - 1);
    }
    if u >= 0x80 {
      assert |Digits(u)| == 1 + |Digits(u / 0x80)|;
    } else {
      Pow2Monotonic(7, 7 * k);
    }
  }

  lemma DigitsBounds(u: nat)
    ensures u < 0x1_0000_0000 ==> |Digits(u)| <= 5
    ensures u < 0x1_0000_0000_0000_0000 ==> |Digits(u)| <= 10
  {
    hide Digits, Pow2;
    Pow2Widths();
    Pow2Monotonic(32, 35);
    Pow2Monotonic(64, 70);
    DigitsLength(u, 5);
    DigitsLength(u, 10);
  }

  lemma DigitsStep(u: nat)
    ensures Digits(u) == if u < 0x80 then [u] else [u % 0x80 + 0x80] + Digits(u / 0x80)
  {}

  /** The arithmetic zigzag map and its inverse. */
  function ZigZag(n: int): (u: nat) {
    if n >= 0 then 2 * n else -2 * n - 1
  }

  function UnZigZag(u: nat): (n: int) {
    if u % 2 == 0 then u / 2 else -(u / 2) - 1
  }

  lemma ZigZagInverse(n: int, u: nat)
    ensures UnZigZag(ZigZag(n)) == n
    ensures ZigZag(UnZigZag(u)) == u
  {}

  /** A signed value of 7k bits takes at most k bytes, and no other value does. */
  lemma ZigZagLength(n: int, k: nat)
    requires k > 0
    ensures |Digits(ZigZag(n))| <= k <==> -Pow2(7 * k - 1) <= n < Pow2(7 * k - 1)
  {
    DigitsLength(ZigZag(n), k);
  }

  /** int32ToZigzag and int64ToZigzag: a left shift xor an arithmetic right shift. */
  function Int32ToZigZag(n: I32): I32 {
    ToI32(Xor(ToU32(ToI32(2 * n)), ToU32(n / 0x8000_0000)))
  }

  function Int64ToZigZag(n: I64): I64 {
    ToI64(Xor(ToU64(ToI64(2 * n)), ToU64(n / 0x8000_0000_0000_0000)))
  }

  /** zigzagToInt32 and zigzagToInt64: a logical right shift xor the negated low bit. */
  function ZigZagToInt32(n: I32): I32 {
    ToI32(Xor(ToU32(ToI32(ToU32(n) / 2)), ToU32(-(And(ToU32(n), 1) as int))))
  }

  function ZigZagToInt64(n: I64): I64 {
    ToI64(Xor(ToU64(ToI64(ToU64(n) / 2)), ToU64(-(And(ToU64(n), 1) as int))))
  }

  lemma XorSign32(a: U32, sign: int)
    requires sign == 0 || sign == -1
    ensures Xor(a, ToU32(sign)) == if sign == 0 then a else 0xffff_ffff - a
  {
    Pow2Widths();
    if sign == 0 { XorZero(a); } else { XorOnes(a, 32); }
  }

  lemma XorSign64(a: U64, sign: int)
    requires sign == 0 || sign == -1
    ensures Xor(a, ToU64(sign)) == if sign == 0 then a else 0xffff_ffff_ffff_ffff - a
  {
    Pow2Widths();
    if sign == 0 { XorZero(a); } else { XorOnes(a, 64); }
  }

  /** Shift-and-xor is the arithmetic zigzag map, in both widths and both directions. */
  lemma SignAndDouble32(n: I32)
    ensures n / 0x8000_0000 == if n < 0 then -1 else 0
    ensures ToU32(2 * n) == if n < 0 then 2 * n + 0x1_0000_0000 else 2 * n
  {}

  lemma EncodeIsZigZag32(n: I32)
    ensures ToU32(Int32ToZigZag(n)) == ZigZag(n)
  {
    hide Xor, ToI32, ToU32;
    BitsOfSigned(2 * n);
    SignAndDouble32(n);
    XorSign32(ToU32(2 * n), n / 0x8000_0000);
    BitsOfSigned(ZigZag(n));
  }

  lemma DecodeIsUnZigZag32(n: I32)
    ensures ZigZagToInt32(n) == UnZigZag(ToU32(n))
  {
    hide And, Xor;
    var u: U32 := ToU32(n);
    Masks(u);
    var half: U32 := u / 2;
    assert ToU32(ToI32(u / 2)) == half;
    XorSign32(half, -(u % 2));
  }

  lemma SignAndDouble64(n: I64)
    ensures n / 0x8000_0000_0000_0000 == if n < 0 then -1 else 0
    ensures ToU64(2 * n) == if n < 0 then 2 * n + 0x1_0000_0000_0000_0000 else 2 * n
  {}

  lemma EncodeIsZigZag64(n: I64)
    ensures ToU64(Int64ToZigZag(n)) == ZigZag(n)
  {
    hide Xor, ToI64, ToU64;
    BitsOfSigned(2 * n);
    SignAndDouble64(n);
    XorSign64(ToU64(2 * n), n / 0x8000_0000_0000_0000);
    BitsOfSigned(ZigZag(n));
  }

  lemma DecodeIsUnZigZag64(n: I64)
    ensures ZigZagToInt64(n) == UnZigZag(ToU64(n))
  {
    hide And, Xor;
    var u: U64 := ToU64(n);
    Masks(u);
    var half: U64 := u / 2;
    assert ToU64(ToI64(u / 2)) == half;
    XorSign64(half, -(u % 2));
  }

  lemma SameBits32(a: I32, b: I32)
    requires ToU32(a) == ToU32(b)
    ensures a == b
  {}

  lemma SameBits64(a: I64, b: I64)
    requires ToU64(a) == ToU64(b)
    ensures a == b
  {}

  /** Encoding and decoding undo each other on every word. */
  lemma ZigZagRoundTrip32(n: I32)
    ensures ZigZagToInt32(Int32ToZigZag(n)) == n
    ensures Int32ToZigZag(ZigZagToInt32(n)) == n
  {
    hide Int32ToZigZag, ZigZagToInt32, ToU32;
    EncodeIsZigZag32(n);
    DecodeIsUnZigZag32(Int32ToZigZag(n));
    EncodeIsZigZag32(ZigZagToInt32(n));
    DecodeIsUnZigZag32(n);
    ZigZagInverse(n, ToU32(n));
    SameBits32(Int32ToZigZag(ZigZagToInt32(n)), n);
  }

  lemma ZigZagRoundTrip64(n: I64)
    ensures ZigZagToInt64(Int64ToZigZag(n)) == n
    ensures Int64ToZigZag(ZigZagToInt64(n)) == n
  {
    hide Int64ToZigZag, ZigZagToInt64, ToU64;
    EncodeIsZigZag64(n);
    DecodeIsUnZigZag64(Int64ToZigZag(n));
    EncodeIsZigZag64(ZigZagToInt64(n));
    DecodeIsUnZigZag64(n);
    ZigZagInverse(n, ToU64(n));
    SameBits64(Int64ToZigZag(ZigZagToInt64(n)), n);
  }

  /** One turn of the writing loops, in arithmetic. */
  lemma WriteStep32(n: I32)
    ensures And(ToU32(n), 0xffff_ff80) == 0 <==> ToU32(n) < 0x80
    ensures ToByte(Or(And(ToU32(n), 0x7f), 0x80)) == ToU32(n) % 0x80 + 0x80
    ensures ToU32(n) < 0x80 ==> ToByte(n) == ToU32(n)
    ensures ToU32(ToI32(ToU32(n) / 0x80)) == ToU32(n) / 0x80
  {
    hide And, Or, Xor, Pow2;
    Masks(ToU32(n));
    Masks32(ToU32(n));
    Pow2Widths();
    OrDisjoint(ToU32(n) % 0x80, 1, 7);
  }

  lemma WriteStep64(n: I64)
    ensures And(ToU64(n), 0xffff_ffff_ffff_ff80) == 0 <==> ToU64(n) < 0x80
    ensures ToByte(Or(And(ToU64(n), 0x7f), 0x80)) == ToU64(n) % 0x80 + 0x80
    ensures ToU64(n) < 0x80 ==> ToByte(n) == ToU64(n)
    ensures ToU64(ToI64(ToU64(n) / 0x80)) == ToU64(n) / 0x80
  {
    hide And, Or, Xor, Pow2;
    Masks(ToU64(n));
    Pow2Widths();
    OrDisjoint(ToU64(n) % 0x80, 1, 7);
  }

  /** Go's shift of a 64-bit word, which is zero once the count reaches 64. */
  function ShiftLeft64(u: nat, count: nat): U64 {
    ToU64(u * Pow2(count))
  }

  /** One turn of the reading loop: or-ing seven more bits into the 64-bit accumulator keeps it
      equal to the value read so far modulo 2^64. */
  lemma ReadStep(acc: nat, digit: nat, count: nat)
    requires acc < Pow2(count) && digit < 0x80
    ensures 0 <= digit * Pow2(count)
    ensures Or(ToU64(acc), ShiftLeft64(digit, count)) == ToU64(acc + digit * Pow2(count))
    ensures acc + digit * Pow2(count) < Pow2(count + 7)
  {
    hide Or, Pow2;
    ReadBound(acc, digit, count);
    if count >= 64 {
      ShiftedOut(digit, count);
      OrZero(ToU64(acc));
      assert ToU64(acc + digit * Pow2(count)) == ToU64(acc);
    } else {
      OrShifted(acc, digit, count);
    }
  }

  lemma ReadBound(acc: nat, digit: nat, count: nat)
    requires acc < Pow2(count) && digit < 0x80
    ensures 0 <= digit * Pow2(count)
    ensures acc + digit * Pow2(count) < Pow2(count + 7)
  {
    hide Pow2;
    Pow2Add(7, count);
    Pow2Widths();
    assert digit * Pow2(count) <= 0x7f * Pow2(count);
  }

  lemma ShiftedOut(digit: nat, count: nat)
    requires count >= 64
    ensures digit * Pow2(count) % 0x1_0000_0000_0000_0000 == 0
  {
    hide Pow2;
    Pow2Add(64, count - 64);
    Pow2Widths();
    assert digit * Pow2(count) == (digit * Pow2(count - 64)) * 0x1_0000_0000_0000_0000;
  }

  lemma OrShifted(acc: nat, digit: nat, count: nat)
    requires count < 64 && acc < Pow2(count) && digit < 0x80
    ensures 0 <= digit * Pow2(count)
    ensures Or(ToU64(acc), ShiftLeft64(digit, count)) == ToU64(acc + digit * Pow2(count))
  {
    hide Or, Pow2, ToU64;
    Pow2Widths();
    Pow2Monotonic(count, 64);
    Pow2Add(64 - count, count);
    var p := Pow2(count);
    var q, r := ShiftSplit(digit, p, Pow2(64 - count));
    assert digit * p == q * 0x1_0000_0000_0000_0000 + r * p;
    assert acc + digit * p == q * 0x1_0000_0000_0000_0000 + (acc + r * p);
    DropHigh(0, acc);
    DropHigh(q, r * p);
    DropHigh(q, acc + r * p);
    OrDisjoint(acc, r, count);
  }

  lemma DropHigh(q: nat, z: nat)
    requires z < 0x1_0000_0000_0000_0000
    ensures ToU64(q * 0x1_0000_0000_0000_0000 + z) == z
  {}

  /** The part of d * p that stays below m * p. */
  lemma ShiftSplit(d: nat, p: nat, m: nat) returns (q: nat, r: nat)
    requires 0 < p && 0 < m
    ensures d * p == q * (m * p) + r * p
    ensures 0 <= r * p && r * p + p <= m * p
  {
    q, r := Divide(d, m);
    MulSplit(d, p, m, q, r);
  }

  lemma Divide(d: nat, m: nat) returns (q: nat, r: nat)
    requires 0 < m
    ensures d == q * m + r && r < m
  {
    q, r := d / m, d % m;
  }

  lemma MulSplit(d: nat, p: nat, m: nat, q: nat, r: nat)
    requires d == q * m + r && r < m
    ensures d * p == q * (m * p) + r * p
    ensures 0 <= r * p && r * p + p <= m * p
  {
    assert d * p == (q * m) * p + r * p;
    assert (r + 1) * p <= m * p;
  }
}
