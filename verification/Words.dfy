/** Machine words: fixed-width integers, two's complement conversions, bitwise operators
    and byte orders, all over unbounded integers so that wrap-around is written out. */
module Words {

  type Byte = x: int | 0 <= x < 0x100
  type I8 = x: int | -0x80 <= x < 0x80
  type I16 = x: int | -0x8000 <= x < 0x8000
  type I32 = x: int | -0x8000_0000 <= x < 0x8000_0000
  type I64 = x: int | -0x8000_0000_0000_0000 <= x < 0x8000_0000_0000_0000
  type U32 = x: int | 0 <= x < 0x1_0000_0000
  type U64 = x: int | 0 <= x < 0x1_0000_0000_0000_0000

  function Pow2(n: nat): (p: int)
    ensures 0 < p
  {
    if n == 0 then 1 else 2 * Pow2(n - 1)
  }

  lemma Pow2Widths()
    ensures Pow2(1) == 2 && Pow2(4) == 0x10 && Pow2(5) == 0x20 && Pow2(7) == 0x80 && Pow2(8) == 0x100
        && Pow2(10) == 0x400
    ensures Pow2(31) == 0x8000_0000 && Pow2(32) == 0x1_0000_0000 && Pow2(64) == 0x1_0000_0000_0000_0000
  {
    assert Pow2(8) == 0x100 && Pow2(16) == 0x1_0000;
    assert Pow2(24) == 0x100_0000;
    assert Pow2(32) == 0x1_0000_0000;
    Pow2Add(32, 32);
  }

  lemma {:induction false} Pow2Add(a: nat, b: nat)
    ensures Pow2(a + b) == Pow2(a) * Pow2(b)
  {
    if a > 0 {
      Pow2Add(a - 1, b);
      assert Pow2(a) * Pow2(b) == 2 * (Pow2(a - 1) * Pow2(b));
    }
  }

  lemma {:induction false} Pow2Monotonic(a: nat, b: nat)
    requires a <= b
    ensures Pow2(a) <= Pow2(b)
    ensures a < b ==> 2 * Pow2(a) <= Pow2(b)
    decreases b - a
  {
    if a < b { Pow2Monotonic(a + 1, b); }
  }

  /** Go's integer conversions: the low bits, read without or with a sign. */
  function ToByte(n: int): Byte { n % 0x100 }
  function ToU32(n: int): U32 { n % 0x1_0000_0000 }
  function ToU64(n: int): U64 { n % 0x1_0000_0000_0000_0000 }

  function ToI8(n: int): I8 {
    var u := n % 0x100; if u < 0x80 then u else u - 0x100
  }

  function ToI16(n: int): I16 {
    var u := n % 0x1_0000; if u < 0x8000 then u else u - 0x1_0000
  }

  function ToI32(n: int): I32 {
    var u := ToU32(n); if u < 0x8000_0000 then u else u - 0x1_0000_0000
  }

  function ToI64(n: int): I64 {
    var u := ToU64(n); if u < 0x8000_0000_0000_0000 then u else u - 0x1_0000_0000_0000_0000
  }

  /** Conversions to and fro. */
  lemma SignedOfBits(n: int)
    ensures -0x8000 <= n < 0x8000 ==> ToI16(n % 0x1_0000) == n && ToI16(n) == n
    ensures -0x8000_0000 <= n < 0x8000_0000 ==> ToI32(n % 0x1_0000_0000) == n && ToI32(n) == n
    ensures -0x8000_0000_0000_0000 <= n < 0x8000_0000_0000_0000 ==>
      ToI64(n % 0x1_0000_0000_0000_0000) == n && ToI64(n) == n
  {}

  lemma BitsOfSigned(n: int)
    ensures ToU32(ToI32(n)) == ToU32(n) && ToU64(ToI64(n)) == ToU64(n)
    ensures 0 <= n < 0x1_0000_0000 ==> ToU32(n) == n
    ensures 0 <= n < 0x1_0000_0000_0000_0000 ==> ToU64(n) == n
  {}

  lemma TruncateTwice(n: int)
    ensures ToI32(ToI64(n)) == ToI32(n)
  {}

  lemma Nibbles(high: nat, low: nat)
    requires high < 0x10 && low < 0x10
    ensures high * 0x10 + low < 0x100
    ensures (high * 0x10 + low) / 0x10 == high && (high * 0x10 + low) % 0x10 == low
  {}

  /** The bitwise operators, one bit at a time. */
  function And(a: nat, b: nat): nat
    decreases a + b
  {
    if a == 0 && b == 0 then 0
    else (if a % 2 == 1 && b % 2 == 1 then 1 else 0) + 2 * And(a / 2, b / 2)
  }

  function Or(a: nat, b: nat): nat
    decreases a + b
  {
    if a == 0 && b == 0 then 0
    else (if a % 2 == 1 || b % 2 == 1 then 1 else 0) + 2 * Or(a / 2, b / 2)
  }

  function Xor(a: nat, b: nat): nat
    decreases a + b
  {
    if a == 0 && b == 0 then 0
    else (if a % 2 != b % 2 then 1 else 0) + 2 * Xor(a / 2, b / 2)
  }

  lemma {:induction false} AndZero(a: nat)
    ensures And(a, 0) == 0
  {
    if a > 0 { AndZero(a / 2); }
  }

  lemma {:induction false} OrZero(a: nat)
    ensures Or(a, 0) == a
  {
    if a > 0 { OrZero(a / 2); }
  }

  lemma {:induction false} XorZero(a: nat)
    ensures Xor(a, 0) == a
  {
    if a > 0 { XorZero(a / 2); }
  }

  function ShiftLeft(q: nat, k: nat): nat {
    if k == 0 then q else 2 * ShiftLeft(q, k - 1)
  }

  lemma {:induction false} ShiftLeftIsProduct(q: nat, k: nat)
    ensures ShiftLeft(q, k) == q * Pow2(k)
  {
    if k > 0 {
      ShiftLeftIsProduct(q, k - 1);
      assert q * Pow2(k) == 2 * (q * Pow2(k - 1));
    }
  }

  /** Masking with k low ones keeps the k low bits. */
  lemma {:induction false} AndLowMask(q: nat, r: nat, k: nat)
    requires r < Pow2(k)
    ensures And(ShiftLeft(q, k) + r, Pow2(k) - 1) == r
  {
    if k == 0 {
      AndZero(q);
    } else {
      hide And;
      AndLowMask(q, r / 2, k - 1);
      AndOdd(ShiftLeft(q, k) + r, Pow2(k - 1) - 1);
    }
  }

  lemma AndLow(u: nat, k: nat, q: nat, r: nat)
    requires r < Pow2(k) && u == q * Pow2(k) + r
    ensures And(u, Pow2(k) - 1) == r
  {
    ShiftLeftIsProduct(q, k);
    AndLowMask(q, r, k);
  }

  /** Two complementary masks split a k-bit word. */
  lemma {:induction false} AndComplement(u: nat, m: nat, c: nat, k: nat)
    requires u < Pow2(k) && m + c == Pow2(k) - 1
    ensures And(u, m) + And(u, c) == u
  {
    if k > 0 {
      AndComplement(u / 2, m / 2, c / 2, k - 1);
    }
  }

  lemma AndOdd(a: nat, m: nat)
    ensures And(a, 2 * m + 1) == a % 2 + 2 * And(a / 2, m)
  {
    assert (2 * m + 1) / 2 == m;
  }

  /** The masks that appear in the protocols, on words of at most 64 bits. */
  lemma Masks(u: U64)
    ensures And(u, 1) == u % 2
    ensures And(u, 0x7f) == u % 0x80
    ensures And(u, 0xffff_ffff_ffff_ff80) == u - u % 0x80
  {
    hide And;
    Pow2Widths();
    AndLow(u, 1, u / 2, u % 2);
    AndLow(u, 7, u / 0x80, u % 0x80);
    AndComplement(u, 0x7f, 0xffff_ffff_ffff_ff80, 64);
  }

  lemma Masks32(u: U32)
    ensures And(u, 0xffff_ff80) == u - u % 0x80
  {
    hide And;
    Pow2Widths();
    AndLow(u, 7, u / 0x80, u % 0x80);
    AndComplement(u, 0x7f, 0xffff_ff80, 32);
  }

  lemma ByteMasks(b: Byte)
    ensures And(b, 0x0f) == b % 0x10
    ensures And(b, 0xf0) == b - b % 0x10
    ensures And(b, 0x7f) == b % 0x80
    ensures And(b, 0x80) == b - b % 0x80
    ensures And(b, 0x1f) == b % 0x20
    ensures And(b, 0xe0) == b - b % 0x20
  {
    hide And;
    Pow2Widths();
    AndLow(b, 4, b / 0x10, b % 0x10);
    AndLow(b, 7, b / 0x80, b % 0x80);
    AndLow(b, 5, b / 0x20, b % 0x20);
    AndComplement(b, 0x0f, 0xf0, 8);
    AndComplement(b, 0x1f, 0xe0, 8);
    AndComplement(b, 0x7f, 0x80, 8);
  }

  /** Joining words whose bits do not overlap is addition. */
  lemma {:induction false} OrShiftLeft(a: nat, b: nat, k: nat)
    requires a < Pow2(k)
    ensures Or(a, ShiftLeft(b, k)) == a + ShiftLeft(b, k)
  {
    if k == 0 {
      OrSym(0, b);
      OrZero(b);
    } else {
      OrShiftLeft(a / 2, b, k - 1);
      OrEven(a, ShiftLeft(b, k - 1));
    }
  }

  lemma OrDisjoint(a: nat, b: nat, k: nat)
    requires a < Pow2(k)
    ensures 0 <= b * Pow2(k)
    ensures Or(a, b * Pow2(k)) == a + b * Pow2(k)
  {
    hide Or;
    ShiftLeftIsProduct(b, k);
    OrShiftLeft(a, b, k);
  }

  lemma OrEven(a: nat, m: nat)
    ensures Or(a, 2 * m) == a % 2 + 2 * Or(a / 2, m)
  {
    OrZero(0);
    assert 2 * m / 2 == m;
  }

  lemma {:induction false} OrSym(a: nat, b: nat)
    ensures Or(a, b) == Or(b, a)
    decreases a + b
  {
    if a + b > 0 { OrSym(a / 2, b / 2); }
  }

  /** Flipping every bit of a k-bit word. */
  lemma {:induction false} XorOnes(a: nat, k: nat)
    requires a < Pow2(k)
    ensures Xor(a, Pow2(k) - 1) == Pow2(k) - 1 - a
  {
    if k > 0 {
      var p := Pow2(k - 1);
      XorOnes(a / 2, k - 1);
      assert (2 * p - 1) / 2 == p - 1;
      assert (2 * p - 1) % 2 == 1;
    }
  }

  /** encoding/binary's big-endian bytes of an n-byte word. */
  function BigEndian(n: nat, u: nat): (b: seq<Byte>)
    ensures |b| == n
  {
    if n == 0 then [] else BigEndian(n - 1, u / 0x100) + [u % 0x100]
  }

  function FromBigEndian(b: seq<Byte>): (u: nat)
  {
    if b == [] then 0 else FromBigEndian(b[..|b| - 1]) * 0x100 + b[|b| - 1]
  }

  function LittleEndian(n: nat, u: nat): (b: seq<Byte>)
    ensures |b| == n
  {
    if n == 0 then [] else [u % 0x100] + LittleEndian(n - 1, u / 0x100)
  }

  function FromLittleEndian(b: seq<Byte>): (u: nat)
  {
    if b == [] then 0 else b[0] + FromLittleEndian(b[1..]) * 0x100
  }

  lemma {:induction false} Pow2Bytes(n: nat)
    requires n > 0
    ensures Pow2(8 * n) == 0x100 * Pow2(8 * (n - 1))
  {
    Pow2Add(8, 8 * (n - 1));
    Pow2Widths();
  }

  lemma {:induction false} FromBigEndianBound(b: seq<Byte>)
    ensures FromBigEndian(b) < Pow2(8 * |b|)
  {
    if b != [] {
      FromBigEndianBound(b[..|b| - 1]);
      Pow2Bytes(|b|);
    }
  }

  lemma {:induction false} FromLittleEndianBound(b: seq<Byte>)
    ensures FromLittleEndian(b) < Pow2(8 * |b|)
  {
    if b != [] {
      FromLittleEndianBound(b[1..]);
      Pow2Bytes(|b|);
    }
  }

  lemma {:induction false} BigEndianRoundTrip(n: nat, u: nat)
    requires u < Pow2(8 * n)
    ensures FromBigEndian(BigEndian(n, u)) == u
  {
    if n > 0 {
      Pow2Bytes(n);
      BigEndianRoundTrip(n - 1, u / 0x100);
      var b := BigEndian(n, u);
      assert b[..|b| - 1] == BigEndian(n - 1, u / 0x100);
    }
  }

  lemma {:induction false} LittleEndianRoundTrip(n: nat, u: nat)
    requires u < Pow2(8 * n)
    ensures FromLittleEndian(LittleEndian(n, u)) == u
  {
    if n > 0 {
      Pow2Bytes(n);
      LittleEndianRoundTrip(n - 1, u / 0x100);
      assert LittleEndian(n, u)[1..] == LittleEndian(n - 1, u / 0x100);
    }
  }

  lemma {:induction false} BigEndianBack(b: seq<Byte>)
    ensures BigEndian(|b|, FromBigEndian(b)) == b
  {
    if b != [] {
      BigEndianBack(b[..|b| - 1]);
      var q := FromBigEndian(b[..|b| - 1]);
      assert (q * 0x100 + b[|b| - 1]) / 0x100 == q;
    }
  }

  lemma ByteWidths()
    ensures Pow2(8 * 2) == 0x1_0000 && Pow2(8 * 4) == 0x1_0000_0000
    ensures Pow2(8 * 8) == 0x1_0000_0000_0000_0000
  {
    Pow2Widths();
    Pow2Add(8, 8);
  }
}
