/** The very bytes: literal encodings, so that no code table or byte order can be exchanged on both
    sides at once. */
module Samples {
  import opened Words
  import opened Varint
  import opened Values
  import opened Wire

  // ---------------------------------------------------------------- codes

  /** The first byte of a compact list of three, and of the header of the field after the last. */
  lemma CompactCodes(last: int)
    requires -0x8000 <= last < 0x7fff
    ensures EncListHeader(Compact, BOOL, 3) == [0x31] && EncListHeader(Compact, BYTE, 3) == [0x33]
    ensures EncListHeader(Compact, I16T, 3) == [0x34] && EncListHeader(Compact, I32T, 3) == [0x35]
    ensures EncListHeader(Compact, I64T, 3) == [0x36] && EncListHeader(Compact, DOUBLE, 3) == [0x37]
    ensures EncListHeader(Compact, STRING, 3) == [0x38] && EncListHeader(Compact, LIST, 3) == [0x39]
    ensures EncListHeader(Compact, SET, 3) == [0x3A] && EncListHeader(Compact, MAP, 3) == [0x3B]
    ensures EncListHeader(Compact, STRUCT, 3) == [0x3C] && EncListHeader(Compact, 16, 3) == [0x30]
    ensures EncField(Compact, last, Field(last + 1, VBool(true))) == [0x11]
    ensures EncField(Compact, last, Field(last + 1, VBool(false))) == [0x12]
  {
  }

  /** A field of any other type has that code in its delta header. */
  lemma CompactFieldCode(last: int, v: Value)
    requires -0x8000 <= last < 0x7fff && !v.VBool?
    ensures EncField(Compact, last, Field(last + 1, v))
         == [0x10 + EncListHeader(Compact, TypeOf(v), 0)[0]] + Enc(Compact, v)
  {
    hide Enc;
  }

  /** The type byte of a binary list of one, which is also that of a field. */
  lemma BinaryCodes()
    ensures EncListHeader(Binary, BOOL, 1) == [2, 0, 0, 0, 1] && EncListHeader(Binary, BYTE, 1) == [3, 0, 0, 0, 1]
    ensures EncListHeader(Binary, DOUBLE, 1) == [4, 0, 0, 0, 1] && EncListHeader(Binary, I16T, 1) == [6, 0, 0, 0, 1]
    ensures EncListHeader(Binary, I32T, 1) == [8, 0, 0, 0, 1] && EncListHeader(Binary, I64T, 1) == [10, 0, 0, 0, 1]
    ensures EncListHeader(Binary, STRING, 1) == [11, 0, 0, 0, 1]
    ensures EncListHeader(Binary, STRUCT, 1) == [12, 0, 0, 0, 1]
    ensures EncListHeader(Binary, MAP, 1) == [13, 0, 0, 0, 1] && EncListHeader(Binary, SET, 1) == [14, 0, 0, 0, 1]
    ensures EncListHeader(Binary, LIST, 1) == [15, 0, 0, 0, 1]
  {
    FourBytes(0, 0, 0, 1);
  }

  lemma BinaryFieldCode(last: int, v: Value)
    ensures EncField(Binary, last, Field(0x102, v))
         == [EncListHeader(Binary, TypeOf(v), 1)[0]] + [1, 2] + Enc(Binary, v)
  {
    hide Enc;
    TwoBytes(1, 2);
  }

  lemma TwoBytes(a: Byte, b: Byte)
    ensures BigEndian(2, 0x100 * (a as int) + b) == [a, b]
  {
  }

  lemma FourBytes(a: Byte, b: Byte, c: Byte, d: Byte)
    ensures BigEndian(4, 0x100_0000 * (a as int) + 0x1_0000 * (b as int) + 0x100 * (c as int) + d) == [a, b, c, d]
  {
    var u: int := 0x100 * (a as int) + b;
    var v: int := 0x100 * u + c;
    TwoBytes(a, b);
    assert v / 0x100 == u && v % 0x100 == c;
    assert (0x100 * v + d) / 0x100 == v && (0x100 * v + d) % 0x100 == d;
    assert BigEndian(3, v) == [a, b] + [c];
    assert BigEndian(4, 0x100 * v + d) == [a, b] + [c] + [d];
  }

  /** Numbers, strings and headers in both protocols. */
  lemma CompactValues()
    ensures Enc(Compact, VBool(true)) == [1] && Enc(Compact, VBool(false)) == [2]
    ensures Enc(Compact, VByte(-1)) == [0xFF] && Enc(Compact, VI16(1)) == [2] && Enc(Compact, VI32(-1)) == [1]
    ensures Enc(Compact, VI64(300)) == [0xD8, 0x04]
    ensures Enc(Compact, VString([0x68, 0x69])) == [2, 0x68, 0x69]
    ensures EncListHeader(Compact, I32T, 15) == [0xF5, 15]
    ensures EncMapHeader(Compact, BYTE, STRING, 1) == [1, 0x38] && EncMapHeader(Compact, BYTE, STRING, 0) == [0]
    ensures EncField(Compact, 1, Field(100, VByte(7))) == [0x03, 0xC8, 0x01, 7]
    ensures EncMessage([0x61], 1, 5) == [0x82, 0x21, 5, 1, 0x61]
  {
    assert Digits(600) == [0xD8] + Digits(4);
    assert Digits(200) == [0xC8] + Digits(1);
    assert ToU32(2) == 2 && ToU32(15) == 15 && ToU32(1) == 1 && ToU32(5) == 5;
  }

  lemma BinaryValues()
    ensures Enc(Binary, VBool(true)) == [1] && Enc(Binary, VBool(false)) == [0]
    ensures Enc(Binary, VByte(-1)) == [0xFF] && Enc(Binary, VI16(-2)) == [0xFF, 0xFE]
    ensures Enc(Binary, VI32(0x0102_0304)) == [1, 2, 3, 4]
    ensures Enc(Binary, VString([0x68, 0x69])) == [0, 0, 0, 2, 0x68, 0x69]
    ensures EncMapHeader(Binary, BYTE, STRING, 1) == [3, 11, 0, 0, 0, 1]
  {
    ByteWidths();
    TwoBytes(0xFF, 0xFE);
    FourBytes(1, 2, 3, 4);
    FourBytes(0, 0, 0, 2);
    FourBytes(0, 0, 0, 1);
  }

  /** The two protocols disagree on the byte order of a double. */
  lemma Doubles(w: U64)
    ensures |Enc(Compact, VDouble(w))| == 8 && |Enc(Binary, VDouble(w))| == 8
    ensures Enc(Compact, VDouble(w))[0] == w % 0x100 && Enc(Binary, VDouble(w))[7] == w % 0x100
  {
  }
}
