/** UTF-8 as unicode/utf8 reads and writes it, section 3 of RFC 3629: a byte that begins no valid
    sequence reads as the replacement character. */
module Utf8 {
  import opened Words

  const REPLACEMENT := 0xFFFD

  predicate IsRune(n: int) { 0 <= n < 0xD800 || 0xE000 <= n < 0x11_0000 }

  datatype Decoded = Decoded(rune: int, size: nat)

  predicate Continues(s: seq<Byte>, i: nat, low: int, high: int) { i < |s| && low <= s[i] <= high }

  /** The payload of a continuation byte. */
  function Low(b: int): int { b - 0x80 }

  /** utf8.DecodeRune. */
  function DecodeRune(s: seq<Byte>): (d: Decoded)
    requires s != []
    ensures IsRune(d.rune) && 1 <= d.size <= 4 && d.size <= |s|
  {
    var a := s[0];
    var low := if a == 0xE0 then 0xA0 else if a == 0xF0 then 0x90 else 0x80;
    var high := if a == 0xED then 0x9F else if a == 0xF4 then 0x8F else 0xBF;
    if a < 0x80 then Decoded(a, 1)
    else if a < 0xC2 || a > 0xF4 || !Continues(s, 1, low, high) then Decoded(REPLACEMENT, 1)
    else if a < 0xE0 then Decoded((a - 0xC0) * 0x40 + Low(s[1]), 2)
    else if !Continues(s, 2, 0x80, 0xBF) then Decoded(REPLACEMENT, 1)
    else if a < 0xF0 then Decoded((a - 0xE0) * 0x1000 + Low(s[1]) * 0x40 + Low(s[2]), 3)
    else if !Continues(s, 3, 0x80, 0xBF) then Decoded(REPLACEMENT, 1)
    else Decoded((a - 0xF0) * 0x4_0000 + Low(s[1]) * 0x1000 + Low(s[2]) * 0x40 + Low(s[3]), 4)
  }

  /** utf8.EncodeRune. */
  function EncodeRune(n: int): (b: seq<Byte>)
    requires IsRune(n)
    ensures 1 <= |b| <= 4
  {
    if n < 0x80 then [n]
    else if n < 0x800 then [0xC0 + n / 0x40, 0x80 + n % 0x40]
    else if n < 0x1_0000 then [0xE0 + n / 0x1000, 0x80 + n / 0x40 % 0x40, 0x80 + n % 0x40]
    else [0xF0 + n / 0x4_0000, 0x80 + n / 0x1000 % 0x40, 0x80 + n / 0x40 % 0x40, 0x80 + n % 0x40]
  }

  /** A byte that begins no sequence. */
  predicate Broken(s: seq<Byte>)
    requires s != []
  {
    s[0] >= 0x80 && DecodeRune(s).size == 1
  }

  /** The four base-64 digits of a rune. */
  lemma RuneDigits(n: int)
    requires IsRune(n)
    ensures n / 0x40 == n / 0x1000 * 0x40 + n / 0x40 % 0x40
    ensures n / 0x1000 == n / 0x4_0000 * 0x40 + n / 0x1000 % 0x40
    ensures n == n / 0x40 * 0x40 + n % 0x40
  {
  }

  lemma DecodeEncode(n: int, rest: seq<Byte>)
    requires IsRune(n)
    ensures DecodeRune(EncodeRune(n) + rest) == Decoded(n, |EncodeRune(n)|)
    ensures !Broken(EncodeRune(n) + rest)
  {
    RuneDigits(n);
  }

  lemma Encode3(p: nat, q: nat, r: nat)
    requires p < 0x10 && q < 0x40 && r < 0x40
    requires (p == 0 ==> q >= 0x20) && (p == 0xD ==> q < 0x20)
    ensures EncodeRune(p * 0x1000 + q * 0x40 + r) == [0xE0 + p, 0x80 + q, 0x80 + r]
  {
    var n := p * 0x1000 + q * 0x40 + r;
    assert n / 0x1000 == p && n / 0x40 == p * 0x40 + q && n % 0x40 == r;
  }

  lemma Encode4(o: nat, p: nat, q: nat, r: nat)
    requires o < 5 && p < 0x40 && q < 0x40 && r < 0x40
    requires (o == 0 ==> p >= 0x10) && (o == 4 ==> p < 0x10)
    ensures EncodeRune(o * 0x4_0000 + p * 0x1000 + q * 0x40 + r) == [0xF0 + o, 0x80 + p, 0x80 + q, 0x80 + r]
  {
    var n := o * 0x4_0000 + p * 0x1000 + q * 0x40 + r;
    assert n / 0x4_0000 == o && n / 0x1000 == o * 0x40 + p && n / 0x40 == o * 0x1000 + p * 0x40 + q && n % 0x40 == r;
  }

  /** What is decoded whole is encoded back. */
  lemma EncodeDecode(s: seq<Byte>)
    requires s != [] && !Broken(s)
    ensures EncodeRune(DecodeRune(s).rune) == s[..DecodeRune(s).size]
  {
    var d := DecodeRune(s);
    if d.size == 3 {
      Encode3(s[0] - 0xE0, Low(s[1]), Low(s[2]));
    } else if d.size == 4 {
      Encode4(s[0] - 0xF0, Low(s[1]), Low(s[2]), Low(s[3]));
    }
  }

  function EncodeAll(runes: seq<int>): seq<Byte>
    requires forall i :: 0 <= i < |runes| ==> IsRune(runes[i])
  {
    if runes == [] then [] else EncodeRune(runes[0]) + EncodeAll(runes[1..])
  }

  /** The bytes with each broken one replaced by the replacement character. */
  function Sanitize(s: seq<Byte>): seq<Byte> {
    if s == [] then [] else EncodeRune(DecodeRune(s).rune) + Sanitize(s[DecodeRune(s).size..])
  }

  function Runes(s: seq<Byte>): (runes: seq<int>)
    ensures forall i :: 0 <= i < |runes| ==> IsRune(runes[i])
  {
    if s == [] then [] else [DecodeRune(s).rune] + Runes(s[DecodeRune(s).size..])
  }

  ghost predicate IsUtf8(s: seq<Byte>) {
    exists runes: seq<int> :: (forall i :: 0 <= i < |runes| ==> IsRune(runes[i])) && s == EncodeAll(runes)
  }

  lemma {:induction false} SanitizeEncoded(runes: seq<int>)
    requires forall i :: 0 <= i < |runes| ==> IsRune(runes[i])
    ensures Sanitize(EncodeAll(runes)) == EncodeAll(runes)
  {
    if runes != [] {
      hide DecodeRune, EncodeRune;
      DecodeEncode(runes[0], EncodeAll(runes[1..]));
      SanitizeEncoded(runes[1..]);
      assert EncodeAll(runes)[|EncodeRune(runes[0])|..] == EncodeAll(runes[1..]);
    }
  }

  lemma {:induction false} SanitizeIsRunes(s: seq<Byte>)
    ensures Sanitize(s) == EncodeAll(Runes(s))
  {
    if s != [] {
      hide DecodeRune, EncodeRune;
      SanitizeIsRunes(s[DecodeRune(s).size..]);
      assert Runes(s)[1..] == Runes(s[DecodeRune(s).size..]);
    }
  }

  /** Exactly the valid strings are unchanged. */
  lemma SanitizeIff(s: seq<Byte>)
    ensures Sanitize(s) == s <==> IsUtf8(s)
  {
    SanitizeIsRunes(s);
    if IsUtf8(s) {
      var runes: seq<int> :| (forall i :: 0 <= i < |runes| ==> IsRune(runes[i])) && s == EncodeAll(runes);
      SanitizeEncoded(runes);
    }
  }

  /** The byte 0xFF is no UTF-8 and is replaced. */
  lemma StrayByteReplaced()
    ensures !IsUtf8([0xFF]) && Sanitize([0xFF]) == [0xEF, 0xBF, 0xBD]
  {
    hide DecodeRune, EncodeRune, IsUtf8;
    StrayByteDecodes();
    SanitizeIff([0xFF]);
    assert [0xFF][1..] == [];
  }

  lemma StrayByteDecodes()
    ensures DecodeRune([0xFF]) == Decoded(REPLACEMENT, 1) && EncodeRune(REPLACEMENT) == [0xEF, 0xBF, 0xBD]
  {
  }
}
