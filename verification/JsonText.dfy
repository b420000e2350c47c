/** The texts of JSON's scalars: strings as encoding/json quotes and unquotes them, and integers as
    strconv formats and parses them. */
module JsonText {
  import opened Options
  import opened Words
  import opened Utf8

  const QUOTE: Byte := 0x22
  const BACKSLASH: Byte := 0x5C
  const COMMA: Byte := 0x2C
  const COLON: Byte := 0x3A
  const LBRACE: Byte := 0x7B
  const RBRACE: Byte := 0x7D
  const LBRACKET: Byte := 0x5B
  const RBRACKET: Byte := 0x5D
  const MINUS: Byte := 0x2D
  const PLUS: Byte := 0x2B
  const LETTER_U: Byte := 0x75

  // ---------------------------------------------------------------- strings, written

  function Hex(d: nat): Byte
    requires d < 0x10
  {
    if d < 10 then 0x30 + d else 0x57 + d
  }

  /** The six-byte escape of a code unit. */
  function Unicode(n: nat): (b: seq<Byte>)
    requires n < 0x1_0000
  {
    [BACKSLASH, LETTER_U, Hex(n / 0x1000), Hex(n / 0x100 % 0x10), Hex(n / 0x10 % 0x10), Hex(n % 0x10)]
  }

  /** Written as it is: printable ASCII but for the quote, the backslash and, for HTML's sake, < > &. */
  predicate Safe(a: Byte) {
    0x20 <= a < 0x80 && a != QUOTE && a != BACKSLASH && a != 0x3C && a != 0x3E && a != 0x26
  }

  /** What json.Marshal writes for the first character of s. */
  function QuoteUnit(s: seq<Byte>): seq<Byte>
    requires s != []
  {
    var a := s[0];
    if a < 0x80 then
      if Safe(a) then [a]
      else if a == QUOTE || a == BACKSLASH then [BACKSLASH, a]
      else if a == 0x0A then [BACKSLASH, 0x6E]
      else if a == 0x0D then [BACKSLASH, 0x72]
      else if a == 0x09 then [BACKSLASH, 0x74]
      else Unicode(a)
    else if Broken(s) then Unicode(REPLACEMENT)
    else if DecodeRune(s).rune == 0x2028 || DecodeRune(s).rune == 0x2029 then Unicode(DecodeRune(s).rune)
    else s[..DecodeRune(s).size]
  }

  function QuoteBody(s: seq<Byte>): seq<Byte> {
    if s == [] then [] else QuoteUnit(s) + QuoteBody(s[DecodeRune(s).size..])
  }

  /** jsonQuote. */
  function Quote(s: seq<Byte>): seq<Byte> { [QUOTE] + QuoteBody(s) + [QUOTE] }

  // ---------------------------------------------------------------- strings, read

  function HexValue(b: Byte): int {
    if 0x30 <= b <= 0x39 then b - 0x30
    else if 0x61 <= b <= 0x66 then b - 0x57
    else if 0x41 <= b <= 0x46 then b - 0x37
    else -1
  }

  /** getu4: the code unit escaped at the head of t, or -1. */
  function CodeUnit(t: seq<Byte>): (n: int)
    ensures -1 <= n < 0x1_0000
    ensures n >= 0 ==> |t| >= 6 && t[0] == BACKSLASH
  {
    if |t| < 6 || t[0] != BACKSLASH || t[1] != LETTER_U then -1
    else
      var a, b, c, d := HexValue(t[2]), HexValue(t[3]), HexValue(t[4]), HexValue(t[5]);
      if a < 0 || b < 0 || c < 0 || d < 0 then -1 else a * 0x1000 + b * 0x100 + c * 0x10 + d
  }

  predicate HighSurrogate(n: int) { 0xD800 <= n < 0xDC00 }

  predicate LowSurrogate(n: int) { 0xDC00 <= n < 0xE000 }

  function Then(b: seq<Byte>, o: Option<seq<Byte>>): Option<seq<Byte>> {
    if o.None? then None else Some(b + o.value)
  }

  function SimpleEscape(c: Byte): Option<Byte> {
    if c == QUOTE || c == BACKSLASH || c == 0x2F then Some(c)
    else if c == 0x62 then Some(0x08)
    else if c == 0x66 then Some(0x0C)
    else if c == 0x6E then Some(0x0A)
    else if c == 0x72 then Some(0x0D)
    else if c == 0x74 then Some(0x09)
    else None
  }

  /** What json.Unmarshal makes of the text between the quotes. */
  function UnquoteBody(t: seq<Byte>): Option<seq<Byte>> {
    if t == [] then Some([])
    else if t[0] == BACKSLASH then
      var n := CodeUnit(t);
      if |t| < 2 then None
      else if SimpleEscape(t[1]).Some? then Then([SimpleEscape(t[1]).value], UnquoteBody(t[2..]))
      else if n < 0 then None
      else if HighSurrogate(n) && LowSurrogate(CodeUnit(t[6..])) then
        Then(EncodeRune(0x1_0000 + (n - 0xD800) * 0x400 + (CodeUnit(t[6..]) - 0xDC00)), UnquoteBody(t[12..]))
      else Then(EncodeRune(if IsRune(n) then n else REPLACEMENT), UnquoteBody(t[6..]))
    else if t[0] == QUOTE || t[0] < 0x20 then None
    else Then(EncodeRune(DecodeRune(t).rune), UnquoteBody(t[DecodeRune(t).size..]))
  }

  /** jsonUnquote of a string that begins and ends with a quote. */
  function Unquote(lit: seq<Byte>): Option<seq<Byte>>
    requires |lit| >= 2
  {
    UnquoteBody(lit[1..|lit| - 1])
  }

  lemma HexBack(d: nat)
    requires d < 0x10
    ensures HexValue(Hex(d)) == d
  {
  }

  lemma UnicodeBack(n: nat, rest: seq<Byte>)
    requires n < 0x1_0000
    ensures CodeUnit(Unicode(n) + rest) == n && |Unicode(n)| == 6
    ensures HexValue(Unicode(n)[2]) >= 0 && HexValue(Unicode(n)[3]) >= 0
    ensures HexValue(Unicode(n)[4]) >= 0 && HexValue(Unicode(n)[5]) >= 0
  {
    hide Hex, HexValue;
    HexDigits(n);
    HexBack(n / 0x1000);
    HexBack(n / 0x100 % 0x10);
    HexBack(n / 0x10 % 0x10);
    HexBack(n % 0x10);
    var t := Unicode(n) + rest;
    assert t[..6] == Unicode(n);
  }

  lemma HexDigits(n: nat)
    requires n < 0x1_0000
    ensures n == n / 0x1000 * 0x1000 + n / 0x100 % 0x10 * 0x100 + n / 0x10 % 0x10 * 0x10 + n % 0x10
  {
    assert n / 0x10 == n / 0x100 * 0x10 + n / 0x10 % 0x10;
    assert n / 0x100 == n / 0x1000 * 0x10 + n / 0x100 % 0x10;
  }

  lemma UnquoteUnicode(n: nat, rest: seq<Byte>)
    requires n < 0x1_0000 && IsRune(n)
    ensures UnquoteBody(Unicode(n) + rest) == Then(EncodeRune(n), UnquoteBody(rest))
  {
    hide EncodeRune, DecodeRune, CodeUnit;
    UnicodeBack(n, rest);
    var t := Unicode(n) + rest;
    assert t[0] == BACKSLASH && t[1] == LETTER_U && t[6..] == rest;
  }

  lemma UnquoteUnit(s: seq<Byte>, rest: seq<Byte>)
    requires s != []
    ensures UnquoteBody(QuoteUnit(s) + rest) == Then(EncodeRune(DecodeRune(s).rune), UnquoteBody(rest))
  {
    var a := s[0];
    if a < 0x80 {
      AsciiRune(s);
      if Safe(a) {
        UnquoteRaw(s, rest);
      } else if a == QUOTE || a == BACKSLASH || a == 0x0A || a == 0x0D || a == 0x09 {
        hide EncodeRune, DecodeRune, CodeUnit, Unicode;
        var t := QuoteUnit(s) + rest;
        assert t[0] == BACKSLASH && t[2..] == rest;
      } else {
        UnquoteUnicode(a, rest);
      }
    } else if Broken(s) {
      UnquoteUnicode(REPLACEMENT, rest);
    } else if DecodeRune(s).rune == 0x2028 || DecodeRune(s).rune == 0x2029 {
      UnquoteUnicode(DecodeRune(s).rune, rest);
    } else {
      UnquoteRaw(s, rest);
    }
  }

  lemma AsciiRune(s: seq<Byte>)
    requires s != [] && s[0] < 0x80
    ensures DecodeRune(s) == Decoded(s[0], 1) && EncodeRune(s[0]) == [s[0]]
  {
  }

  lemma UnquoteRaw(s: seq<Byte>, rest: seq<Byte>)
    requires s != [] && !Broken(s) && 0x20 <= s[0] && s[0] != QUOTE && s[0] != BACKSLASH
    ensures UnquoteBody(s[..DecodeRune(s).size] + rest) == Then(EncodeRune(DecodeRune(s).rune), UnquoteBody(rest))
  {
    hide EncodeRune, DecodeRune, Broken;
    EncodeDecode(s);
    DecodeEncode(DecodeRune(s).rune, rest);
    var t := s[..DecodeRune(s).size] + rest;
    assert t[0] == s[0] && t[DecodeRune(s).size..] == rest;
  }

  lemma {:induction false} UnquoteQuoteBody(s: seq<Byte>)
    ensures UnquoteBody(QuoteBody(s)) == Some(Sanitize(s))
  {
    if s != [] {
      hide QuoteUnit, UnquoteBody, DecodeRune, EncodeRune;
      var rest := s[DecodeRune(s).size..];
      UnquoteUnit(s, QuoteBody(rest));
      UnquoteQuoteBody(rest);
    }
  }

  /** Quoting loses nothing of a valid string: what comes back is the string with its broken bytes
      replaced, so exactly the valid UTF-8 strings come back as they were. */
  lemma UnquoteQuote(s: seq<Byte>)
    ensures Unquote(Quote(s)) == Some(Sanitize(s))
    ensures Unquote(Quote(s)) == Some(s) <==> IsUtf8(s)
  {
    UnquoteQuoteBody(s);
    assert Quote(s)[1..|Quote(s)| - 1] == QuoteBody(s);
    SanitizeIff(s);
  }

  // ---------------------------------------------------------------- the grammar of strings

  predicate IsHexDigit(b: Byte) { HexValue(b) >= 0 }

  /** The characters of section 7 of RFC 8259. */
  predicate StringChars(t: seq<Byte>) {
    if t == [] then true
    else if t[0] == BACKSLASH then
      || (|t| >= 2 && SimpleEscape(t[1]).Some? && StringChars(t[2..]))
      || (|t| >= 6 && t[1] == LETTER_U && IsHexDigit(t[2]) && IsHexDigit(t[3]) && IsHexDigit(t[4]) && IsHexDigit(t[5])
          && StringChars(t[6..]))
    else t[0] >= 0x20 && t[0] != QUOTE && !Broken(t) && StringChars(t[DecodeRune(t).size..])
  }

  predicate IsString(b: seq<Byte>) {
    |b| >= 2 && b[0] == QUOTE && b[|b| - 1] == QUOTE && StringChars(b[1..|b| - 1])
  }

  lemma StringCharsUnit(s: seq<Byte>, rest: seq<Byte>)
    requires s != [] && StringChars(rest)
    ensures StringChars(QuoteUnit(s) + rest)
  {
    var a := s[0];
    var t := QuoteUnit(s) + rest;
    if a < 0x80 && Safe(a) {
      AsciiRune(t);
      assert t[1..] == rest;
    } else if a == QUOTE || a == BACKSLASH || a == 0x0A || a == 0x0D || a == 0x09 {
      hide DecodeRune;
      assert t[2..] == rest;
    } else if a >= 0x80 && !Broken(s) && DecodeRune(s).rune != 0x2028 && DecodeRune(s).rune != 0x2029 {
      hide EncodeRune, DecodeRune;
      EncodeDecode(s);
      DecodeEncode(DecodeRune(s).rune, rest);
      assert t[0] == a && t[DecodeRune(s).size..] == rest;
    }
  }

  /** Every byte string, valid or not, is quoted as a string of the grammar. */
  lemma {:induction false} QuoteIsString(s: seq<Byte>)
    ensures IsString(Quote(s)) && StringChars(QuoteBody(s))
  {
    if s != [] {
      hide QuoteUnit, DecodeRune;
      var rest := s[DecodeRune(s).size..];
      QuoteIsString(rest);
      StringCharsUnit(s, QuoteBody(rest));
    }
    assert Quote(s)[1..|Quote(s)| - 1] == QuoteBody(s);
  }

  /** Text, byte by byte, in which every escape is one of JSON's, with no control character and no
      quote that is not escaped. Bytes that are no UTF-8 pass. */
  predicate WellEscaped(t: seq<Byte>) {
    if t == [] then true
    else if t[0] == BACKSLASH then
      || (|t| >= 2 && SimpleEscape(t[1]).Some? && WellEscaped(t[2..]))
      || (|t| >= 6 && t[1] == LETTER_U && IsHexDigit(t[2]) && IsHexDigit(t[3]) && IsHexDigit(t[4]) && IsHexDigit(t[5])
          && WellEscaped(t[6..]))
    else t[0] >= 0x20 && t[0] != QUOTE && WellEscaped(t[1..])
  }

  lemma {:induction false} WellEscapedAfter(t: seq<Byte>, n: nat)
    requires n <= |t| && forall i :: 0 <= i < n ==> t[i] >= 0x80
    ensures WellEscaped(t) <==> WellEscaped(t[n..])
  {
    if n == 0 {
      assert t[0..] == t;
    } else {
      WellEscapedAfter(t[1..], n - 1);
      assert t[1..][n - 1..] == t[n..];
    }
  }

  lemma CodeUnitIff(t: seq<Byte>)
    ensures CodeUnit(t) >= 0 <==>
      |t| >= 6 && t[0] == BACKSLASH && t[1] == LETTER_U
      && IsHexDigit(t[2]) && IsHexDigit(t[3]) && IsHexDigit(t[4]) && IsHexDigit(t[5])
    ensures CodeUnit(t) >= 0 ==> (WellEscaped(t) <==> WellEscaped(t[6..]))
  {
    hide HexValue;
  }

  /** Exactly such text can be unquoted. */
  lemma {:induction false} UnquoteIff(t: seq<Byte>)
    ensures UnquoteBody(t).Some? <==> WellEscaped(t)
    decreases |t|
  {
    hide EncodeRune, DecodeRune, CodeUnit, HexValue, IsHexDigit;
    if t != [] {
      if t[0] == BACKSLASH {
        CodeUnitIff(t);
        if |t| >= 2 { UnquoteIff(t[2..]); }
        if CodeUnit(t) >= 0 {
          UnquoteIff(t[6..]);
          CodeUnitIff(t[6..]);
          if CodeUnit(t[6..]) >= 0 {
            assert t[6..][6..] == t[12..];
            UnquoteIff(t[12..]);
          }
        }
      } else {
        if t[0] >= 0x80 {
          RawPlain(t);
          WellEscapedAfter(t, DecodeRune(t).size);
        } else {
          AsciiRune(t);
        }
        UnquoteIff(t[DecodeRune(t).size..]);
      }
    }
  }

  // ---------------------------------------------------------------- where a string ends

  /** The index of the closing quote, found from left to right: a backslash escapes whatever
      follows it. */
  function StringEnd(t: seq<Byte>, escaped: bool): (e: Option<nat>)
    ensures e.Some? ==> e.value < |t| && t[e.value] == QUOTE
  {
    if t == [] then None
    else if !escaped && t[0] == QUOTE then Some(0)
    else
      var e := StringEnd(t[1..], !escaped && t[0] == BACKSLASH);
      if e.None? then None else Some(e.value + 1)
  }

  function Shift(e: Option<nat>, n: nat): Option<nat> { if e.None? then None else Some(e.value + n) }

  /** The number of backslashes at the end. */
  function Trailing(u: seq<Byte>): (n: nat)
    ensures n <= |u|
  {
    if u != [] && u[|u| - 1] == BACKSLASH then Trailing(u[..|u| - 1]) + 1 else 0
  }

  /** The index of the first d. */
  function Find(t: seq<Byte>, d: Byte): (k: Option<nat>)
    ensures k.Some? ==> k.value < |t| && t[k.value] == d && d !in t[..k.value]
    ensures k.None? ==> d !in t
  {
    if t == [] then None else if t[0] == d then Some(0) else Shift(Find(t[1..], d), 1)
  }

  /** The end as the parser finds it: split at quotes, and go on past a quote that an odd number of
      backslashes precedes in its own piece. */
  function SplitEnd(t: seq<Byte>): (e: Option<nat>)
    ensures e.Some? ==> e.value < |t|
  {
    match Find(t, QUOTE)
    case None => None
    case Some(k) => if Trailing(t[..k]) % 2 == 0 then Some(k) else Shift(SplitEnd(t[k + 1..]), k + 1)
  }

  /** Whether the byte after u is escaped. */
  predicate EscapedAfter(u: seq<Byte>, escaped: bool) {
    if u == [] then escaped else !EscapedAfter(u[..|u| - 1], escaped) && u[|u| - 1] == BACKSLASH
  }

  lemma {:induction false} ScanPiece(u: seq<Byte>, rest: seq<Byte>, escaped: bool)
    requires QUOTE !in u
    ensures StringEnd(u + rest, escaped) == Shift(StringEnd(rest, EscapedAfter(u, escaped)), |u|)
  {
    if u == [] {
      assert u + rest == rest;
    } else {
      var n := |u| - 1;
      ScanPiece(u[..n], [u[n]] + rest, escaped);
      assert u + rest == u[..n] + ([u[n]] + rest);
      assert ([u[n]] + rest)[1..] == rest;
      assert u[n] in u;
    }
  }

  lemma {:induction false} ParityIsEscape(u: seq<Byte>)
    ensures EscapedAfter(u, false) <==> Trailing(u) % 2 == 1
  {
    if u != [] { ParityIsEscape(u[..|u| - 1]); }
  }

  lemma EndAtQuote(rest: seq<Byte>, escaped: bool)
    ensures StringEnd([QUOTE] + rest, escaped) == if escaped then Shift(StringEnd(rest, false), 1) else Some(0)
  {
    assert ([QUOTE] + rest)[1..] == rest;
  }

  lemma SplitAt(t: seq<Byte>, k: nat)
    requires k < |t|
    ensures t == t[..k] + ([t[k]] + t[k + 1..])
  {
  }

  /** A piece that reaches a quote: the parity of its backslashes decides whether the string ends. */
  lemma PieceEnds(t: seq<Byte>, k: nat)
    requires k < |t| && t[k] == QUOTE && QUOTE !in t[..k]
    ensures StringEnd(t, false) == if Trailing(t[..k]) % 2 == 0 then Some(k)
        else Shift(StringEnd(t[k + 1..], false), k + 1)
  {
    hide StringEnd, EscapedAfter, Trailing;
    var u, rest := t[..k], [QUOTE] + t[k + 1..];
    SplitAt(t, k);
    ScanPiece(u, rest, false);
    ParityIsEscape(u);
    EndAtQuote(t[k + 1..], EscapedAfter(u, false));
  }

  lemma {:induction false} NoQuoteNoEnd(t: seq<Byte>, escaped: bool)
    requires QUOTE !in t
    ensures StringEnd(t, escaped) == None
  {
    if t != [] { NoQuoteNoEnd(t[1..], !escaped && t[0] == BACKSLASH); }
  }

  /** On every byte sequence the two find the same end. */
  lemma {:induction false} SplitIsAutomaton(t: seq<Byte>)
    ensures SplitEnd(t) == StringEnd(t, false)
    decreases |t|
  {
    match Find(t, QUOTE)
    case None => NoQuoteNoEnd(t, false);
    case Some(k) =>
      PieceEnds(t, k);
      SplitIsAutomaton(t[k + 1..]);
  }

  /** Bytes that end no string are passed over. */
  lemma {:induction false} EndAfterPlain(u: seq<Byte>, rest: seq<Byte>)
    requires forall i :: 0 <= i < |u| ==> u[i] != QUOTE && u[i] != BACKSLASH
    ensures StringEnd(u + rest, false) == Shift(StringEnd(rest, false), |u|)
  {
    if u == [] {
      assert u + rest == rest;
    } else {
      EndAfterPlain(u[1..], rest);
      assert (u + rest)[1..] == u[1..] + rest;
    }
  }

  lemma EndAfterEscape(u: seq<Byte>, rest: seq<Byte>)
    requires |u| >= 2 && u[0] == BACKSLASH
    requires forall i :: 2 <= i < |u| ==> u[i] != QUOTE && u[i] != BACKSLASH
    ensures StringEnd(u + rest, false) == Shift(StringEnd(rest, false), |u|)
  {
    EndAfterPlain(u[2..], rest);
    assert (u + rest)[1..][1..] == u[2..] + rest;
    assert (u + rest)[1..][0] == u[1];
  }

  lemma RawPlain(s: seq<Byte>)
    requires s != [] && s[0] >= 0x80
    ensures forall i :: 0 <= i < DecodeRune(s).size ==> s[i] >= 0x80
  {
  }

  lemma EndAfterUnit(s: seq<Byte>, rest: seq<Byte>)
    requires s != []
    ensures StringEnd(QuoteUnit(s) + rest, false) == Shift(StringEnd(rest, false), |QuoteUnit(s)|)
  {
    hide StringEnd, DecodeRune;
    if s[0] >= 0x80 { RawPlain(s); }
    if s[0] < 0x80 && Safe(s[0]) {
      EndAfterPlain(QuoteUnit(s), rest);
    } else if s[0] < 0x80 || Broken(s) || DecodeRune(s).rune == 0x2028 || DecodeRune(s).rune == 0x2029 {
      EndAfterEscape(QuoteUnit(s), rest);
    } else {
      EndAfterPlain(s[..DecodeRune(s).size], rest);
    }
  }

  /** A quoted string ends at its own closing quote. */
  lemma {:induction false} EndOfQuoted(s: seq<Byte>, rest: seq<Byte>)
    ensures StringEnd(QuoteBody(s) + [QUOTE] + rest, false) == Some(|QuoteBody(s)|)
  {
    if s == [] {
      assert QuoteBody(s) + [QUOTE] + rest == [QUOTE] + rest;
    } else {
      hide StringEnd, QuoteUnit, QuoteBody, DecodeRune;
      var tail := s[DecodeRune(s).size..];
      QuoteBodyStep(s);
      EndOfQuoted(tail, rest);
      EndAfterUnit(s, QuoteBody(tail) + [QUOTE] + rest);
      Reassociate(QuoteUnit(s), QuoteBody(tail), [QUOTE], rest);
    }
  }

  lemma QuoteBodyStep(s: seq<Byte>)
    requires s != []
    ensures QuoteBody(s) == QuoteUnit(s) + QuoteBody(s[DecodeRune(s).size..])
  {
    hide QuoteUnit, DecodeRune;
  }

  lemma Reassociate<T>(a: seq<T>, b: seq<T>, c: seq<T>, d: seq<T>)
    ensures a + b + c + d == a + (b + c + d)
  {
  }

  lemma {:induction false} QuoteSafe(s: seq<Byte>)
    requires forall i :: 0 <= i < |s| ==> Safe(s[i])
    ensures QuoteBody(s) == s
  {
    if s != [] {
      AsciiRune(s);
      QuoteSafe(s[1..]);
    }
  }

  // ---------------------------------------------------------------- integers

  predicate IsDigit(b: Byte) { 0x30 <= b <= 0x39 }

  predicate AllDigits(s: seq<Byte>) { forall i :: 0 <= i < |s| ==> IsDigit(s[i]) }

  function Decimal(u: nat): (b: seq<Byte>)
    ensures b != [] && AllDigits(b)
  {
    if u < 10 then [0x30 + u] else Decimal(u / 10) + [0x30 + u % 10]
  }

  /** strconv.FormatInt in base 10. */
  function FormatInt(n: int): (b: seq<Byte>)
    ensures b != [] && (IsDigit(b[0]) || b[0] == MINUS)
  {
    if n < 0 then [MINUS] + Decimal(-n) else Decimal(n)
  }

  function DigitValue(b: Byte): nat
    requires IsDigit(b)
  {
    b as int - 0x30
  }

  function DigitsValue(s: seq<Byte>): nat
    requires AllDigits(s)
  {
    if s == [] then 0 else DigitsValue(s[..|s| - 1]) * 10 + DigitValue(s[|s| - 1])
  }

  function Clamp(n: int): I64 {
    if n < -0x8000_0000_0000_0000 then -0x8000_0000_0000_0000
    else if n > 0x7fff_ffff_ffff_ffff then 0x7fff_ffff_ffff_ffff
    else n
  }

  /** The integer of strconv.ParseInt(s, 10, 64) with its error dropped: zero where s is no
      integer, the nearest int64 where it is out of range. */
  function ParseInt(s: seq<Byte>): I64 {
    var signed := s != [] && (s[0] == MINUS || s[0] == PLUS);
    var ds := if signed then s[1..] else s;
    if ds == [] || !AllDigits(ds) then 0
    else
      var v: int := DigitsValue(ds);
      Clamp(if signed && s[0] == MINUS then -v else v)
  }

  lemma {:induction false} DecimalBack(u: nat)
    ensures DigitsValue(Decimal(u)) == u
  {
    if u >= 10 {
      DecimalBack(u / 10);
      assert Decimal(u)[..|Decimal(u)| - 1] == Decimal(u / 10);
    } else {
      assert Decimal(u)[..0] == [];
    }
  }

  lemma ParseFormat(n: I64)
    ensures ParseInt(FormatInt(n)) == n
  {
    hide Decimal, DigitsValue;
    if n < 0 {
      var m: int := n;
      DecimalBack(-m);
      assert FormatInt(m)[1..] == Decimal(-m);
    } else {
      DecimalBack(n);
    }
  }

  /** An integer of section 6 of RFC 8259: no sign but a minus, and no leading zero. */
  predicate IsNumber(b: seq<Byte>) {
    var ds := if b != [] && b[0] == MINUS then b[1..] else b;
    ds != [] && AllDigits(ds) && (ds[0] == 0x30 ==> |ds| == 1)
  }

  lemma {:induction false} NoLeadingZero(u: nat)
    ensures Decimal(u)[0] == 0x30 ==> u == 0 && |Decimal(u)| == 1
  {
    if u >= 10 { NoLeadingZero(u / 10); }
  }

  lemma FormatIsNumber(n: int)
    ensures IsNumber(FormatInt(n))
  {
    hide Decimal;
    NoLeadingZero(if n < 0 then -n else n);
    if n < 0 { assert FormatInt(n)[1..] == Decimal(-n); }
  }

  /** A number that is an object key is quoted without escapes. */
  lemma QuoteNumber(n: int)
    ensures QuoteBody(FormatInt(n)) == FormatInt(n)
  {
    hide Decimal, QuoteBody;
    QuoteSafe(FormatInt(n));
  }
}
