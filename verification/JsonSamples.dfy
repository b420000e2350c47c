/** JSON texts to the letter. */
module JsonSamples {
  import opened Options
  import opened Words
  import opened Values
  import opened Utf8
  import opened JsonText
  import opened JsonWire
  import opened JsonTrees
  import opened JsonSpacing
  import opened JsonTokens

  /** The bytes of a text of ASCII characters. */
  function Ascii(s: string): seq<Byte> { seq(|s|, i requires 0 <= i < |s| => s[i] as int % 0x80) }

  lemma JsonNames()
    ensures TypeIdToString(BOOL) == Some(Ascii("tf")) && TypeIdToString(BYTE) == Some(Ascii("i8"))
    ensures TypeIdToString(I16T) == Some(Ascii("i16")) && TypeIdToString(I32T) == Some(Ascii("i32"))
    ensures TypeIdToString(I64T) == Some(Ascii("i64")) && TypeIdToString(DOUBLE) == Some(Ascii("dbl"))
    ensures TypeIdToString(STRING) == Some(Ascii("str")) && TypeIdToString(STRUCT) == Some(Ascii("rec"))
    ensures TypeIdToString(MAP) == Some(Ascii("map")) && TypeIdToString(SET) == Some(Ascii("set"))
    ensures TypeIdToString(LIST) == Some(Ascii("lst"))
  {
    assert NAME_BOOL == Ascii("tf") && NAME_BYTE == Ascii("i8") && NAME_I16 == Ascii("i16");
    assert NAME_I32 == Ascii("i32") && NAME_I64 == Ascii("i64") && NAME_DOUBLE == Ascii("dbl");
    assert NAME_STRING == Ascii("str") && NAME_STRUCT == Ascii("rec") && NAME_MAP == Ascii("map");
    assert NAME_SET == Ascii("set") && NAME_LIST == Ascii("lst");
  }

  lemma JsonLiterals()
    ensures NULL == Ascii("null") && TRUE == Ascii("true") && FALSE == Ascii("false")
  {
  }

  lemma QuoteSafeText(s: seq<Byte>)
    requires forall i :: 0 <= i < |s| ==> Safe(s[i])
    ensures Quote(s) == [QUOTE] + s + [QUOTE]
  {
    hide QuoteBody;
    QuoteSafe(s);
  }

  lemma Digit(n: nat)
    requires n < 10
    ensures FormatInt(n) == [0x30 + n] && Quote(FormatInt(n)) == [QUOTE, 0x30 + n, QUOTE]
  {
    hide QuoteBody, Quote;
    QuoteSafeText([0x30 + n]);
  }

  /** A struct, a list, a map and the beginning of a message, to the letter. */
  lemma JsonStruct()
    ensures Body(VStruct([Field(1, VI32(5))]), false) == Ascii("{\"1\":{\"i32\":5}}")
  {
    hide Quote, FormatInt;
    Digit(5);
    var f := Field(1, VI32(5));
    assert [f][1..] == [];
    assert FieldsBody([f], true) == [] + FieldBody(f) + [];
    assert FieldBody(f) == FieldHead(I32T, 1) + [COLON] + FormatInt(5) + [RBRACE];
    assert Body(VStruct([f]), false) == [LBRACE] + FieldsBody([f], true) + [RBRACE];
    FieldHeadText();
    hide *;
  }

  lemma FieldHeadText()
    ensures FieldHead(I32T, 1) == Ascii("\"1\":{\"i32\"")
  {
    hide Quote, FormatInt;
    JsonNames();
    Digit(1);
    QuoteSafeText(NAME_I32);
  }

  lemma JsonList()
    ensures Body(VList(BOOL, [VBool(true), VBool(false)]), false) == Ascii("[\"tf\",2,1,0]")
  {
    hide Quote, FormatInt;
    JsonNames();
    Digit(0);
    Digit(1);
    Digit(2);
    QuoteSafeText(NAME_BOOL);
    var vs := [VBool(true), VBool(false)];
    assert vs[1..] == [VBool(false)] && [VBool(false)][1..] == [];
    assert AllBody([VBool(false)]) == [COMMA] + FormatInt(0) + [];
    assert AllBody(vs) == [COMMA] + FormatInt(1) + AllBody([VBool(false)]);
  }

  lemma JsonMap()
    ensures Body(VMap(BYTE, STRING, [Entry(VByte(5), VString([]))]), false)
         == Ascii("[\"i8\",\"str\",1,{\"5\":\"\"}]")
  {
    hide Quote, FormatInt;
    Digit(5);
    QuoteSafeText([]);
    var e := Entry(VByte(5), VString([]));
    assert [e][1..] == [];
    assert EntryBody(e) == Quote(FormatInt(5)) + [COLON] + Quote([]);
    assert EntriesBody([e], true) == [] + EntryBody(e) + [];
    assert Body(VMap(BYTE, STRING, [e]), false)
        == MapHead(BYTE, STRING, 1) + EntriesBody([e], true) + [RBRACE] + [RBRACKET];
    MapHeadText();
    hide *;
  }

  lemma MapHeadText()
    ensures MapHead(BYTE, STRING, 1) == Ascii("[\"i8\",\"str\",1,{")
  {
    hide Quote, FormatInt;
    JsonNames();
    Digit(1);
    QuoteSafeText(NAME_BYTE);
    QuoteSafeText(NAME_STRING);
  }

  lemma JsonMessage()
    ensures MessageHead([0x61], 1, 7) == Ascii("[1,\"a\",1,7")
  {
    hide Quote, FormatInt;
    Digit(1);
    Digit(7);
    QuoteSafeText([0x61]);
  }

  /** What json.Marshal escapes. */
  lemma JsonEscapesWritten()
    ensures QuoteBody([0x0A]) == Ascii("\\n") && QuoteBody([0x0D]) == Ascii("\\r")
    ensures QuoteBody([0x09]) == Ascii("\\t") && QuoteBody([QUOTE]) == Ascii("\\\"")
    ensures QuoteBody([BACKSLASH]) == Ascii("\\\\")
  {
    hide QuoteBody;
    QuoteOne(0x0A);
    QuoteOne(0x0D);
    QuoteOne(0x09);
    QuoteOne(QUOTE);
    QuoteOne(BACKSLASH);
  }

  lemma JsonCodeUnitsWritten()
    ensures QuoteBody([0x01]) == Ascii("\\u0001") && QuoteBody([0x3C]) == Ascii("\\u003c")
    ensures QuoteBody([0x3E]) == Ascii("\\u003e") && QuoteBody([0x26]) == Ascii("\\u0026")
  {
    hide QuoteBody, Unicode;
    QuoteOne(0x01);
    QuoteOne(0x3C);
    QuoteOne(0x3E);
    QuoteOne(0x26);
    ControlTexts();
  }

  lemma ControlTexts()
    ensures Unicode(0x01) == Ascii("\\u0001") && Unicode(0x3C) == Ascii("\\u003c")
    ensures Unicode(0x3E) == Ascii("\\u003e") && Unicode(0x26) == Ascii("\\u0026")
  {
  }

  lemma QuoteOne(a: Byte)
    requires a < 0x80
    ensures QuoteBody([a]) == QuoteUnit([a])
  {
    hide QuoteUnit;
    AsciiRune([a]);
    assert [a][1..] == [];
    assert QuoteBody([a]) == QuoteUnit([a]) + [];
  }

  /** What each escape stands for when it is read. */
  lemma JsonEscapesRead()
    ensures UnquoteBody(Ascii("\\\"")) == Some([0x22]) && UnquoteBody(Ascii("\\\\")) == Some([0x5C])
    ensures UnquoteBody(Ascii("\\/")) == Some([0x2F]) && UnquoteBody(Ascii("\\b")) == Some([0x08])
    ensures UnquoteBody(Ascii("\\f")) == Some([0x0C]) && UnquoteBody(Ascii("\\n")) == Some([0x0A])
    ensures UnquoteBody(Ascii("\\r")) == Some([0x0D]) && UnquoteBody(Ascii("\\t")) == Some([0x09])
  {
    hide UnquoteBody;
    UnquotePair(0x22);
    UnquotePair(0x5C);
    UnquotePair(0x2F);
    UnquotePair(0x62);
    UnquotePair(0x66);
    UnquotePair(0x6E);
    UnquotePair(0x72);
    UnquotePair(0x74);
    assert Ascii("\\\"") == [BACKSLASH, 0x22] && Ascii("\\\\") == [BACKSLASH, 0x5C];
    assert Ascii("\\/") == [BACKSLASH, 0x2F] && Ascii("\\b") == [BACKSLASH, 0x62];
    assert Ascii("\\f") == [BACKSLASH, 0x66] && Ascii("\\n") == [BACKSLASH, 0x6E];
    assert Ascii("\\r") == [BACKSLASH, 0x72] && Ascii("\\t") == [BACKSLASH, 0x74];
  }

  lemma UnquotePair(c: Byte)
    requires SimpleEscape(c).Some?
    ensures UnquoteBody([BACKSLASH, c]) == Some([SimpleEscape(c).value])
  {
    hide SimpleEscape, CodeUnit, EncodeRune, DecodeRune;
    assert [BACKSLASH, c][2..] == [];
    assert [SimpleEscape(c).value] + [] == [SimpleEscape(c).value];
  }

  /** Hexadecimal digits of both cases are read, and lower case is written. */
  lemma HexDigitsToTheLetter(d: nat)
    requires d < 0x10
    ensures HexValue(Ascii("0123456789abcdef")[d]) == d && HexValue(Ascii("0123456789ABCDEF")[d]) == d
    ensures Hex(d) == Ascii("0123456789abcdef")[d]
  {
  }

  /** A code unit, a pair of surrogates and half of one: U+00E9, U+1F600 and the replacement character. */
  lemma JsonCodeUnitsRead()
    ensures UnquoteBody(Ascii("\\u00e9")) == Some([0xC3, 0xA9])
    ensures UnquoteBody(Ascii("\\ud83d\\ude00")) == Some([0xF0, 0x9F, 0x98, 0x80])
    ensures UnquoteBody(Ascii("\\ud83d")) == Some([0xEF, 0xBF, 0xBD])
  {
    hide UnquoteBody, EncodeRune, CodeUnit;
    UnitsOfTexts();
    UnquoteUnitOnly(Ascii("\\u00e9"));
    UnquoteUnitOnly(Ascii("\\ud83d"));
    UnquotePairOfUnits(Ascii("\\ud83d\\ude00"));
    RuneBytes();
  }

  lemma UnitsOfTexts()
    ensures CodeUnit(Ascii("\\u00e9")) == 0xE9 && CodeUnit(Ascii("\\ud83d")) == 0xD83D
    ensures var pair := Ascii("\\ud83d\\ude00"); CodeUnit(pair) == 0xD83D && CodeUnit(pair[6..]) == 0xDE00
  {
    var pair := Ascii("\\ud83d\\ude00");
    assert pair[6..] == [BACKSLASH, LETTER_U, 0x64, 0x65, 0x30, 0x30];
    assert CodeUnit(pair[6..]) == 0xDE00;
  }

  lemma RuneBytes()
    ensures EncodeRune(0xE9) == [0xC3, 0xA9] && EncodeRune(0x1F600) == [0xF0, 0x9F, 0x98, 0x80]
    ensures EncodeRune(REPLACEMENT) == [0xEF, 0xBF, 0xBD]
  {
  }

  lemma UnquoteUnitOnly(t: seq<Byte>)
    requires |t| == 6 && t[1] == LETTER_U && CodeUnit(t) >= 0
    ensures UnquoteBody(t) == Some(EncodeRune(if IsRune(CodeUnit(t)) then CodeUnit(t) else REPLACEMENT))
  {
    hide CodeUnit, EncodeRune, DecodeRune;
    assert t[6..] == [];
    NoUnit();
    var b := EncodeRune(if IsRune(CodeUnit(t)) then CodeUnit(t) else REPLACEMENT);
    assert b + [] == b;
  }

  lemma NoUnit()
    ensures CodeUnit([]) == -1
  {}

  lemma UnquotePairOfUnits(t: seq<Byte>)
    requires |t| == 12 && t[1] == LETTER_U && HighSurrogate(CodeUnit(t)) && LowSurrogate(CodeUnit(t[6..]))
    ensures UnquoteBody(t) == Some(EncodeRune(0x1_0000 + (CodeUnit(t) - 0xD800) * 0x400 + (CodeUnit(t[6..]) - 0xDC00)))
  {
    hide CodeUnit, EncodeRune, DecodeRune;
    assert t[12..] == [];
    var b := EncodeRune(0x1_0000 + (CodeUnit(t) - 0xD800) * 0x400 + (CodeUnit(t[6..]) - 0xDC00));
    assert b + [] == b;
  }

  /** A message header as a person would write it. */
  lemma SpacedMessage(rest: seq<Byte>, ctx: seq<Ctx>, trace: seq<seq<Ctx>>)
    requires Stops(rest)
    ensures ReadMessageBegin(At(Ascii("[1, \"ping\", 1, 7") + rest, ctx, trace)).r
         == Done(JMessage(Ascii("ping"), 1, 7))
  {
    hide ReadMessageBegin, Lay, Stops, Sanitize, MessageTokens, Ascii;
    var gap: Gaps := i => if i == 2 || i == 4 || i == 6 then [0x20] else [];
    assert AllWhite(gap);
    PingIsSafe();
    SafeIsClean(Ascii("ping"));
    SpacedText(gap);
    assert [] + Lay(gap, 0, MessageTokens(Ascii("ping"), 1, 7)) == Lay(gap, 0, MessageTokens(Ascii("ping"), 1, 7));
    ReadMessageBeginOf(Ascii("ping"), 1, 7, [], gap, 0, rest, ctx, trace);
  }

  lemma PingIsSafe()
    ensures forall i :: 0 <= i < |Ascii("ping")| ==> Safe(Ascii("ping")[i])
  {
  }

  lemma SpacedText(gap: Gaps)
    requires gap(0) == gap(1) == gap(3) == gap(5) == gap(7) == [] && gap(2) == gap(4) == gap(6) == [0x20]
    ensures Lay(gap, 0, MessageTokens(Ascii("ping"), 1, 7)) == Ascii("[1, \"ping\", 1, 7")
  {
    hide Lay, Quote, FormatInt, MessageTokens;
    MessageLaid(Ascii("ping"), 1, 7, gap, 0, []);
    Digit(1);
    Digit(7);
    PingIsSafe();
    QuoteSafeText(Ascii("ping"));
    assert NumbersText(1, 7, gap, 4, []) == [0x20, 0x31, COMMA, 0x20, 0x37];
    hide NumbersText;
    var laid := Lay(gap, 0, MessageTokens(Ascii("ping"), 1, 7));
    var nums: seq<Byte> := [0x20, 0x31, COMMA, 0x20, 0x37];
    var named := Quote(Ascii("ping")) + ([] + ([COMMA] + nums));
    assert laid + [] == [LBRACKET] + ([] + ([0x31] + ([] + ([COMMA] + ([0x20] + named)))));
    assert laid == laid + [] == [LBRACKET, 0x31, COMMA, 0x20] + named;
    hide *;
    PingText();
    assert named == Ascii("\"ping\", 1, 7");
    SpacedSplit();
  }

  lemma SpacedSplit()
    ensures Ascii("[1, \"ping\", 1, 7") == [LBRACKET, 0x31, COMMA, 0x20] + Ascii("\"ping\", 1, 7")
  {
  }

  lemma PingText()
    ensures [QUOTE] + Ascii("ping") + [QUOTE] + ([] + ([COMMA] + [0x20, 0x31, COMMA, 0x20, 0x37]))
         == Ascii("\"ping\", 1, 7")
  {
  }
}
