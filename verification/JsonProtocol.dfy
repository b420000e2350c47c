/** TJSONProtocol, with the output and parsing calls it inherits from TSimpleJSONProtocol, over
    texts held in memory. */
module JsonProtocol {
  import opened Options
  import opened Words
  import opened Values
  import opened JsonText
  import opened JsonWire
  import opened JsonTrees

  class TJSONProtocol {
    var written: seq<Byte>
    var toRead: seq<Byte>
    var dumpContext: seq<Ctx>
    var parseContextStack: seq<Ctx>
    ghost var dumped: seq<seq<Ctx>>   // dumpContext after each token written
    ghost var parsed: seq<seq<Ctx>>   // parseContextStack after each token read

    ghost predicate Valid()
      reads this
    {
      Rooted(dumpContext) && Rooted(parseContextStack)
    }

    ghost function Out(): JOut
      reads this
    {
      JOut(written, dumpContext, dumped)
    }

    ghost function In(): JIn
      reads this
    {
      JIn(toRead, parseContextStack, parsed)
    }

    /** Both constructors push the top level, so each stack starts with two of it. */
    constructor (text: seq<Byte>)
      ensures Valid()
      ensures Out() == JOut([], [Toplevel, Toplevel], []) && In() == JIn(text, [Toplevel, Toplevel], [])
    {
      written, toRead := [], text;
      dumpContext, parseContextStack := [Toplevel, Toplevel], [Toplevel, Toplevel];
      dumped, parsed := [], [];
    }

    method ResetContextStack()
      modifies this`dumpContext, this`parseContextStack
      ensures Valid()
      ensures dumpContext == [Toplevel] && In() == Reset(old(In()))
    {
      parseContextStack := [Toplevel];
      dumpContext := [Toplevel];
    }

    // -------------------------------------------------------------- output

    method OutputPreValue()
      requires Valid()
      modifies this`written
      ensures written == old(written) + Separator(Top(dumpContext))
    {
      match dumpContext[|dumpContext| - 1] {
        case InList => written := written + [COMMA];
        case NextKey => written := written + [COMMA];
        case NextValue => written := written + [COLON];
        case _ => assert written + [] == written;
      }
    }

    method OutputPostValue()
      requires Valid()
      modifies this`dumpContext
      ensures dumpContext == Post(old(dumpContext)) && Valid()
    {
      var outer := dumpContext[..|dumpContext| - 1];
      match dumpContext[|dumpContext| - 1] {
        case ListFirst => dumpContext := outer + [InList];
        case ObjectFirst => dumpContext := outer + [NextValue];
        case NextKey => dumpContext := outer + [NextValue];
        case NextValue => dumpContext := outer + [NextKey];
        case _ => assert outer + [dumpContext[|dumpContext| - 1]] == dumpContext;
      }
    }

    method OutputToken(token: seq<Byte>)
      requires Valid()
      modifies this`written, this`dumpContext, this`dumped
      ensures Valid() && Out() == OutScalar(old(Out()), token)
    {
      OutputPreValue();
      OutputStringData(token);
      OutputPostValue();
      dumped := dumped + [dumpContext];
    }

    method OutputStringData(s: seq<Byte>)
      modifies this`written
      ensures written == old(written) + s
    {
      written := written + s;
    }

    method OutputPlain(token: seq<Byte>)
      requires Valid()
      modifies this`written, this`dumpContext, this`dumped
      ensures Valid() && Out() == OutScalar(old(Out()), PlainToken(old(dumpContext), token))
    {
      var v := token;
      match dumpContext[|dumpContext| - 1] {
        case ObjectFirst => v := Quote(v);
        case NextKey => v := Quote(v);
        case _ =>
      }
      OutputToken(v);
    }

    method OutputBool(value: bool)
      requires Valid()
      modifies this`written, this`dumpContext, this`dumped
      ensures Valid()
      ensures Out() == OutScalar(old(Out()), PlainToken(old(dumpContext), if value then TRUE else FALSE))
    {
      OutputPlain(if value then TRUE else FALSE);
    }

    /** Unlike the others, not quoted where a key belongs. */
    method OutputNull()
      requires Valid()
      modifies this`written, this`dumpContext, this`dumped
      ensures Valid() && Out() == OutScalar(old(Out()), NULL)
    {
      OutputToken(NULL);
    }

    method OutputI64(value: I64)
      requires Valid()
      modifies this`written, this`dumpContext, this`dumped
      ensures Valid() && Out() == OutScalar(old(Out()), PlainToken(old(dumpContext), FormatInt(value)))
    {
      OutputPlain(FormatInt(value));
    }

    method OutputString(s: seq<Byte>)
      requires Valid()
      modifies this`written, this`dumpContext, this`dumped
      ensures Valid() && Out() == OutScalar(old(Out()), Quote(s))
    {
      OutputToken(Quote(s));
    }

    method OutputObjectBegin()
      requires Valid()
      modifies this`written, this`dumpContext, this`dumped
      ensures Valid() && Out() == OutOpen(old(Out()), LBRACE, ObjectFirst)
    {
      OutputPreValue();
      OutputStringData([LBRACE]);
      dumpContext := dumpContext + [ObjectFirst];
      dumped := dumped + [dumpContext];
    }

    method OutputObjectEnd()
      requires Valid() && |dumpContext| >= 2
      modifies this`written, this`dumpContext, this`dumped
      ensures Valid() && Out() == OutClose(old(Out()), RBRACE)
    {
      OutputStringData([RBRACE]);
      dumpContext := dumpContext[..|dumpContext| - 1];
      OutputPostValue();
      dumped := dumped + [dumpContext];
    }

    method OutputListBegin()
      requires Valid()
      modifies this`written, this`dumpContext, this`dumped
      ensures Valid() && Out() == OutOpen(old(Out()), LBRACKET, ListFirst)
    {
      OutputPreValue();
      OutputStringData([LBRACKET]);
      dumpContext := dumpContext + [ListFirst];
      dumped := dumped + [dumpContext];
    }

    method OutputListEnd()
      requires Valid() && |dumpContext| >= 2
      modifies this`written, this`dumpContext, this`dumped
      ensures Valid() && Out() == OutClose(old(Out()), RBRACKET)
    {
      OutputStringData([RBRACKET]);
      dumpContext := dumpContext[..|dumpContext| - 1];
      OutputPostValue();
      dumped := dumped + [dumpContext];
    }

    // -------------------------------------------------------------- writing

    method WriteMessageBegin(name: seq<Byte>, typeId: I32, seqId: I32)
      requires Valid()
      modifies this`written, this`dumpContext, this`dumped, this`parseContextStack
      ensures Valid() && In() == Reset(old(In()))
      ensures Out() == JOut(old(written) + MessageHead(name, ToI8(typeId), seqId), [Toplevel, InList],
                            old(dumped) + MessageHeadTrace())
    {
      hide FormatInt, Quote, OutScalar, OutOpen, PlainToken;
      ResetContextStack();
      ghost var w := Out();
      OutputListBegin();
      OutputI64(JSON_VERSION);
      OutputString(name);
      OutputI64(ToI8(typeId));
      OutputI64(seqId);
      MessageHeadOut(w, name, ToI8(typeId), seqId);
    }

    method WriteMessageEnd()
      requires Valid() && |dumpContext| >= 2
      modifies this`written, this`dumpContext, this`dumped
      ensures Valid() && Out() == OutClose(old(Out()), RBRACKET)
    {
      OutputListEnd();
    }

    /** An unknown type is an error, after the id and the brace have gone out. */
    method WriteFieldBegin(typeId: Byte, id: I16) returns (r: Outcome<()>)
      requires Valid()
      modifies this`written, this`dumpContext, this`dumped
      ensures Valid()
      ensures r == if IsType(typeId) then Done(()) else Failed(InvalidData)
      ensures Out() == OutField(old(Out()), typeId, id)
    {
      hide FormatInt, Quote, TypeIdToString;
      TypeNames(typeId, []);
      OutputI64(id);
      OutputObjectBegin();
      var s := TypeIdToString(typeId);
      if s.None? { return Failed(InvalidData); }
      OutputString(s.value);
      r := Done(());
    }

    method WriteMapBegin(keyType: Byte, valueType: Byte, size: I64) returns (r: Outcome<()>)
      requires Valid()
      modifies this`written, this`dumpContext, this`dumped
      ensures Valid()
      ensures r == if IsType(keyType) && IsType(valueType) then Done(()) else Failed(InvalidData)
      ensures r.Done? ==>
        Out() == JOut(old(written) + Separator(Top(old(dumpContext))) + MapHead(keyType, valueType, size),
                      old(dumpContext) + [InList] + [ObjectFirst], old(dumped) + MapHeadTrace(old(dumpContext)))
      ensures r.Failed? ==> var o := OutOpen(old(Out()), LBRACKET, ListFirst);
        Out() == if IsType(keyType) then OutScalar(o, Name(keyType)) else o
    {
      hide FormatInt, Quote, TypeIdToString, OutScalar, OutOpen, PlainToken;
      TypeNames(keyType, []);
      TypeNames(valueType, []);
      ghost var w := Out();
      OutputListBegin();
      var s := TypeIdToString(keyType);
      if s.None? { return Failed(InvalidData); }
      OutputString(s.value);
      s := TypeIdToString(valueType);
      if s.None? { return Failed(InvalidData); }
      OutputString(s.value);
      OutputI64(size);
      OutputObjectBegin();
      MapHeadOut(w, keyType, valueType, size);
      r := Done(());
    }

    method WriteMapEnd()
      requires Valid() && |dumpContext| >= 3
      modifies this`written, this`dumpContext, this`dumped
      ensures Valid() && Out() == OutClose(OutClose(old(Out()), RBRACE), RBRACKET)
    {
      OutputObjectEnd();
      OutputListEnd();
    }

    /** WriteListBegin and WriteSetBegin. */
    method OutputElemListBegin(elemType: Byte, size: I64) returns (r: Outcome<()>)
      requires Valid()
      modifies this`written, this`dumpContext, this`dumped
      ensures Valid()
      ensures r == if IsType(elemType) then Done(()) else Failed(InvalidData)
      ensures r.Done? ==>
        Out() == JOut(old(written) + Separator(Top(old(dumpContext))) + ListHead(elemType, size),
                      old(dumpContext) + [InList], old(dumped) + ListHeadTrace(old(dumpContext)))
      ensures r.Failed? ==> Out() == OutOpen(old(Out()), LBRACKET, ListFirst)
    {
      hide FormatInt, Quote, TypeIdToString, OutScalar, OutOpen, PlainToken;
      TypeNames(elemType, []);
      ghost var w := Out();
      OutputListBegin();
      var s := TypeIdToString(elemType);
      if s.None? { return Failed(InvalidData); }
      OutputString(s.value);
      OutputI64(size);
      ListHeadOut(w, elemType, size);
      r := Done(());
    }

    method WriteBool(b: bool)
      requires Valid()
      modifies this`written, this`dumpContext, this`dumped
      ensures Valid() && Out() == OutScalar(old(Out()), PlainToken(old(dumpContext), FormatInt(if b then 1 else 0)))
    {
      if b { OutputI64(1); } else { OutputI64(0); }
    }

    // -------------------------------------------------------------- scanning

    /** readNonSignificantWhitespace. */
    method ReadWhitespace()
      modifies this`toRead
      ensures toRead == SkipSpace(old(toRead))
    {
      while true
        invariant SkipSpace(toRead) == SkipSpace(old(toRead))
        decreases |toRead|
      {
        if |toRead| < 1 { return; }
        if IsSpace(toRead[0]) {
          toRead := toRead[1..];
        } else {
          return;
        }
      }
    }

    /** safePeekContains(JSON_NULL): byte by byte, and past the end of a text that stops short. */
    method SafePeekNull() returns (r: Outcome<bool>)
      ensures r == PeekNull(toRead)
    {
      var i := 0;
      while i < |NULL|
        invariant 0 <= i <= |NULL| && i <= |toRead| && toRead[..i] == NULL[..i]
      {
        if toRead == [] { return Done(false); }
        if i >= |toRead| {
          assert toRead == toRead[..i] == NULL[..i];
          return Failed(IndexPanic);
        }
        if toRead[i] != NULL[i] { return Done(false); }
        i := i + 1;
      }
      assert NULL[..i] == NULL;
      return Done(true);
    }

    method ReadIfNull() returns (r: Outcome<bool>)
      modifies this`toRead
      ensures Read(r, In()) == JsonWire.ReadIfNull(old(In()))
    {
      while true
        invariant SkipSpace(toRead) == SkipSpace(old(toRead))
        decreases |toRead|
      {
        if |toRead| < 1 { return Done(false); }
        if toRead[0] == NULL[0] { break; }
        if !IsSpace(toRead[0]) { return Done(false); }
        toRead := toRead[1..];
      }
      r := SafePeekNull();
      if r == Done(true) { toRead := toRead[|NULL|..]; }
    }

    /** bufio's ReadString: up to the delimiter and through it, or everything and an error. */
    method ReadThrough(delim: Byte) returns (line: seq<Byte>, err: Option<JError>)
      modifies this`toRead
      ensures var k := Find(old(toRead), delim);
        if k.Some? then err == None && line == old(toRead)[..k.value + 1] && toRead == old(toRead)[k.value + 1..]
        else err == Some(EndOfFile) && line == old(toRead) && toRead == []
    {
      var k := Find(toRead, delim);
      if k.None? {
        line, toRead := toRead, [];
        return line, Some(EndOfFile);
      }
      line, toRead := toRead[..k.value + 1], toRead[k.value + 1..];
      err := None;
    }

    /** The loop that counts backslashes before the quote at the end of line; the count is one more
        than theirs. */
    static method CountEscapes(line: seq<Byte>) returns (i: nat)
      requires line != []
      ensures i == Trailing(line[..|line| - 1]) + 1
    {
      var l := |line|;
      i := 1;
      ghost var body := line[..l - 1];
      assert body[..l - 1] == body;
      while i < l
        invariant 1 <= i <= l
        invariant Trailing(body) == Trailing(body[..l - i]) + (i - 1)
      {
        if line[l - i - 1] != BACKSLASH { return; }
        assert body[..l - i][..l - i - 1] == body[..l - (i + 1)];
        i := i + 1;
      }
      assert body[..0] == [];
    }

    /** After a quote that was escaped: the rest of the string, through the quote that ends it. */
    method ParseQuotedStringBody() returns (r: Outcome<seq<Byte>>)
      modifies this`toRead
      ensures var e := StringEnd(old(toRead), false);
        if e.Some? then r == Done(old(toRead)[..e.value + 1]) && toRead == old(toRead)[e.value + 1..]
        else r == Failed(EndOfFile) && toRead == []
      decreases |toRead|
    {
      hide StringEnd, Trailing;
      ghost var t := toRead;
      var line, err := ReadThrough(QUOTE);
      if err.Some? {
        NoQuoteNoEnd(t, false);
        return Failed(err.value);
      }
      var k := |line| - 1;
      assert line[..k] == t[..k];
      PieceEnds(t, k);
      var i := CountEscapes(line);
      if i % 2 == 1 { return Done(line); }
      var s := ParseQuotedStringBody();
      if s.Failed? { return Failed(EndOfFile); }
      Rejoin(t, k + 1, |s.value|);
      r := Done(line + s.value);
    }

    method ParseStringBody() returns (r: Outcome<seq<Byte>>)
      modifies this`toRead
      ensures (r, toRead) == StringBody(old(toRead))
    {
      hide StringEnd, Trailing, Unquote;
      ghost var t := toRead;
      var line, err := ReadThrough(QUOTE);
      if err.Some? {
        NoQuoteNoEnd(t, false);
        return Failed(err.value);
      }
      ghost var k := |line| - 1;
      assert line[..k] == t[..k];
      PieceEnds(t, k);
      var i := CountEscapes(line);
      if i % 2 == 1 {
        var v := Unquote([QUOTE] + line);
        if v.None? { return Done([]); }
        return Done(v.value);
      }
      var s := ParseQuotedStringBody();
      if s.Failed? { return Failed(EndOfFile); }
      Rejoin(t, k + 1, |s.value|);
      assert t[..StringEnd(t, false).value][k] == QUOTE;
      assert [QUOTE] + (line + s.value) == [QUOTE] + line + s.value;
      var v := Unquote([QUOTE] + line + s.value);
      if v.None? { return Failed(InvalidData); }
      return Done(v.value);
    }

    // -------------------------------------------------------------- numbers

    /** What follows the first letter of NaN or Infinity. */
    method ReadWord(word: seq<Byte>, inQuotes: bool) returns (r: Outcome<I64>)
      requires word != []
      modifies this`toRead
      ensures (r, toRead) == Word(old(toRead), word, inQuotes)
    {
      if toRead == [] { return Failed(EndOfFile); }
      var n := if |toRead| < |word| then |toRead| else |word|;
      var buffer := toRead[..n];
      toRead := toRead[n..];
      assert buffer == word <==> word <= old(toRead);
      assert |old(toRead)| < |word| ==> toRead == [];
      if buffer != word { return Failed(InvalidData); }
      if inQuotes { ReadQuoteIfNext(); }
      r := Done(0);
    }

    method ReadQuoteIfNext()
      modifies this`toRead
      ensures toRead == if old(toRead) != [] && old(toRead)[0] == QUOTE then old(toRead)[1..] else old(toRead)
    {
      if |toRead| > 0 && toRead[0] == QUOTE { toRead := toRead[1..]; }
    }

    /** readNumeric, for the integer it yields. A second quote does not end the number. */
    method ReadNumeric() returns (r: Outcome<I64>)
      requires Valid()
      modifies this`toRead
      ensures Read(r, In()) == JsonWire.ReadNumeric(old(In()))
    {
      hide ParseInt, SkipSpace;
      var isNull := ReadIfNull();
      if isNull.Failed? { return Failed(isNull.error); }
      if isNull.value { return Done(0); }
      var hasDecimalPoint, nextCanBeSign, hasE, inQuotes := false, true, false, false;
      var buf: seq<Byte> := [];
      ghost var start := toRead;
      while toRead != []
        invariant Number(toRead, NumState(buf, hasDecimalPoint, nextCanBeSign, hasE, inQuotes))
            == Number(start, NUM_START)
        decreases |toRead|
      {
        var c := toRead[0];
        if EndsNumber(c) { break; }
        toRead := toRead[1..];
        if IsDigit(c) {
          buf := buf + [c];
          nextCanBeSign := false;
        } else if c == 0x2E {
          if hasDecimalPoint || hasE { return Failed(InvalidData); }
          buf := buf + [c];
          hasDecimalPoint, nextCanBeSign := true, false;
        } else if c == 0x65 || c == 0x45 {
          if hasE { return Failed(InvalidData); }
          buf := buf + [c];
          hasE, nextCanBeSign := true, true;
        } else if c == MINUS || c == PLUS {
          if !nextCanBeSign { return Failed(InvalidData); }
          buf := buf + [c];
          nextCanBeSign := false;
        } else if c == 0x4E {
          if buf != [] { return Failed(InvalidData); }
          r := ReadWord(REST_OF_NAN, inQuotes);
          return;
        } else if c == 0x49 {
          if buf != [] && buf != [PLUS] && buf != [MINUS] { return Failed(InvalidData); }
          r := ReadWord(REST_OF_INFINITY, inQuotes);
          return;
        } else if c == QUOTE {
          inQuotes := true;
        } else {
          return Failed(InvalidData);
        }
      }
      if buf == [] { return Failed(InvalidData); }
      return Done(ParseInt(buf));
    }

    // -------------------------------------------------------------- parsing

    method ParsePreValue() returns (r: Outcome<()>)
      requires Valid()
      modifies this`toRead
      ensures Read(r, In()) == JsonWire.ParsePreValue(old(In()))
    {
      ReadWhitespace();
      match parseContextStack[|parseContextStack| - 1] {
        case InList =>
          if |toRead| > 0 {
            if toRead[0] == RBRACKET { return Done(()); }
            if toRead[0] != COMMA { return Failed(InvalidData); }
            toRead := toRead[1..];
            ReadWhitespace();
          }
        case NextKey =>
          if |toRead| > 0 {
            if toRead[0] == RBRACE { return Done(()); }
            if toRead[0] != COMMA { return Failed(InvalidData); }
            toRead := toRead[1..];
            ReadWhitespace();
          }
        case NextValue =>
          if |toRead| > 0 {
            if toRead[0] != COLON { return Failed(InvalidData); }
            toRead := toRead[1..];
            ReadWhitespace();
          }
        case _ =>
      }
      r := Done(());
    }

    method ParsePostValue()
      requires Valid()
      modifies this`toRead, this`parseContextStack, this`parsed
      ensures Valid() && In() == JsonWire.ParsePostValue(old(In()))
    {
      ReadWhitespace();
      var outer := parseContextStack[..|parseContextStack| - 1];
      match parseContextStack[|parseContextStack| - 1] {
        case ListFirst => parseContextStack := outer + [InList];
        case ObjectFirst => parseContextStack := outer + [NextValue];
        case NextKey => parseContextStack := outer + [NextValue];
        case NextValue => parseContextStack := outer + [NextKey];
        case _ => assert outer + [parseContextStack[|parseContextStack| - 1]] == parseContextStack;
      }
      parsed := parsed + [parseContextStack];
    }

    method ParseI64() returns (r: Outcome<I64>)
      requires Valid()
      modifies this`toRead, this`parseContextStack, this`parsed
      ensures Valid() && Read(r, In()) == JsonWire.ParseI64(old(In()))
    {
      hide Number, ParseInt, SkipSpace;
      var pre := ParsePreValue();
      if pre.Failed? { return Failed(pre.error); }
      var isNull := SafePeekNull();
      if isNull.Failed? { return Failed(isNull.error); }
      if isNull.value {
        toRead := toRead[|NULL|..];
        r := Done(0);
      } else {
        r := ReadNumeric();
        if r.Failed? { return; }
      }
      ParsePostValue();
    }

    method ReadString() returns (r: Outcome<seq<Byte>>)
      requires Valid()
      modifies this`toRead, this`parseContextStack, this`parsed
      ensures Valid() && Read(r, In()) == JsonWire.ReadString(old(In()))
    {
      hide SkipSpace;
      var pre := ParsePreValue();
      if pre.Failed? { return Failed(pre.error); }
      if |toRead| > 0 && toRead[0] == QUOTE {
        toRead := toRead[1..];
        r := ParseStringBody();
        if r.Failed? { return; }
      } else if |toRead| > 0 && toRead[0] == NULL[0] {
        var n := if |toRead| < |NULL| then |toRead| else |NULL|;
        var b := toRead[..n];
        toRead := toRead[n..];
        if b != NULL { return Failed(InvalidData); }
        r := Done([]);
      } else {
        return Failed(InvalidData);
      }
      ParsePostValue();
    }

    /** ParseObjectStart and ParseListBegin. */
    method ParseOpen(bracket: Byte, c: Ctx) returns (isNull: Outcome<bool>)
      requires Valid() && !c.Toplevel?
      modifies this`toRead, this`parseContextStack, this`parsed
      ensures Valid() && Read(isNull, In()) == JsonWire.ParseOpen(old(In()), bracket, c)
    {
      hide SkipSpace;
      var pre := ParsePreValue();
      if pre.Failed? { return Failed(pre.error); }
      if toRead == [] { return Failed(EndOfFile); }
      if toRead[0] == bracket {
        toRead := toRead[1..];
        parseContextStack := parseContextStack + [c];
        parsed := parsed + [parseContextStack];
        return Done(false);
      }
      isNull := SafePeekNull();
      if isNull == Done(false) { return Failed(InvalidData); }
    }

    /** The loop over the line that ends in the closing bracket. */
    method ReadToClose(bracket: Byte) returns (r: Outcome<()>)
      requires !IsSpace(bracket)
      modifies this`toRead
      ensures Read(r, In()) == JsonWire.ReadToClose(old(In()), bracket)
    {
      ghost var t := toRead;
      var line, err := ReadThrough(bracket);
      if err.Some? { return Failed(err.value); }
      var i := 0;
      ghost var k := |line| - 1;
      while i < |line|
        invariant 0 <= i <= |line|
        invariant forall j :: 0 <= j < i ==> IsSpace(line[j]) || line[j] == bracket
      {
        if !IsSpace(line[i]) && line[i] != bracket {
          assert i < k && t[..k][i] == line[i];
          return Failed(InvalidData);
        }
        i := i + 1;
      }
      assert forall j :: 0 <= j < k ==> t[..k][j] == line[j] && t[..k][j] in t[..k];
      r := Done(());
    }

    method ParseObjectEnd() returns (r: Outcome<()>)
      requires Valid()
      modifies this`toRead, this`parseContextStack, this`parsed
      ensures Valid() && Read(r, In()) == JsonWire.ParseObjectEnd(old(In()))
    {
      hide SkipSpace;
      var isNull := ReadIfNull();
      if isNull.Failed? { return Failed(isNull.error); }
      if isNull.value { return Done(()); }
      var cxt := parseContextStack[|parseContextStack| - 1];
      if !cxt.ObjectFirst? && !cxt.NextKey? { return Failed(InvalidData); }
      r := ReadToClose(RBRACE);
      if r.Failed? { return; }
      parseContextStack := parseContextStack[..|parseContextStack| - 1];
      ParsePostValue();
    }

    method ParseListEnd() returns (r: Outcome<()>)
      requires Valid()
      modifies this`toRead, this`parseContextStack, this`parsed
      ensures Valid() && Read(r, In()) == JsonWire.ParseListEnd(old(In()))
    {
      hide SkipSpace;
      var isNull := ReadIfNull();
      if isNull.Failed? { return Failed(isNull.error); }
      if isNull.value { return Done(()); }
      if !parseContextStack[|parseContextStack| - 1].InList? { return Failed(InvalidData); }
      r := ReadToClose(RBRACKET);
      if r.Failed? { return; }
      parseContextStack := parseContextStack[..|parseContextStack| - 1];
      if parseContextStack[|parseContextStack| - 1].Toplevel? {
        parsed := parsed + [parseContextStack];
        return;
      }
      ParsePostValue();
    }

    // -------------------------------------------------------------- reading

    method ReadMessageBegin() returns (r: Outcome<JMessage>)
      requires Valid()
      modifies this`toRead, this`parseContextStack, this`parsed, this`dumpContext
      ensures Valid() && dumpContext == [Toplevel] && Read(r, In()) == JsonWire.ReadMessageBegin(old(In()))
    {
      hide JsonWire.ParseOpen, JsonWire.ParseI64, JsonWire.ReadString;
      ResetContextStack();
      var isNull := ParseOpen(LBRACKET, ListFirst);
      if isNull.Failed? { return Failed(isNull.error); }
      if isNull.value { return Done(JMessage([], 0, 0)); }
      var version := ParseI64();
      if version.Failed? { return Failed(version.error); }
      if ToI32(version.value) != JSON_VERSION { return Failed(InvalidData); }
      var name := ReadString();
      if name.Failed? { return Failed(name.error); }
      var typeId := ParseI64();
      if typeId.Failed? { return Failed(typeId.error); }
      var seqId := ParseI64();
      if seqId.Failed? { return Failed(seqId.error); }
      r := Done(JMessage(name.value, ToI8(typeId.value), ToI32(seqId.value)));
    }

    method ReadTypeName() returns (r: Outcome<Byte>)
      requires Valid()
      modifies this`toRead, this`parseContextStack, this`parsed
      ensures Valid() && Read(r, In()) == JsonWire.ReadTypeName(old(In()))
    {
      hide JsonWire.ReadString, StringToTypeId;
      var name := ReadString();
      if name.Failed? { return Failed(name.error); }
      var t := StringToTypeId(name.value);
      if t.None? { return Failed(InvalidData); }
      r := Done(t.value);
    }

    method ReadFieldBegin() returns (r: Outcome<JField>)
      requires Valid()
      modifies this`toRead, this`parseContextStack, this`parsed
      ensures Valid() && Read(r, In()) == JsonWire.ReadFieldBegin(old(In()))
    {
      hide JsonWire.ParseOpen, JsonWire.ParseI64, JsonWire.ReadTypeName;
      if |toRead| < 1 || toRead[0] == RBRACE || toRead[0] == RBRACKET { return Done(JField(STOP, -1)); }
      var id := ParseI64();
      if id.Failed? { return Failed(id.error); }
      var isNull := ParseOpen(LBRACE, ObjectFirst);
      if isNull.Failed? { return Failed(isNull.error); }
      var t := ReadTypeName();
      if t.Failed? { return Failed(t.error); }
      r := Done(JField(t.value, ToI16(id.value)));
    }

    method ReadMapBegin() returns (r: Outcome<JMap>)
      requires Valid()
      modifies this`toRead, this`parseContextStack, this`parsed
      ensures Valid() && Read(r, In()) == JsonWire.ReadMapBegin(old(In()))
    {
      hide JsonWire.ParseOpen, JsonWire.ParseI64, JsonWire.ReadTypeName;
      var isNull := ParseOpen(LBRACKET, ListFirst);
      if isNull.Failed? { return Failed(isNull.error); }
      if isNull.value { return Done(JMap(VOID, VOID, 0)); }
      var keyType := ReadTypeName();
      if keyType.Failed? { return Failed(keyType.error); }
      var valueType := ReadTypeName();
      if valueType.Failed? { return Failed(valueType.error); }
      var size := ParseI64();
      if size.Failed? { return Failed(size.error); }
      isNull := ParseOpen(LBRACE, ObjectFirst);
      if isNull.Failed? { return Failed(isNull.error); }
      r := Done(JMap(keyType.value, valueType.value, size.value));
    }

    method ReadMapEnd() returns (r: Outcome<()>)
      requires Valid()
      modifies this`toRead, this`parseContextStack, this`parsed
      ensures Valid() && Read(r, In()) == JsonWire.ReadMapEnd(old(In()))
    {
      hide JsonWire.ParseObjectEnd, JsonWire.ParseListEnd;
      r := ParseObjectEnd();
      if r.Failed? { return; }
      r := ParseListEnd();
    }

    /** ReadListBegin and ReadSetBegin. */
    method ParseElemListBegin() returns (r: Outcome<JList>)
      requires Valid()
      modifies this`toRead, this`parseContextStack, this`parsed
      ensures Valid() && Read(r, In()) == JsonWire.ReadListBegin(old(In()))
    {
      hide JsonWire.ParseOpen, JsonWire.ParseI64, JsonWire.ReadTypeName;
      var isNull := ParseOpen(LBRACKET, ListFirst);
      if isNull.Failed? { return Failed(isNull.error); }
      if isNull.value { return Done(JList(VOID, 0)); }
      var elemType := ReadTypeName();
      if elemType.Failed? { return Failed(elemType.error); }
      var size := ParseI64();
      if size.Failed? { return Failed(size.error); }
      r := Done(JList(elemType.value, size.value));
    }
  }

  lemma Rejoin(t: seq<Byte>, i: nat, j: nat)
    requires i + j <= |t|
    ensures t[..i] + t[i..][..j] == t[..i + j] && t[i..][j..] == t[i + j..]
  {
  }

  /** An integer where no key belongs. */
  function OutNumber(w: JOut, n: int): JOut
    requires w.ctx != []
  {
    OutScalar(w, PlainToken(w.ctx, FormatInt(n)))
  }

  /** The next token of a list. */
  lemma InListStep(text: seq<Byte>, ctx: seq<Ctx>, c: Ctx, trace: seq<seq<Ctx>>, token: seq<Byte>)
    requires c.ListFirst? || c.InList?
    ensures OutScalar(JOut(text, ctx + [c], trace), token)
         == JOut(text + Separator(c) + token, ctx + [InList], trace + [ctx + [InList]])
    ensures PlainToken(ctx + [c], token) == token
  {
    PostOf(ctx, c);
  }

  lemma ListHeadOut(w: JOut, t: Byte, n: int)
    requires Rooted(w.ctx) && TypeIdToString(t).Some?
    ensures OutNumber(OutScalar(OutOpen(w, LBRACKET, ListFirst), Quote(TypeIdToString(t).value)), n)
         == JOut(w.text + Separator(Top(w.ctx)) + ListHead(t, n), w.ctx + [InList], w.trace + ListHeadTrace(w.ctx))
  {
    hide FormatInt, Quote, TypeIdToString, OutScalar, PlainToken;
    var name := Quote(TypeIdToString(t).value);
    var a := w.text + Separator(Top(w.ctx)) + [LBRACKET];
    var tr := w.trace + [w.ctx + [ListFirst]];
    InListStep(a, w.ctx, ListFirst, tr, name);
    InListStep(a + [] + name, w.ctx, InList, tr + [w.ctx + [InList]], FormatInt(n));
    assert a + [] + name + [COMMA] + FormatInt(n) == w.text + Separator(Top(w.ctx)) + ListHead(t, n);
    assert tr + [w.ctx + [InList]] + [w.ctx + [InList]] == w.trace + ListHeadTrace(w.ctx);
  }

  lemma MapHeadOut(w: JOut, kt: Byte, vt: Byte, n: int)
    requires Rooted(w.ctx) && TypeIdToString(kt).Some? && TypeIdToString(vt).Some?
    ensures
      var o := OutScalar(OutOpen(w, LBRACKET, ListFirst), Quote(TypeIdToString(kt).value));
      OutOpen(OutNumber(OutScalar(o, Quote(TypeIdToString(vt).value)), n), LBRACE, ObjectFirst)
        == JOut(w.text + Separator(Top(w.ctx)) + MapHead(kt, vt, n), w.ctx + [InList] + [ObjectFirst], w.trace
            + MapHeadTrace(w.ctx))
  {
    hide FormatInt, Quote, TypeIdToString, OutScalar, PlainToken;
    var k, v := Quote(TypeIdToString(kt).value), Quote(TypeIdToString(vt).value);
    var a := w.text + Separator(Top(w.ctx)) + [LBRACKET];
    var inList := w.ctx + [InList];
    var tr := w.trace + [w.ctx + [ListFirst]];
    InListStep(a, w.ctx, ListFirst, tr, k);
    InListStep(a + [] + k, w.ctx, InList, tr + [inList], v);
    InListStep(a + [] + k + [COMMA] + v, w.ctx, InList, tr + [inList] + [inList], FormatInt(n));
    assert a + [] + k + [COMMA] + v + [COMMA] + FormatInt(n) + [COMMA] + [LBRACE]
        == w.text + Separator(Top(w.ctx)) + MapHead(kt, vt, n);
    assert tr + [inList] + [inList] + [inList] + [inList + [ObjectFirst]] == w.trace + MapHeadTrace(w.ctx);
  }

  lemma MessageHeadOut(w: JOut, name: seq<Byte>, typeId: I8, seqId: I32)
    requires w.ctx == [Toplevel]
    ensures
      var o := OutScalar(OutNumber(OutOpen(w, LBRACKET, ListFirst), JSON_VERSION), Quote(name));
      OutNumber(OutNumber(o, typeId), seqId)
        == JOut(w.text + MessageHead(name, typeId, seqId), [Toplevel, InList], w.trace + MessageHeadTrace())
  {
    hide FormatInt, Quote, OutScalar, PlainToken;
    var top, inList := [Toplevel], [Toplevel, InList];
    assert top + [InList] == inList && top + [ListFirst] == [Toplevel, ListFirst];
    var a := w.text + [] + [LBRACKET];
    var b := a + [] + FormatInt(JSON_VERSION);
    var c := b + [COMMA] + Quote(name);
    var d := c + [COMMA] + FormatInt(typeId);
    var tr := w.trace + [[Toplevel, ListFirst]];
    InListStep(a, top, ListFirst, tr, FormatInt(JSON_VERSION));
    InListStep(b, top, InList, tr + [inList], Quote(name));
    InListStep(c, top, InList, tr + [inList] + [inList], FormatInt(typeId));
    InListStep(d, top, InList, tr + [inList] + [inList] + [inList], FormatInt(seqId));
    assert d + [COMMA] + FormatInt(seqId) == w.text + MessageHead(name, typeId, seqId);
    assert tr + [inList] + [inList] + [inList] + [inList] == w.trace + MessageHeadTrace();
  }
}
