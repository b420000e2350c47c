/** What each call of the JSON protocol does to its text and its context stack. */
module JsonWire {
  import opened Options
  import opened Words
  import opened Values
  import opened JsonText

  datatype Ctx = Toplevel | ListFirst | InList | ObjectFirst | NextKey | NextValue

  datatype JError = EndOfFile | InvalidData | IndexPanic

  datatype Outcome<+T> = Done(value: T) | Failed(error: JError)

  // ---------------------------------------------------------------- context stacks

  /** A stack that is never popped empty: its bottom is the top level. */
  predicate Rooted(ctx: seq<Ctx>) { ctx != [] && ctx[0].Toplevel? }

  function Top(ctx: seq<Ctx>): Ctx
    requires ctx != []
  {
    ctx[|ctx| - 1]
  }

  function Pop(ctx: seq<Ctx>): seq<Ctx>
    requires ctx != []
  {
    ctx[..|ctx| - 1]
  }

  /** What is written before a value, and must be read there. */
  function Separator(c: Ctx): seq<Byte> {
    match c
    case InList => [COMMA]
    case NextKey => [COMMA]
    case NextValue => [COLON]
    case _ => []
  }

  function AfterValue(c: Ctx): Ctx {
    match c
    case ListFirst => InList
    case ObjectFirst => NextValue
    case NextKey => NextValue
    case NextValue => NextKey
    case _ => c
  }

  function Post(ctx: seq<Ctx>): (r: seq<Ctx>)
    requires ctx != []
    ensures |r| == |ctx| && (Rooted(ctx) ==> Rooted(r))
  {
    Pop(ctx) + [AfterValue(Top(ctx))]
  }

  predicate AtKey(ctx: seq<Ctx>)
    requires ctx != []
  {
    Top(ctx).ObjectFirst? || Top(ctx).NextKey?
  }

  lemma PostOf(ctx: seq<Ctx>, c: Ctx)
    ensures Post(ctx + [c]) == ctx + [AfterValue(c)] && Top(ctx + [c]) == c && Pop(ctx + [c]) == ctx
    ensures AtKey(ctx + [c]) == (c.ObjectFirst? || c.NextKey?)
    ensures Rooted(ctx) ==> Rooted(ctx + [c])
  {
  }

  // ---------------------------------------------------------------- writing

  /** trace is the stack after each token so far. */
  datatype JOut = JOut(text: seq<Byte>, ctx: seq<Ctx>, trace: seq<seq<Ctx>>)

  function OutScalar(w: JOut, token: seq<Byte>): JOut
    requires w.ctx != []
  {
    JOut(w.text + Separator(Top(w.ctx)) + token, Post(w.ctx), w.trace + [Post(w.ctx)])
  }

  /** A number or a literal, which is quoted where a key belongs. */
  function PlainToken(ctx: seq<Ctx>, token: seq<Byte>): seq<Byte>
    requires ctx != []
  {
    if AtKey(ctx) then Quote(token) else token
  }

  function OutOpen(w: JOut, bracket: Byte, c: Ctx): JOut
    requires w.ctx != []
  {
    JOut(w.text + Separator(Top(w.ctx)) + [bracket], w.ctx + [c], w.trace + [w.ctx + [c]])
  }

  function OutClose(w: JOut, bracket: Byte): JOut
    requires |w.ctx| >= 2
  {
    JOut(w.text + [bracket], Post(Pop(w.ctx)), w.trace + [Post(Pop(w.ctx))])
  }

  const TRUE: seq<Byte> := [0x74, 0x72, 0x75, 0x65]
  const FALSE: seq<Byte> := [0x66, 0x61, 0x6C, 0x73, 0x65]

  // ---------------------------------------------------------------- type names

  const NAME_BOOL: seq<Byte> := [0x74, 0x66]
  const NAME_BYTE: seq<Byte> := [0x69, 0x38]
  const NAME_I16: seq<Byte> := [0x69, 0x31, 0x36]
  const NAME_I32: seq<Byte> := [0x69, 0x33, 0x32]
  const NAME_I64: seq<Byte> := [0x69, 0x36, 0x34]
  const NAME_DOUBLE: seq<Byte> := [0x64, 0x62, 0x6C]
  const NAME_STRING: seq<Byte> := [0x73, 0x74, 0x72]
  const NAME_STRUCT: seq<Byte> := [0x72, 0x65, 0x63]
  const NAME_MAP: seq<Byte> := [0x6D, 0x61, 0x70]
  const NAME_SET: seq<Byte> := [0x73, 0x65, 0x74]
  const NAME_LIST: seq<Byte> := [0x6C, 0x73, 0x74]

  function TypeIdToString(t: Byte): Option<seq<Byte>> {
    if t == BOOL then Some(NAME_BOOL)
    else if t == BYTE then Some(NAME_BYTE)
    else if t == I16T then Some(NAME_I16)
    else if t == I32T then Some(NAME_I32)
    else if t == I64T then Some(NAME_I64)
    else if t == DOUBLE then Some(NAME_DOUBLE)
    else if t == STRING then Some(NAME_STRING)
    else if t == STRUCT then Some(NAME_STRUCT)
    else if t == MAP then Some(NAME_MAP)
    else if t == SET then Some(NAME_SET)
    else if t == LIST then Some(NAME_LIST)
    else None
  }

  function StringToTypeId(s: seq<Byte>): Option<Byte> {
    if s == NAME_BOOL then Some(BOOL)
    else if s == NAME_BYTE then Some(BYTE)
    else if s == NAME_I16 then Some(I16T)
    else if s == NAME_I32 then Some(I32T)
    else if s == NAME_I64 then Some(I64T)
    else if s == NAME_DOUBLE then Some(DOUBLE)
    else if s == NAME_STRING then Some(STRING)
    else if s == NAME_STRUCT then Some(STRUCT)
    else if s == NAME_MAP then Some(MAP)
    else if s == NAME_SET then Some(SET)
    else if s == NAME_LIST then Some(LIST)
    else None
  }

  /** The two tables are inverse to each other, and name exactly the types of values. */
  lemma TypeNames(t: Byte, s: seq<Byte>)
    ensures TypeIdToString(t) == Some(s) <==> StringToTypeId(s) == Some(t)
    ensures TypeIdToString(t).Some? <==> IsType(t)
    ensures TypeIdToString(t).Some? ==>
      forall i :: 0 <= i < |TypeIdToString(t).value| ==> Safe(TypeIdToString(t).value[i])
  {
    assert NAME_BOOL[0] == 0x74 && NAME_BYTE[1] == 0x38 && NAME_I16[1] == 0x31 && NAME_I32[1] == 0x33;
    assert NAME_I64[1] == 0x36 && NAME_DOUBLE[0] == 0x64 && NAME_STRING[1] == 0x74 && NAME_STRUCT[0] == 0x72;
    assert NAME_MAP[0] == 0x6D && NAME_SET[1] == 0x65 && NAME_LIST[0] == 0x6C && NAME_LIST[1] == 0x73;
  }

  /** A field's id, its brace and the name of its type, if it has one. */
  function OutField(w: JOut, t: Byte, id: I16): (r: JOut)
    requires Rooted(w.ctx)
    ensures Rooted(r.ctx)
  {
    var o := OutOpen(OutScalar(w, PlainToken(w.ctx, FormatInt(id))), LBRACE, ObjectFirst);
    if TypeIdToString(t).Some? then OutScalar(o, Quote(TypeIdToString(t).value)) else o
  }

  // ---------------------------------------------------------------- reading: scanning

  const NULL: seq<Byte> := [0x6E, 0x75, 0x6C, 0x6C]

  datatype JIn = JIn(text: seq<Byte>, ctx: seq<Ctx>, trace: seq<seq<Ctx>>)

  datatype Read<+T> = Read(r: Outcome<T>, s: JIn)

  predicate IsSpace(b: Byte) { b == 0x20 || b == 0x0D || b == 0x0A || b == 0x09 }

  function SkipSpace(t: seq<Byte>): (r: seq<Byte>)
    ensures |r| <= |t|
  {
    if t != [] && IsSpace(t[0]) then SkipSpace(t[1..]) else t
  }

  predicate AllSpace(t: seq<Byte>) { forall i :: 0 <= i < |t| ==> IsSpace(t[i]) }

  /** safePeekContains(JSON_NULL), which indexes past what it has peeked when the text ends inside
      the word. */
  function PeekNull(t: seq<Byte>): Outcome<bool> {
    if NULL <= t then Done(true)
    else if t != [] && t <= NULL then Failed(IndexPanic)
    else Done(false)
  }

  /** The end of the string whose opening quote has been read. A malformed string with no escaped
      quote in it reads as empty. */
  function StringBody(t: seq<Byte>): (r: (Outcome<seq<Byte>>, seq<Byte>))
    ensures |r.1| <= |t|
  {
    match StringEnd(t, false)
    case None => (Failed(EndOfFile), [])
    case Some(k) =>
      var v := Unquote([QUOTE] + t[..k + 1]);
      var rest := t[k + 1..];
      if v.Some? then (Done(v.value), rest)
      else if QUOTE in t[..k] then (Failed(InvalidData), rest)
      else (Done([]), rest)
  }

  /** When a string fails to read: there is no closing quote, or the text before it is badly escaped
      and holds an escaped quote. Badly escaped text with none reads as empty, without an error. */
  lemma StringBodyFailsIff(t: seq<Byte>)
    ensures
      var e := StringEnd(t, false);
      var r := StringBody(t).0;
      && (r.Failed? <==> e.None? || (!WellEscaped(t[..e.value]) && QUOTE in t[..e.value]))
      && (e.Some? && !WellEscaped(t[..e.value]) && QUOTE !in t[..e.value] ==> r == Done([]))
      && (e.Some? && WellEscaped(t[..e.value]) ==> Some(r.value) == UnquoteBody(t[..e.value]))
  {
    hide StringEnd, UnquoteBody, WellEscaped;
    var e := StringEnd(t, false);
    if e.Some? {
      var lit := [QUOTE] + t[..e.value + 1];
      assert lit[1..|lit| - 1] == t[..e.value];
      UnquoteIff(t[..e.value]);
    }
  }

  /** The text \x, which is no escape, reads as the empty string. */
  lemma BadEscapeReadsAsEmpty(rest: seq<Byte>)
    ensures StringBody([BACKSLASH, 0x78, QUOTE] + rest) == (Done([]), rest)
  {
    var t := [BACKSLASH, 0x78, QUOTE] + rest;
    assert t[1..][1..][0] == QUOTE && t[1..][0] == 0x78;
    assert StringEnd(t[1..][1..], false) == Some(0);
    assert StringEnd(t[1..], true) == Some(1);
    assert StringEnd(t, false) == Some(2);
    assert t[..2] == [BACKSLASH, 0x78] && t[3..] == rest;
    StringBodyFailsIff(t);
  }

  /** safePeekContains goes past the end of its peek exactly on a text that stops inside null. */
  lemma PeekPanicsIff(t: seq<Byte>)
    ensures PeekNull(t) == Failed(IndexPanic) <==>
      t == [0x6E] || t == [0x6E, 0x75] || t == [0x6E, 0x75, 0x6C]
  {
    assert NULL[..1] == [0x6E] && NULL[..2] == [0x6E, 0x75] && NULL[..3] == [0x6E, 0x75, 0x6C] && NULL[..4] == NULL;
    if t <= NULL {
      assert t == NULL[..|t|];
    }
  }

  // ---------------------------------------------------------------- reading: numbers

  datatype NumState = NumState(buf: seq<Byte>, point: bool, canSign: bool, exp: bool, quotes: bool)

  const NUM_START := NumState([], false, true, false, false)

  const REST_OF_NAN: seq<Byte> := [0x61, 0x4E]
  const REST_OF_INFINITY: seq<Byte> := [0x6E, 0x66, 0x69, 0x6E, 0x69, 0x74, 0x79]

  predicate EndsNumber(b: Byte) {
    IsSpace(b) || b == 0 || b == RBRACE || b == RBRACKET || b == COMMA || b == COLON
  }

  /** The rest of NaN or Infinity, whose integer value is zero. */
  function Word(t: seq<Byte>, word: seq<Byte>, quotes: bool): (r: (Outcome<I64>, seq<Byte>))
    ensures |r.1| <= |t|
  {
    if t == [] then (Failed(EndOfFile), t)
    else if word <= t then
      var rest := t[|word|..];
      (Done(0), if quotes && rest != [] && rest[0] == QUOTE then rest[1..] else rest)
    else (Failed(InvalidData), if |t| < |word| then [] else t[|word|..])
  }

  function NumberEnd(buf: seq<Byte>): Outcome<I64> { if buf == [] then Failed(InvalidData) else Done(ParseInt(buf)) }

  /** One byte of a number that neither ends it nor begins a word: the new state, or an error. */
  function NumStep(n: NumState, c: Byte): Option<NumState> {
    if IsDigit(c) then Some(n.(buf := n.buf + [c], canSign := false))
    else if c == 0x2E then
      if n.point || n.exp then None else Some(n.(buf := n.buf + [c], point := true, canSign := false))
    else if c == 0x65 || c == 0x45 then
      if n.exp then None else Some(n.(buf := n.buf + [c], exp := true, canSign := true))
    else if c == MINUS || c == PLUS then
      if !n.canSign then None else Some(n.(buf := n.buf + [c], canSign := false))
    else if c == QUOTE then Some(n.(quotes := true))
    else None
  }

  /** The loop of readNumeric. */
  function Number(t: seq<Byte>, n: NumState): (r: (Outcome<I64>, seq<Byte>))
    ensures |r.1| <= |t|
    ensures n.buf == [] && r.0.Done? ==> |r.1| < |t|
  {
    if t == [] then (NumberEnd(n.buf), t)
    else if EndsNumber(t[0]) then (NumberEnd(n.buf), t)
    else if t[0] == 0x4E then
      if n.buf == [] then Word(t[1..], REST_OF_NAN, n.quotes) else (Failed(InvalidData), t[1..])
    else if t[0] == 0x49 then
      if n.buf == [] || n.buf == [PLUS] || n.buf == [MINUS] then Word(t[1..], REST_OF_INFINITY, n.quotes)
      else (Failed(InvalidData), t[1..])
    else
      match NumStep(n, t[0])
      case None => (Failed(InvalidData), t[1..])
      case Some(m) => Number(t[1..], m)
  }

  // ---------------------------------------------------------------- reading: values

  function ParsePreValue(s: JIn): (x: Read<()>)
    requires Rooted(s.ctx)
    ensures x.s.ctx == s.ctx && |x.s.text| <= |s.text| && x.s.trace == s.trace
  {
    var t := SkipSpace(s.text);
    var u := s.(text := t);
    var c := Top(s.ctx);
    if Separator(c) == [] || t == [] then Read(Done(()), u)
    else if (c.InList? && t[0] == RBRACKET) || (c.NextKey? && t[0] == RBRACE) then Read(Done(()), u)
    else if t[0] == Separator(c)[0] then Read(Done(()), s.(text := SkipSpace(t[1..])))
    else Read(Failed(InvalidData), u)
  }

  function ParsePostValue(s: JIn): (u: JIn)
    requires Rooted(s.ctx)
    ensures Rooted(u.ctx) && |u.text| <= |s.text|
  {
    JIn(SkipSpace(s.text), Post(s.ctx), s.trace + [Post(s.ctx)])
  }

  function ReadIfNull(s: JIn): (x: Read<bool>)
    ensures x.s.ctx == s.ctx && |x.s.text| <= |s.text| && x.s.trace == s.trace
    ensures x.r == Done(true) ==> |x.s.text| < |s.text|
  {
    var t := SkipSpace(s.text);
    if t == [] || t[0] != NULL[0] then Read(Done(false), s.(text := t))
    else if PeekNull(t) == Done(true) then Read(Done(true), s.(text := t[|NULL|..]))
    else Read(PeekNull(t), s.(text := t))
  }

  function ReadNumeric(s: JIn): (x: Read<I64>)
    ensures x.s.ctx == s.ctx && |x.s.text| <= |s.text| && x.s.trace == s.trace
    ensures x.r.Done? ==> |x.s.text| < |s.text|
  {
    var z := ReadIfNull(s);
    if z.r.Failed? then Read(Failed(z.r.error), z.s)
    else if z.r.value then Read(Done(0), z.s)
    else Read(Number(z.s.text, NUM_START).0, z.s.(text := Number(z.s.text, NUM_START).1))
  }

  function Closed<T>(x: Read<T>): (y: Read<T>)
    requires Rooted(x.s.ctx)
    ensures Rooted(y.s.ctx) && |y.s.text| <= |x.s.text|
  {
    if x.r.Failed? then x else Read(x.r, ParsePostValue(x.s))
  }

  function ParseI64(s: JIn): (x: Read<I64>)
    requires Rooted(s.ctx)
    ensures Rooted(x.s.ctx) && |x.s.text| <= |s.text|
    ensures x.r.Done? ==> |x.s.text| < |s.text|
  {
    var p := ParsePreValue(s);
    if p.r.Failed? then Read(Failed(p.r.error), p.s)
    else
      var z := PeekNull(p.s.text);
      if z.Failed? then Read(Failed(z.error), p.s)
      else if z.value then Closed(Read(Done(0), p.s.(text := p.s.text[|NULL|..])))
      else Closed(ReadNumeric(p.s))
  }

  function StringToken(t: seq<Byte>): (r: (Outcome<seq<Byte>>, seq<Byte>))
    ensures |r.1| <= |t|
  {
    if t != [] && t[0] == QUOTE then StringBody(t[1..])
    else if t != [] && t[0] == NULL[0] then
      if NULL <= t then (Done([]), t[|NULL|..]) else (Failed(InvalidData), if |t| < 4 then [] else t[4..])
    else (Failed(InvalidData), t)
  }

  function ReadString(s: JIn): (x: Read<seq<Byte>>)
    requires Rooted(s.ctx)
    ensures Rooted(x.s.ctx) && |x.s.text| <= |s.text|
  {
    var p := ParsePreValue(s);
    if p.r.Failed? then Read(Failed(p.r.error), p.s)
    else
      var b := StringToken(p.s.text);
      Closed(Read(b.0, p.s.(text := b.1)))
  }

  /** The start of an object or a list: true when null stands there instead, which is left unread. */
  function ParseOpen(s: JIn, bracket: Byte, c: Ctx): (x: Read<bool>)
    requires Rooted(s.ctx) && !c.Toplevel?
    ensures Rooted(x.s.ctx) && |x.s.text| <= |s.text|
    ensures x.r == Done(false) ==> |x.s.text| < |s.text|
  {
    var p := ParsePreValue(s);
    var t := p.s.text;
    if p.r.Failed? then Read(Failed(p.r.error), p.s)
    else if t == [] then Read(Failed(EndOfFile), p.s)
    else if t[0] == bracket then Read(Done(false), JIn(t[1..], s.ctx + [c], s.trace + [s.ctx + [c]]))
    else if PeekNull(t) == Done(false) then Read(Failed(InvalidData), p.s)
    else Read(PeekNull(t), p.s)
  }

  /** Everything up to the closing bracket, which must be white space. */
  function ReadToClose(s: JIn, bracket: Byte): (x: Read<()>)
    ensures x.s.ctx == s.ctx && |x.s.text| <= |s.text| && x.s.trace == s.trace
  {
    match Find(s.text, bracket)
    case None => Read(Failed(EndOfFile), s.(text := []))
    case Some(k) => Read(if AllSpace(s.text[..k]) then Done(()) else Failed(InvalidData), s.(text := s.text[k + 1..]))
  }

  function ParseObjectEnd(s: JIn): (x: Read<()>)
    requires Rooted(s.ctx)
    ensures Rooted(x.s.ctx) && |x.s.text| <= |s.text|
  {
    var z := ReadIfNull(s);
    if z.r.Failed? then Read(Failed(z.r.error), z.s)
    else if z.r.value then Read(Done(()), z.s)
    else if !AtKey(s.ctx) then Read(Failed(InvalidData), z.s)
    else
      var e := ReadToClose(z.s, RBRACE);
      if e.r.Failed? then e else Read(Done(()), ParsePostValue(e.s.(ctx := Pop(s.ctx))))
  }

  function ParseListEnd(s: JIn): (x: Read<()>)
    requires Rooted(s.ctx)
    ensures Rooted(x.s.ctx) && |x.s.text| <= |s.text|
  {
    var z := ReadIfNull(s);
    if z.r.Failed? then Read(Failed(z.r.error), z.s)
    else if z.r.value then Read(Done(()), z.s)
    else if !Top(s.ctx).InList? then Read(Failed(InvalidData), z.s)
    else
      var e := ReadToClose(z.s, RBRACKET);
      var outer := Pop(s.ctx);
      if e.r.Failed? then e
      else if Top(outer).Toplevel? then Read(Done(()), JIn(e.s.text, outer, s.trace + [outer]))
      else Read(Done(()), ParsePostValue(e.s.(ctx := outer)))
  }

  // ---------------------------------------------------------------- reading: the protocol's headers

  const VOID: Byte := 1

  /** A type name, whose type must be known. */
  function ReadTypeName(s: JIn): (x: Read<Byte>)
    requires Rooted(s.ctx)
    ensures Rooted(x.s.ctx) && |x.s.text| <= |s.text|
  {
    var n := ReadString(s);
    if n.r.Failed? then Read(Failed(n.r.error), n.s)
    else
      match StringToTypeId(n.r.value)
      case None => Read(Failed(InvalidData), n.s)
      case Some(t) => Read(Done(t), n.s)
  }

  datatype JField = JField(typeId: Byte, id: int)

  function ReadFieldBegin(s: JIn): (x: Read<JField>)
    requires Rooted(s.ctx)
    ensures Rooted(x.s.ctx) && |x.s.text| <= |s.text|
    ensures x.r.Done? && x.r.value.typeId != STOP ==> |x.s.text| < |s.text| && -0x8000 <= x.r.value.id < 0x8000
  {
    if s.text == [] || s.text[0] == RBRACE || s.text[0] == RBRACKET then Read(Done(JField(STOP, -1)), s)
    else
      var i := ParseI64(s);
      if i.r.Failed? then Read(Failed(i.r.error), i.s)
      else
        var o := ParseOpen(i.s, LBRACE, ObjectFirst);
        if o.r.Failed? then Read(Failed(o.r.error), o.s)
        else
          var t := ReadTypeName(o.s);
          if t.r.Failed? then Read(Failed(t.r.error), t.s) else Read(Done(JField(t.r.value, ToI16(i.r.value))), t.s)
  }

  datatype JList = JList(elemType: Byte, size: int)

  function ReadListBegin(s: JIn): (x: Read<JList>)
    requires Rooted(s.ctx)
    ensures Rooted(x.s.ctx) && |x.s.text| <= |s.text|
    ensures x.r.Done? && x.r.value.size > 0 ==> |x.s.text| < |s.text|
  {
    var o := ParseOpen(s, LBRACKET, ListFirst);
    if o.r.Failed? then Read(Failed(o.r.error), o.s)
    else if o.r.value then Read(Done(JList(VOID, 0)), o.s)
    else
      var t := ReadTypeName(o.s);
      if t.r.Failed? then Read(Failed(t.r.error), t.s)
      else
        var n := ParseI64(t.s);
        if n.r.Failed? then Read(Failed(n.r.error), n.s) else Read(Done(JList(t.r.value, n.r.value)), n.s)
  }

  datatype JMap = JMap(keyType: Byte, valueType: Byte, size: int)

  function ReadMapBegin(s: JIn): (x: Read<JMap>)
    requires Rooted(s.ctx)
    ensures Rooted(x.s.ctx) && |x.s.text| <= |s.text|
    ensures x.r.Done? && x.r.value.size > 0 ==> |x.s.text| < |s.text|
  {
    var o := ParseOpen(s, LBRACKET, ListFirst);
    if o.r.Failed? then Read(Failed(o.r.error), o.s)
    else if o.r.value then Read(Done(JMap(VOID, VOID, 0)), o.s)
    else
      var k := ReadTypeName(o.s);
      if k.r.Failed? then Read(Failed(k.r.error), k.s) else ReadMapSize(k.r.value, k.s)
  }

  function ReadMapSize(kt: Byte, s: JIn): (x: Read<JMap>)
    requires Rooted(s.ctx)
    ensures Rooted(x.s.ctx) && |x.s.text| <= |s.text|
  {
    var v := ReadTypeName(s);
    if v.r.Failed? then Read(Failed(v.r.error), v.s)
    else
      var n := ParseI64(v.s);
      if n.r.Failed? then Read(Failed(n.r.error), n.s)
      else
        var b := ParseOpen(n.s, LBRACE, ObjectFirst);
        if b.r.Failed? then Read(Failed(b.r.error), b.s) else Read(Done(JMap(kt, v.r.value, n.r.value)), b.s)
  }

  function ReadMapEnd(s: JIn): (x: Read<()>)
    requires Rooted(s.ctx)
    ensures Rooted(x.s.ctx) && |x.s.text| <= |s.text|
  {
    var o := ParseObjectEnd(s);
    if o.r.Failed? then o else ParseListEnd(o.s)
  }

  // ---------------------------------------------------------------- reading: messages

  const JSON_VERSION := 1

  datatype JMessage = JMessage(name: seq<Byte>, typeId: int, seqId: int)

  /** The context stacks start afresh with each message. */
  function Reset(s: JIn): JIn { s.(ctx := [Toplevel]) }

  function ReadMessageBegin(s: JIn): (x: Read<JMessage>)
    ensures Rooted(x.s.ctx)
  {
    var o := ParseOpen(Reset(s), LBRACKET, ListFirst);
    if o.r.Failed? then Read(Failed(o.r.error), o.s)
    else if o.r.value then Read(Done(JMessage([], 0, 0)), o.s)
    else
      var v := ParseI64(o.s);
      if v.r.Failed? then Read(Failed(v.r.error), v.s)
      else if ToI32(v.r.value) != JSON_VERSION then Read(Failed(InvalidData), v.s)
      else
        var n := ReadString(v.s);
        if n.r.Failed? then Read(Failed(n.r.error), n.s) else ReadMessageRest(n.r.value, n.s)
  }

  function ReadMessageRest(name: seq<Byte>, s: JIn): (x: Read<JMessage>)
    requires Rooted(s.ctx)
    ensures Rooted(x.s.ctx)
  {
    var t := ParseI64(s);
    if t.r.Failed? then Read(Failed(t.r.error), t.s)
    else
      var i := ParseI64(t.s);
      if i.r.Failed? then Read(Failed(i.r.error), i.s)
      else Read(Done(JMessage(name, ToI8(t.r.value), ToI32(i.r.value))), i.s)
  }
}
