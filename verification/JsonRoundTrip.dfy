/** The JSON reader recovers every value from its text with any white space between the tokens, with
    the writer's context stack at every token. */
module JsonRoundTrip {
  import opened Options
  import opened Words
  import opened Values
  import opened Utf8
  import opened JsonText
  import opened JsonWire
  import opened JsonTrees
  import opened JsonSpacing
  import opened JsonTokens

  // ---------------------------------------------------------------- what surrounds a value

  /** A number must be followed by something that stops it. */
  predicate Ends(v: Value, rest: seq<Byte>) { IsScalar(v) && !v.VString? ==> Stops(rest) }

  function After(v: Value, rest: seq<Byte>, ctx: seq<Ctx>): seq<Byte>
    requires ctx != []
  {
    if v.VMap? || v.VSet? || v.VList? then AfterList(ctx, rest) else SkipSpace(rest)
  }

  lemma AfterPunct(v: Value, g: seq<Byte>, rest: seq<Byte>, ctx: seq<Ctx>)
    requires ctx != [] && !Top(ctx).Toplevel? && White(g) && Punct(rest)
    ensures Ends(v, g + rest) && After(v, g + rest, ctx) == rest
  {
    SkipTo(g, rest);
    StopsAfter(g, rest);
  }

  lemma NoWhite()
    ensures White([])
  {}

  /** The context at the end of an object's members. */
  function Last(first: bool, none: bool): Ctx { if first && none then ObjectFirst else NextKey }

  // ---------------------------------------------------------------- scalars

  lemma ScalarSpaced(v: Value, g: seq<Byte>, h: seq<Byte>, rest: seq<Byte>, ctx: seq<Ctx>, trace: seq<seq<Ctx>>)
    requires Rooted(ctx) && IsScalar(v) && JsonValue(v) && White(g) && White(h) && Ends(v, rest)
    ensures ReadValue(At(Lead(g, ctx, h) + (Body(v, AtKey(ctx)) + rest), ctx, trace), TypeOf(v))
         == Read(Done(Clean(v)), At(SkipSpace(rest), Post(ctx), trace + [Post(ctx)]))
  {
    hide ReadString, ParseI64, Quote, NumberBody, SkipSpace, Sanitize, Lead, White;
    match v
    case VString(b) => ReadStringOf(b, g, h, rest, ctx, trace);
    case VBool(b) => ParseI64Of(if b then 1 else 0, g, h, rest, ctx, trace);
    case VByte(n) => ParseI64Of(n, g, h, rest, ctx, trace);
    case VI16(n) => ParseI64Of(n, g, h, rest, ctx, trace);
    case VI32(n) => ParseI64Of(n, g, h, rest, ctx, trace);
    case VI64(n) => ParseI64Of(n, g, h, rest, ctx, trace);
  }

  // ---------------------------------------------------------------- all values

  /** The tokens of a value at its place. */
  function Placed(v: Value, ctx: seq<Ctx>): (toks: seq<Token>)
    requires ctx != []
    ensures toks != []
  {
    SepTokens(ctx) + ValueTokens(v, AtKey(ctx))
  }

  /** Reading the text of v, with white space g before it and gap after its tokens, gives v back with
      its strings made valid, leaves what follows, and goes through exactly the writer's stacks. */
  predicate ReadsBack(v: Value, g: seq<Byte>, gap: Gaps, at: nat, rest: seq<Byte>, ctx: seq<Ctx>,
      trace: seq<seq<Ctx>>)
    requires Rooted(ctx)
  {
    ReadValue(At(g + Lay(gap, at, Placed(v, ctx)) + rest, ctx, trace), TypeOf(v))
      == Read(Done(Clean(v)),
           At(After(v, gap(at + |Placed(v, ctx)| - 1) + rest, ctx), Post(ctx), trace + Trace(v, ctx)))
  }

  /** At any position of any document, with any white space around and between the tokens and
      whatever follows, every value is read back. */
  lemma {:induction false} ValueSpaced(v: Value, g: seq<Byte>, gap: Gaps, at: nat, rest: seq<Byte>, ctx: seq<Ctx>,
      trace: seq<seq<Ctx>>)
    requires Rooted(ctx) && JsonValue(v) && (AtKey(ctx) ==> IsScalar(v)) && White(g) && AllWhite(gap)
    requires Tight(gap, at, Placed(v, ctx)) && Ends(v, gap(at + |Placed(v, ctx)| - 1) + rest)
    ensures ReadsBack(v, g, gap, at, rest, ctx, trace)
    decreases v, 2
  {
    hide ReadsBack, Placed, Lay, Tight, White, Post, SepTokens, Ends, Stops;
    match v
    case VStruct(fields) => StructSpaced(fields, g, gap, at, rest, ctx, trace);
    case VMap(kt, vt, entries) => MapSpaced(kt, vt, entries, g, gap, at, rest, ctx, trace);
    case VSet(t, members) => ListSpaced(v, t, members, g, gap, at, rest, ctx, trace);
    case VList(t, elems) => ListSpaced(v, t, elems, g, gap, at, rest, ctx, trace);
    case _ => OneToken(v, g, gap, at, rest, ctx, trace);
  }

  lemma OneToken(v: Value, g: seq<Byte>, gap: Gaps, at: nat, rest: seq<Byte>, ctx: seq<Ctx>, trace: seq<seq<Ctx>>)
    requires Rooted(ctx) && JsonValue(v) && IsScalar(v) && White(g) && AllWhite(gap)
    requires Ends(v, gap(at + |Placed(v, ctx)| - 1) + rest)
    ensures ReadsBack(v, g, gap, at, rest, ctx, trace)
  {
    hide ReadValue, SepTokens, Lay, Lead, Body, White, Stops, Post, SkipSpace;
    var q := at + |SepTokens(ctx)|;
    SepLaid(g, gap, at, ctx, ValueTokens(v, AtKey(ctx)), rest);
    LayOne(gap, q, Tok(Body(v, AtKey(ctx))), rest);
    ScalarSpaced(v, g, SepGap(gap, at, ctx), gap(q) + rest, ctx, trace);
  }

  // ---------------------------------------------------------------- structs

  lemma StructLaid(fields: seq<Field>, gap: Gaps, p: nat, rest: seq<Byte>)
    ensures var toks, end := FieldsTokens(fields, true), p + 1 + |FieldsTokens(fields, true)|;
      && Lay(gap, p, ValueTokens(VStruct(fields), false)) + rest
        == [LBRACE] + (gap(p) + Lay(gap, p + 1, toks) + ([RBRACE] + (gap(end) + rest)))
      && |ValueTokens(VStruct(fields), false)| == |toks| + 2
      && (Tight(gap, p, ValueTokens(VStruct(fields), false)) <==>
          (fields == [] ==> gap(p) == []) && Tight(gap, p + 1, toks))
  {
    hide Lay, FieldsTokens;
    var open, toks, close := Token([LBRACE], fields == []), FieldsTokens(fields, true), Tok([RBRACE]);
    assert [open] + toks + [close] == [open] + (toks + [close]);
    LayCons(gap, p, open, toks + [close], rest);
    LayAround([], gap, p + 1, toks, [close], rest);
    LayOne(gap, p + 1 + |toks|, close, rest);
    TightConcat(gap, p, [open], toks + [close]);
    TightOne(gap, p, open);
    TightOne(gap, p + 1 + |toks|, close);
    hide Tight;
    var inner := [RBRACE] + (gap(p + 1 + |toks|) + rest);
    assert gap(p) + (Lay(gap, p + 1, toks) + inner) == gap(p) + Lay(gap, p + 1, toks) + inner;
    assert [] + Lay(gap, p + 1, toks + [close]) + rest == Lay(gap, p + 1, toks + [close]) + rest;
    assert [] + Lay(gap, p + 1, toks) == Lay(gap, p + 1, toks);
  }

  lemma TightOne(gap: Gaps, at: nat, tok: Token)
    ensures Tight(gap, at, [tok]) <==> (tok.tight ==> gap(at) == [])
  {
    assert [tok][0] == tok && gap(at + 0) == gap(at);
  }

  lemma PlacedStruct(fields: seq<Field>, ctx: seq<Ctx>)
    requires ctx != []
    ensures Placed(VStruct(fields), ctx) == SepTokens(ctx) + ValueTokens(VStruct(fields), false)
  {
    hide FieldsTokens, SepTokens;
  }

  lemma {:induction false} StructSpaced(fields: seq<Field>, g: seq<Byte>, gap: Gaps, at: nat, rest: seq<Byte>,
      ctx: seq<Ctx>, trace: seq<seq<Ctx>>)
    requires Rooted(ctx) && JsonFields(fields) && White(g) && AllWhite(gap)
    requires Tight(gap, at, Placed(VStruct(fields), ctx))
    ensures ReadsBack(VStruct(fields), g, gap, at, rest, ctx, trace)
    decreases fields, 1
  {
    hide ParseOpen, ParseObjectEnd, ReadFields, FieldsTokens, FieldsTrace, CleanFields, Separator, Post, Lay, Lead,
      SepTokens, Tight, ValueTokens, SkipSpace, JsonFields, Placed;
    PlacedStruct(fields, ctx);
    var p, h := at + |SepTokens(ctx)|, SepGap(gap, at, ctx);
    SepLaid(g, gap, at, ctx, ValueTokens(VStruct(fields), false), rest);
    StructLaid(fields, gap, p, rest);
    var end := p + 1 + |FieldsTokens(fields, true)|;
    var after := gap(end) + rest;
    var tr := trace + [ctx + [ObjectFirst]];
    OpenOf(g, h, LBRACE, ObjectFirst, gap(p) + Lay(gap, p + 1, FieldsTokens(fields, true)) + ([RBRACE] + after), ctx,
      trace);
    FieldsSpaced(fields, true, gap(p), gap, p + 1, after, ctx, tr);
    var c := Last(true, fields == []);
    assert [] + ([RBRACE] + after) == [RBRACE] + after;
    ObjectEndOf([], c, after, ctx, tr + FieldsTrace(fields, ctx));
    assert tr + FieldsTrace(fields, ctx) + [Post(ctx)]
        == trace + ([ctx + [ObjectFirst]] + FieldsTrace(fields, ctx) + [Post(ctx)]);
  }

  lemma FieldsAfterComma(fields: seq<Field>)
    requires fields != []
    ensures FieldsTokens(fields, false) == [Tok([COMMA])] + (FieldTokens(fields[0]) + FieldsTokens(fields[1..], false))
  {
    hide FieldTokens;
  }

  lemma FieldsPunct(fields: seq<Field>, gap: Gaps, at: nat, rest: seq<Byte>)
    ensures Punct(Lay(gap, at, FieldsTokens(fields, false)) + ([RBRACE] + rest))
  {
    if fields != [] {
      hide Lay, FieldTokens, FieldsTokens;
      var comma, more := Tok([COMMA]), FieldTokens(fields[0]) + FieldsTokens(fields[1..], false);
      FieldsAfterComma(fields);
      LayCons(gap, at, comma, more, [RBRACE] + rest);
    }
  }

  lemma {:induction false} FieldsSpaced(fields: seq<Field>, first: bool, g: seq<Byte>, gap: Gaps, at: nat,
      rest: seq<Byte>, ctx: seq<Ctx>, trace: seq<seq<Ctx>>)
    requires Rooted(ctx) && JsonFields(fields) && White(g) && AllWhite(gap) && (fields == [] ==> g == [])
    requires Tight(gap, at, FieldsTokens(fields, first))
    ensures ReadFields(At(g + Lay(gap, at, FieldsTokens(fields, first)) + ([RBRACE] + rest), ctx + [First(first)],
        trace))
      == Read(Done(CleanFields(fields)),
           At([RBRACE] + rest, ctx + [Last(first, fields == [])], trace + FieldsTrace(fields, ctx)))
    decreases fields, 0
  {
    hide ReadField, FieldTokens, FieldTrace, CleanField, JsonField, Lay, Tight, CommaTokens, AllWhite;
    if fields == [] {
      NothingLaid(gap, at, [RBRACE] + rest);
      assert g + Lay(gap, at, []) + ([RBRACE] + rest) == Lay(gap, at, []) + ([RBRACE] + rest);
      FieldStopBack(rest, ctx + [First(first)], trace);
      assert trace + FieldsTrace(fields, ctx) == trace;
    } else {
      var f, one, later := fields[0], CommaTokens(first) + FieldTokens(fields[0]), FieldsTokens(fields[1..], false);
      var more := Lay(gap, at + |one|, later) + ([RBRACE] + rest);
      LayAround(g, gap, at, one, later, [RBRACE] + rest);
      FieldsPunct(fields[1..], gap, at + |one|, rest);
      FieldSpaced(f, first, g, gap, at, more, ctx, trace);
      FieldsSpaced(fields[1..], false, [], gap, at + |one|, rest, ctx, trace + FieldTrace(f, ctx));
      assert [] + Lay(gap, at + |one|, later) == Lay(gap, at + |one|, later);
      ReadFieldsStep(At(g + Lay(gap, at, one) + more, ctx + [First(first)], trace));
      hide ReadFields;
      assert trace + FieldTrace(f, ctx) + FieldsTrace(fields[1..], ctx) == trace + FieldsTrace(fields, ctx);
    }
  }

  lemma ReadFieldsStep(s: JIn)
    requires Rooted(s.ctx)
    ensures
      var f := ReadField(s);
      f.r.Done? && f.r.value.Some? && ReadFields(f.s).r.Done? ==>
        ReadFields(s) == Read(Done([f.r.value.value] + ReadFields(f.s).r.value), ReadFields(f.s).s)
  {
    hide ReadField;
  }

  lemma FieldStopBack(rest: seq<Byte>, ctx: seq<Ctx>, trace: seq<seq<Ctx>>)
    requires Rooted(ctx)
    ensures ReadField(At([RBRACE] + rest, ctx, trace)) == Read(Done(None), At([RBRACE] + rest, ctx, trace))
  {
  }

  lemma FieldLaid(f: Field, first: bool, g: seq<Byte>, gap: Gaps, at: nat, more: seq<Byte>)
    ensures
      var c, head := CommaTokens(first), FieldHeadTokens(TypeOf(f.value), f.id);
      var colon, b := [Tok([COLON])] + ValueTokens(f.value, false), at + |CommaTokens(first)| + 4;
      && g + Lay(gap, at, c + FieldTokens(f)) + more
        == g + Lay(gap, at, c + head) + (Lay(gap, b, colon) + ([RBRACE] + (gap(b + |colon|) + more)))
      && (Tight(gap, at, c + FieldTokens(f)) <==> Tight(gap, b, colon))
      && Punct(Lay(gap, b, colon) + ([RBRACE] + (gap(b + |colon|) + more)))
  {
    hide Lay, ValueTokens, Quote, FormatInt, Name;
    var c, head, close := CommaTokens(first), FieldHeadTokens(TypeOf(f.value), f.id), [Tok([RBRACE])];
    var colon, b := [Tok([COLON])] + ValueTokens(f.value, false), at + |c| + 4;
    assert c + FieldTokens(f) == (c + head) + (colon + close);
    LayAround(g, gap, at, c + head, colon + close, more);
    LayAround([], gap, b, colon, close, more);
    LayOne(gap, b + |colon|, Tok([RBRACE]), more);
    assert [] + Lay(gap, b, colon + close) == Lay(gap, b, colon + close);
    assert [] + Lay(gap, b, colon) == Lay(gap, b, colon);
    LayCons(gap, b, Tok([COLON]), ValueTokens(f.value, false), [RBRACE] + (gap(b + |colon|) + more));
  }

  lemma {:induction false} FieldSpaced(f: Field, first: bool, g: seq<Byte>, gap: Gaps, at: nat, more: seq<Byte>,
      ctx: seq<Ctx>, trace: seq<seq<Ctx>>)
    requires Rooted(ctx) && JsonField(f) && White(g) && AllWhite(gap) && Punct(more)
    requires Tight(gap, at, CommaTokens(first) + FieldTokens(f))
    ensures ReadField(At(g + Lay(gap, at, CommaTokens(first) + FieldTokens(f)) + more, ctx + [First(first)], trace))
         == Read(Done(Some(CleanField(f))), At(more, ctx + [NextKey], trace + FieldTrace(f, ctx)))
    decreases f, 0
  {
    NoWhite();
    hide ReadFieldBegin, ReadValue, ParseObjectEnd, FieldHeadTokens, FieldTokens, ValueTokens, FieldHeadTrace, Trace,
      Clean, JsonValue, Post, SkipSpace, Lay, Tight, CommaTokens, White, Placed, After, Ends;
    var t := TypeOf(f.value);
    var colon, b := [Tok([COLON])] + ValueTokens(f.value, false), at + |CommaTokens(first)| + 4;
    FieldLaid(f, first, g, gap, at, more);
    var close := [RBRACE] + (gap(b + |colon|) + more);
    var value := Lay(gap, b, colon) + close;
    ReadFieldBeginOf(t, f.id, first, g, gap, at, value, ctx, trace);
    PunctFacts(value);
    var outer, inner := ctx + [NextValue], ctx + [NextValue] + [NextValue];
    var tr := trace + FieldHeadTrace(ctx);
    PostOf(outer, NextValue);
    ColonSpaced(f.value, gap, b, close, outer, tr);
    assert [] + ([RBRACE] + (gap(b + |colon|) + more)) == close;
    ObjectEndOf([], NextKey, gap(b + |colon|) + more, outer, tr + Trace(f.value, inner));
    SkipTo(gap(b + |colon|), more);
    PostOf(ctx, NextValue);
    assert tr + Trace(f.value, inner) + [ctx + [NextKey]] == trace + FieldTrace(f, ctx);
  }

  /** The tokens of a value after the separator of its context. */
  lemma AfterSeparator(v: Value, ctx: seq<Ctx>, c: Ctx, sep: Byte)
    requires Separator(c) == [sep] && !c.NextKey?
    ensures Placed(v, ctx + [c]) == [Tok([sep])] + ValueTokens(v, false)
    ensures !AtKey(ctx + [c]) && !Top(ctx + [c]).Toplevel?
  {
    hide ValueTokens;
  }

  // ---------------------------------------------------------------- lists and sets

  lemma ListLaid(v: Value, t: Byte, vs: seq<Value>, g: seq<Byte>, gap: Gaps, at: nat, rest: seq<Byte>, ctx: seq<Ctx>)
    requires ctx != [] && (v == VList(t, vs) || v == VSet(t, vs))
    ensures
      var head, b := SepTokens(ctx) + ListHeadTokens(t, |vs|), at + |SepTokens(ctx)| + 4;
      var end := b + |AllTokens(vs)|;
      && |Placed(v, ctx)| == end - at + 1
      && g + Lay(gap, at, Placed(v, ctx)) + rest
        == g + Lay(gap, at, head) + (Lay(gap, b, AllTokens(vs)) + ([RBRACKET] + (gap(end) + rest)))
      && (Tight(gap, at, Placed(v, ctx)) <==> Tight(gap, b, AllTokens(vs)))
  {
    hide Lay, AllTokens, FormatInt, Name, SepTokens;
    NoTightSeparator(ctx);
    var head, all, close := SepTokens(ctx) + ListHeadTokens(t, |vs|), AllTokens(vs), [Tok([RBRACKET])];
    var b := at + |head|;
    assert Placed(v, ctx) == head + (all + close);
    LayAround(g, gap, at, head, all + close, rest);
    LayAround([], gap, b, all, close, rest);
    LayOne(gap, b + |all|, Tok([RBRACKET]), rest);
    assert [] + Lay(gap, b, all + close) == Lay(gap, b, all + close) && [] + Lay(gap, b, all) == Lay(gap, b, all);
  }

  lemma NoTightSeparator(ctx: seq<Ctx>)
    requires ctx != []
    ensures forall i :: 0 <= i < |SepTokens(ctx)| ==> !SepTokens(ctx)[i].tight
  {
  }

  lemma {:induction false} ListSpaced(v: Value, t: Byte, vs: seq<Value>, g: seq<Byte>, gap: Gaps, at: nat,
      rest: seq<Byte>, ctx: seq<Ctx>, trace: seq<seq<Ctx>>)
    requires Rooted(ctx) && IsType(t) && |vs| <= MAX_JSON_SIZE && JsonAll(t, vs) && White(g) && AllWhite(gap)
    requires (v == VList(t, vs) || v == VSet(t, vs)) && !AtKey(ctx) && Tight(gap, at, Placed(v, ctx))
    ensures ReadsBack(v, g, gap, at, rest, ctx, trace)
    decreases vs, 1
  {
    NoWhite();
    hide ReadValue, ReadListBegin, ParseListEnd, ListHeadTokens, AllTokens, ListHeadTrace, AllTrace, CleanAll,
      SepTokens, Post, AfterList, Lay, Tight, White, Placed, JsonAll;
    ListLaid(v, t, vs, g, gap, at, rest, ctx);
    var b := at + |SepTokens(ctx)| + 4;
    var end := b + |AllTokens(vs)|;
    var after := gap(end) + rest;
    var body := Lay(gap, b, AllTokens(vs)) + ([RBRACKET] + after);
    AllPunct(vs, gap, b, after);
    PunctFacts(body);
    ReadListBeginOf(t, |vs|, g, gap, at, body, ctx, trace);
    var tr := trace + ListHeadTrace(ctx);
    AllSpaced(t, vs, gap, b, after, ctx, tr);
    assert [] + ([RBRACKET] + after) == [RBRACKET] + after;
    ListEndOf([], after, ctx, tr + AllTrace(vs, ctx));
    ReadListStep(At(g + Lay(gap, at, SepTokens(ctx) + ListHeadTokens(t, |vs|)) + body, ctx, trace),
      At(body, ctx + [InList], tr), t, |vs|);
    hide ReadAll;
    assert tr + AllTrace(vs, ctx) + [Post(ctx)] == trace + (ListHeadTrace(ctx) + AllTrace(vs, ctx) + [Post(ctx)]);
  }

  lemma ReadListStep(s: JIn, s1: JIn, t: Byte, n: nat)
    requires Rooted(s.ctx) && Rooted(s1.ctx)
    ensures
      var vs := ReadAll(s1, t, n);
      ReadListBegin(s) == Read(Done(JList(t, n)), s1) && vs.r.Done? && ParseListEnd(vs.s).r.Done? ==>
        && ReadValue(s, LIST) == Read(Done(VList(t, vs.r.value)), ParseListEnd(vs.s).s)
        && ReadValue(s, SET) == Read(Done(VSet(t, vs.r.value)), ParseListEnd(vs.s).s)
  {
    hide ReadListBegin, ParseListEnd;
    if n > 0 { hide ReadAll; }
  }

  lemma AllPunct(vs: seq<Value>, gap: Gaps, at: nat, rest: seq<Byte>)
    ensures Punct(Lay(gap, at, AllTokens(vs)) + ([RBRACKET] + rest))
  {
    if vs != [] {
      hide Lay, ValueTokens;
      var more := ValueTokens(vs[0], false) + AllTokens(vs[1..]);
      AllFirst(vs);
      hide AllTokens;
      LayCons(gap, at, Tok([COMMA]), more, [RBRACKET] + rest);
    }
  }

  lemma AllFirst(vs: seq<Value>)
    requires vs != []
    ensures AllTokens(vs) == [Tok([COMMA])] + (ValueTokens(vs[0], false) + AllTokens(vs[1..]))
  {
    hide ValueTokens;
  }

  lemma AllLaid(vs: seq<Value>, gap: Gaps, at: nat, rest: seq<Byte>, ctx: seq<Ctx>)
    requires vs != []
    ensures
      var one := Placed(vs[0], ctx + [InList]);
      var more := Lay(gap, at + |one|, AllTokens(vs[1..])) + ([RBRACKET] + rest);
      && Lay(gap, at, AllTokens(vs)) + ([RBRACKET] + rest) == [] + Lay(gap, at, one) + more
      && (Tight(gap, at, AllTokens(vs)) <==> Tight(gap, at, one) && Tight(gap, at + |one|, AllTokens(vs[1..])))
      && Punct(more)
  {
    hide Lay, ValueTokens, Tight;
    AfterSeparator(vs[0], ctx, InList, COMMA);
    var one, later := [Tok([COMMA])] + ValueTokens(vs[0], false), AllTokens(vs[1..]);
    assert AllTokens(vs) == one + later;
    LayAround([], gap, at, one, later, [RBRACKET] + rest);
    AllPunct(vs[1..], gap, at + |one|, rest);
    assert [] + Lay(gap, at, one + later) == Lay(gap, at, one + later);
  }

  lemma ReadAllStep(s: JIn, t: Byte, n: nat)
    requires n > 0 && Rooted(s.ctx)
    ensures
      var v := ReadValue(s, t);
      var vs := ReadAll(v.s, t, n - 1);
      v.r.Done? && vs.r.Done? ==> ReadAll(s, t, n) == Read(Done([v.r.value] + vs.r.value), vs.s)
  {
    hide ReadValue;
  }

  lemma {:induction false} AllSpaced(t: Byte, vs: seq<Value>, gap: Gaps, at: nat, rest: seq<Byte>, ctx: seq<Ctx>,
      trace: seq<seq<Ctx>>)
    requires Rooted(ctx) && JsonAll(t, vs) && AllWhite(gap) && Tight(gap, at, AllTokens(vs))
    ensures ReadAll(At(Lay(gap, at, AllTokens(vs)) + ([RBRACKET] + rest), ctx + [InList], trace), t, |vs|)
         == Read(Done(CleanAll(vs)), At([RBRACKET] + rest, ctx + [InList], trace + AllTrace(vs, ctx)))
    decreases vs, 0
  {
    hide ReadValue, ValueTokens, Trace, Clean, JsonValue, Post, Lay, Tight, White, Placed, After, Ends;
    NoWhite();
    if vs == [] {
      NothingLaid(gap, at, [RBRACKET] + rest);
      assert trace + AllTrace(vs, ctx) == trace;
    } else {
      hide ReadAll, AllTokens;
      var inList := ctx + [InList];
      PostOf(ctx, InList);
      AfterSeparator(vs[0], ctx, InList, COMMA);
      var one := Placed(vs[0], inList);
      var more := Lay(gap, at + |one|, AllTokens(vs[1..])) + ([RBRACKET] + rest);
      AllLaid(vs, gap, at, rest, ctx);
      AfterPunct(vs[0], gap(at + |one| - 1), more, inList);
      ValueSpaced(vs[0], [], gap, at, more, inList, trace);
      AllSpaced(t, vs[1..], gap, at + |one|, rest, ctx, trace + Trace(vs[0], inList));
      ReadAllStep(At([] + Lay(gap, at, one) + more, inList, trace), t, |vs|);
      assert trace + Trace(vs[0], inList) + AllTrace(vs[1..], ctx) == trace + AllTrace(vs, ctx);
    }
  }

  // ---------------------------------------------------------------- maps

  lemma MapLaid(kt: Byte, vt: Byte, entries: seq<Entry>, g: seq<Byte>, gap: Gaps, at: nat, rest: seq<Byte>,
      ctx: seq<Ctx>)
    requires ctx != []
    ensures
      var v := VMap(kt, vt, entries);
      var head, b := SepTokens(ctx) + MapHeadTokens(kt, vt, |entries|), at + |SepTokens(ctx)| + 8;
      var toks := EntriesTokens(entries, true);
      var end := b + |toks|;
      && |Placed(v, ctx)| == end - at + 2
      && g + Lay(gap, at, Placed(v, ctx)) + rest
        == g + Lay(gap, at, head)
          + (Lay(gap, b, toks) + ([RBRACE] + (gap(end) + ([RBRACKET] + (gap(end + 1) + rest)))))
      && (Tight(gap, at, Placed(v, ctx)) <==> Tight(gap, b, toks))
  {
    hide Lay, EntriesTokens, FormatInt, Name, SepTokens;
    NoTightSeparator(ctx);
    var head, toks := SepTokens(ctx) + MapHeadTokens(kt, vt, |entries|), EntriesTokens(entries, true);
    var close := [Tok([RBRACE]), Tok([RBRACKET])];
    var b := at + |head|;
    assert Placed(VMap(kt, vt, entries), ctx) == head + (toks + close);
    LayAround(g, gap, at, head, toks + close, rest);
    LayAround([], gap, b, toks, close, rest);
    assert close == [Tok([RBRACE])] + [Tok([RBRACKET])];
    LayCons(gap, b + |toks|, Tok([RBRACE]), [Tok([RBRACKET])], rest);
    LayOne(gap, b + |toks| + 1, Tok([RBRACKET]), rest);
    assert [] + Lay(gap, b, toks + close) == Lay(gap, b, toks + close) && [] + Lay(gap, b, toks) == Lay(gap, b, toks);
  }

  lemma {:induction false} MapSpaced(kt: Byte, vt: Byte, entries: seq<Entry>, g: seq<Byte>, gap: Gaps, at: nat,
      rest: seq<Byte>, ctx: seq<Ctx>, trace: seq<seq<Ctx>>)
    requires Rooted(ctx) && IsType(kt) && IsType(vt) && |entries| <= MAX_JSON_SIZE
    requires JsonEntries(kt, vt, entries) && White(g) && AllWhite(gap) && !AtKey(ctx)
    requires Tight(gap, at, Placed(VMap(kt, vt, entries), ctx))
    ensures ReadsBack(VMap(kt, vt, entries), g, gap, at, rest, ctx, trace)
    decreases entries, 1
  {
    NoWhite();
    hide ReadMapBegin, ReadMapEnd, MapHeadTokens, EntriesTokens, MapHeadTrace, EntriesTrace, CleanEntries, SepTokens,
      Post, AfterList, Lay, Tight, White, Placed, JsonEntries;
    MapLaid(kt, vt, entries, g, gap, at, rest, ctx);
    var b := at + |SepTokens(ctx)| + 8;
    var end := b + |EntriesTokens(entries, true)|;
    var tail := gap(end) + ([RBRACKET] + (gap(end + 1) + rest));
    var text := Lay(gap, b, EntriesTokens(entries, true)) + ([RBRACE] + tail);
    ReadMapBeginOf(kt, vt, |entries|, g, gap, at, text, ctx, trace);
    var inList := ctx + [InList];
    var tr := trace + MapHeadTrace(ctx);
    EntriesSpaced(kt, vt, entries, true, gap(b - 1), gap, b, tail, inList, tr);
    var s := At(gap(b - 1) + text, inList + [ObjectFirst], tr);
    assert gap(b - 1) + Lay(gap, b, EntriesTokens(entries, true)) + ([RBRACE] + tail) == gap(b - 1) + text;
    assert |entries| == 0 ==> ReadEntries(s, kt, vt, 0) == Read(Done([]), s);
    hide ReadEntries;
    var tr2 := tr + EntriesTrace(entries, inList);
    MapEndOf(if entries == [] then gap(b - 1) else [], gap(end), Last(true, entries == []), gap(end + 1) + rest, ctx,
      tr2);
    assert tr2 + [inList] + [Post(ctx)]
        == trace + (MapHeadTrace(ctx) + EntriesTrace(entries, ctx + [InList]) + [ctx + [InList]] + [Post(ctx)]);
  }

  lemma MapEndOf(g: seq<Byte>, h: seq<Byte>, c: Ctx, rest: seq<Byte>, ctx: seq<Ctx>, trace: seq<seq<Ctx>>)
    requires Rooted(ctx) && (c.ObjectFirst? || c.NextKey?) && White(g) && White(h)
    ensures ReadMapEnd(At(g + ([RBRACE] + (h + ([RBRACKET] + rest))), ctx + [InList] + [c], trace))
         == Read(Done(()), At(AfterList(ctx, rest), Post(ctx), trace + [ctx + [InList]] + [Post(ctx)]))
  {
    hide ParseObjectEnd, ParseListEnd, SkipSpace, Post;
    PostOf(ctx, InList);
    ObjectEndOf(g, c, h + ([RBRACKET] + rest), ctx + [InList], trace);
    SkipTo(h, [RBRACKET] + rest);
    assert [] + ([RBRACKET] + rest) == [RBRACKET] + rest;
    ListEndOf([], rest, ctx, trace + [ctx + [InList]]);
  }

  lemma ReadEntriesStep(s: JIn, kt: Byte, vt: Byte, n: nat)
    requires n > 0 && Rooted(s.ctx)
    ensures
      var e := ReadEntry(s, kt, vt);
      var es := ReadEntries(e.s, kt, vt, n - 1);
      e.r.Done? && es.r.Done? ==> ReadEntries(s, kt, vt, n) == Read(Done([e.r.value] + es.r.value), es.s)
  {
    hide ReadEntry;
  }

  lemma EntriesAfterComma(entries: seq<Entry>)
    requires entries != []
    ensures EntriesTokens(entries, false)
         == [Tok([COMMA])] + (EntryTokens(entries[0]) + EntriesTokens(entries[1..], false))
  {
    hide EntryTokens;
  }

  lemma EntriesPunct(entries: seq<Entry>, gap: Gaps, at: nat, rest: seq<Byte>)
    ensures Punct(Lay(gap, at, EntriesTokens(entries, false)) + ([RBRACE] + rest))
  {
    if entries != [] {
      hide Lay, EntryTokens, EntriesTokens;
      var comma, more := Tok([COMMA]), EntryTokens(entries[0]) + EntriesTokens(entries[1..], false);
      EntriesAfterComma(entries);
      LayCons(gap, at, comma, more, [RBRACE] + rest);
    }
  }

  /** Where there are no entries the reader has not looked at the white space yet. */
  lemma {:induction false} EntriesSpaced(kt: Byte, vt: Byte, entries: seq<Entry>, first: bool, g: seq<Byte>, gap: Gaps,
      at: nat, rest: seq<Byte>, ctx: seq<Ctx>, trace: seq<seq<Ctx>>)
    requires Rooted(ctx) && JsonEntries(kt, vt, entries) && White(g) && AllWhite(gap)
    requires Tight(gap, at, EntriesTokens(entries, first))
    ensures ReadEntries(At(g + Lay(gap, at, EntriesTokens(entries, first)) + ([RBRACE] + rest), ctx + [First(first)],
        trace), kt, vt, |entries|)
      == Read(Done(CleanEntries(entries)),
           At((if entries == [] then g else []) + ([RBRACE] + rest), ctx + [Last(first, entries == [])],
             trace + EntriesTrace(entries, ctx)))
    decreases entries, 0
  {
    hide ReadEntry, EntryTokens, EntryTrace, CleanEntry, JsonEntry, Lay, Tight, CommaTokens, AllWhite;
    if entries == [] {
      NothingLaid(gap, at, []);
      assert g + Lay(gap, at, []) + ([RBRACE] + rest) == g + ([RBRACE] + rest);
      assert trace + EntriesTrace(entries, ctx) == trace;
    } else {
      var e, one, later := entries[0], CommaTokens(first) + EntryTokens(entries[0]), EntriesTokens(entries[1..], false);
      var more := Lay(gap, at + |one|, later) + ([RBRACE] + rest);
      LayAround(g, gap, at, one, later, [RBRACE] + rest);
      EntriesPunct(entries[1..], gap, at + |one|, rest);
      EntrySpaced(kt, vt, e, first, g, gap, at, more, ctx, trace);
      EntriesSpaced(kt, vt, entries[1..], false, [], gap, at + |one|, rest, ctx, trace + EntryTrace(e, ctx));
      assert [] + Lay(gap, at + |one|, later) == Lay(gap, at + |one|, later);
      assert [] + ([RBRACE] + rest) == [RBRACE] + rest;
      ReadEntriesStep(At(g + Lay(gap, at, one) + more, ctx + [First(first)], trace), kt, vt, |entries|);
      hide ReadEntries;
      assert trace + EntryTrace(e, ctx) + EntriesTrace(entries[1..], ctx) == trace + EntriesTrace(entries, ctx);
    }
  }

  lemma EntryLaid(e: Entry, first: bool, g: seq<Byte>, gap: Gaps, at: nat, more: seq<Byte>)
    ensures
      var key, colon := CommaTokens(first) + ValueTokens(e.key, true), [Tok([COLON])] + ValueTokens(e.value, false);
      var b := at + |key|;
      && g + Lay(gap, at, CommaTokens(first) + EntryTokens(e)) + more
        == g + Lay(gap, at, key) + (Lay(gap, b, colon) + more)
      && (Tight(gap, at, CommaTokens(first) + EntryTokens(e)) <==> Tight(gap, at, key) && Tight(gap, b, colon))
      && Punct(Lay(gap, b, colon) + more)
  {
    hide Lay, ValueTokens, CommaTokens;
    var key, colon := CommaTokens(first) + ValueTokens(e.key, true), [Tok([COLON])] + ValueTokens(e.value, false);
    assert CommaTokens(first) + EntryTokens(e) == key + colon;
    LayAround(g, gap, at, key, colon, more);
    LayCons(gap, at + |key|, Tok([COLON]), ValueTokens(e.value, false), more);
  }

  lemma ReadEntryStep(s: JIn, kt: Byte, vt: Byte)
    requires Rooted(s.ctx)
    ensures
      var k := ReadValue(s, kt);
      var v := ReadValue(k.s, vt);
      k.r.Done? && v.r.Done? ==> ReadEntry(s, kt, vt) == Read(Done(Entry(k.r.value, v.r.value)), v.s)
  {
    hide ReadValue;
  }

  lemma {:induction false} KeySpaced(e: Entry, first: bool, g: seq<Byte>, gap: Gaps, at: nat, value: seq<Byte>,
      ctx: seq<Ctx>, trace: seq<seq<Ctx>>)
    requires Rooted(ctx) && IsScalar(e.key) && JsonValue(e.key) && White(g) && AllWhite(gap) && Punct(value)
    ensures ReadValue(At(g + Lay(gap, at, CommaTokens(first) + ValueTokens(e.key, true)) + value, ctx + [First(first)],
        trace), TypeOf(e.key))
      == Read(Done(Clean(e.key)), At(value, ctx + [NextValue], trace + [ctx + [NextValue]]))
    decreases e, 0
  {
    hide ReadValue, ValueTokens, Clean, JsonValue, SkipSpace, Lay, White, CommaTokens, After, Ends;
    var c := ctx + [First(first)];
    PostOf(ctx, First(first));
    SepOfFirst(first, ctx);
    var key := CommaTokens(first) + ValueTokens(e.key, true);
    assert Placed(e.key, c) == key;
    assert White(gap(at + |key| - 1));
    AfterPunct(e.key, gap(at + |key| - 1), value, c);
    OneToken(e.key, g, gap, at, value, c, trace);
    assert Trace(e.key, c) == [Post(c)];
  }

  /** A value after a colon. */
  lemma {:induction false} ColonSpaced(v: Value, gap: Gaps, at: nat, more: seq<Byte>, ctx: seq<Ctx>,
      trace: seq<seq<Ctx>>)
    requires Rooted(ctx) && JsonValue(v) && AllWhite(gap) && Punct(more)
    requires Tight(gap, at, [Tok([COLON])] + ValueTokens(v, false))
    ensures ReadValue(At(Lay(gap, at, [Tok([COLON])] + ValueTokens(v, false)) + more, ctx + [NextValue], trace),
        TypeOf(v))
      == Read(Done(Clean(v)), At(more, ctx + [NextKey], trace + Trace(v, ctx + [NextValue])))
    decreases v, 3
  {
    hide ReadValue, ValueTokens, Clean, JsonValue, Trace, SkipSpace, Lay, White, Tight, After, Ends, Placed;
    var atValue, colon := ctx + [NextValue], [Tok([COLON])] + ValueTokens(v, false);
    NoWhite();
    PostOf(ctx, NextValue);
    AfterSeparator(v, ctx, NextValue, COLON);
    assert White(gap(at + |colon| - 1));
    AfterPunct(v, gap(at + |colon| - 1), more, atValue);
    ValueSpaced(v, [], gap, at, more, atValue, trace);
    assert [] + Lay(gap, at, colon) + more == Lay(gap, at, colon) + more;
  }

  lemma {:induction false} EntrySpaced(kt: Byte, vt: Byte, e: Entry, first: bool, g: seq<Byte>, gap: Gaps, at: nat,
      more: seq<Byte>, ctx: seq<Ctx>, trace: seq<seq<Ctx>>)
    requires Rooted(ctx) && JsonEntry(kt, vt, e) && White(g) && AllWhite(gap) && Punct(more)
    requires Tight(gap, at, CommaTokens(first) + EntryTokens(e))
    ensures ReadEntry(At(g + Lay(gap, at, CommaTokens(first) + EntryTokens(e)) + more, ctx + [First(first)], trace), kt,
        vt)
      == Read(Done(CleanEntry(e)), At(more, ctx + [NextKey], trace + EntryTrace(e, ctx)))
    decreases e, 0
  {
    hide ReadValue, ReadEntry, ValueTokens, Clean, JsonValue, Trace, Lay, Tight, White, CommaTokens, EntryTokens, Punct;
    EntryLaid(e, first, g, gap, at, more);
    var b, atValue := at + |CommaTokens(first) + ValueTokens(e.key, true)|, ctx + [NextValue];
    var value := Lay(gap, b, [Tok([COLON])] + ValueTokens(e.value, false)) + more;
    KeySpaced(e, first, g, gap, at, value, ctx, trace);
    ColonSpaced(e.value, gap, b, more, ctx, trace + [atValue]);
    ReadEntryStep(At(g + Lay(gap, at, CommaTokens(first) + ValueTokens(e.key, true)) + value, ctx + [First(first)],
      trace), kt, vt);
    assert trace + [atValue] + Trace(e.value, atValue) == trace + EntryTrace(e, ctx);
  }

  // ---------------------------------------------------------------- the writer's own text

  lemma NoGaps()
    ensures AllWhite(NO_GAPS) && forall at: nat, toks: seq<Token> :: Tight(NO_GAPS, at, toks)
  {
  }

  lemma WrittenPlaced(v: Value, ctx: seq<Ctx>)
    requires ctx != []
    ensures Lay(NO_GAPS, 0, Placed(v, ctx)) == Separator(Top(ctx)) + Body(v, AtKey(ctx))
  {
    hide Lay, ValueTokens, Body;
    LayConcat(NO_GAPS, 0, SepTokens(ctx), ValueTokens(v, AtKey(ctx)));
    WrittenValue(v, AtKey(ctx), |SepTokens(ctx)|);
    if Separator(Top(ctx)) == [] {
      NothingLaid(NO_GAPS, 0, []);
    } else {
      WrittenOne(Tok(Separator(Top(ctx))), 0);
    }
  }

  /** The round trip: at any position of any document and whatever follows, what the writer writes
      comes back. */
  lemma ValueBack(v: Value, rest: seq<Byte>, ctx: seq<Ctx>, trace: seq<seq<Ctx>>)
    requires Rooted(ctx) && JsonValue(v) && Ends(v, rest)
    requires AtKey(ctx) ==> IsScalar(v)
    ensures ReadValue(At(Separator(Top(ctx)) + Body(v, AtKey(ctx)) + rest, ctx, trace), TypeOf(v))
         == Read(Done(Clean(v)), At(After(v, rest, ctx), Post(ctx), trace + Trace(v, ctx)))
  {
    hide ReadValue, Separator, Post, Placed, Lay, Tight, Body, Stops, Trace, Clean, JsonValue, AfterList, SkipSpace;
    NoGaps();
    WrittenPlaced(v, ctx);
    assert [] + rest == rest;
    ValueSpaced(v, [], NO_GAPS, 0, rest, ctx, trace);
    assert [] + Lay(NO_GAPS, 0, Placed(v, ctx)) == Lay(NO_GAPS, 0, Placed(v, ctx));
  }

  lemma FieldsBack(fields: seq<Field>, first: bool, rest: seq<Byte>, ctx: seq<Ctx>, trace: seq<seq<Ctx>>)
    requires Rooted(ctx) && JsonFields(fields)
    ensures ReadFields(At(FieldsBody(fields, first) + [RBRACE] + rest, ctx + [First(first)], trace))
         == Read(Done(CleanFields(fields)),
              At([RBRACE] + rest, ctx + [Last(first, fields == [])], trace + FieldsTrace(fields, ctx)))
  {
    hide ReadFields, FieldsTokens, FieldsBody, Lay, Tight, FieldsTrace, CleanFields, JsonFields;
    NoGaps();
    WrittenFields(fields, first, 0);
    FieldsSpaced(fields, first, [], NO_GAPS, 0, rest, ctx, trace);
    assert [] + FieldsBody(fields, first) + ([RBRACE] + rest) == FieldsBody(fields, first) + [RBRACE] + rest;
  }

  // ---------------------------------------------------------------- exactly what comes back

  /** Every string is valid UTF-8. */
  ghost predicate Utf8Value(v: Value)
    decreases v, 1
  {
    match v
    case VString(bytes) => IsUtf8(bytes)
    case VStruct(fields) => Utf8Fields(fields)
    case VMap(_, _, entries) => Utf8Entries(entries)
    case VSet(_, members) => Utf8All(members)
    case VList(_, elems) => Utf8All(elems)
    case _ => true
  }

  ghost predicate Utf8Fields(fields: seq<Field>)
    decreases fields, 0
  {
    fields == [] || (Utf8Field(fields[0]) && Utf8Fields(fields[1..]))
  }

  ghost predicate Utf8Field(f: Field)
    decreases f, 0
  {
    Utf8Value(f.value)
  }

  ghost predicate Utf8All(vs: seq<Value>)
    decreases vs, 0
  {
    vs == [] || (Utf8Value(vs[0]) && Utf8All(vs[1..]))
  }

  ghost predicate Utf8Entries(entries: seq<Entry>)
    decreases entries, 0
  {
    entries == [] || (Utf8Entry(entries[0]) && Utf8Entries(entries[1..]))
  }

  ghost predicate Utf8Entry(e: Entry)
    decreases e, 0
  {
    Utf8Value(e.key) && Utf8Value(e.value)
  }

  lemma {:induction false} CleanIff(v: Value)
    ensures Clean(v) == v <==> Utf8Value(v)
    decreases v, 1
  {
    hide Sanitize, IsUtf8;
    match v
    case VString(bytes) => SanitizeIff(bytes);
    case VStruct(fields) => CleanFieldsIff(fields);
    case VMap(_, _, entries) => CleanEntriesIff(entries);
    case VSet(_, members) => CleanAllIff(members);
    case VList(_, elems) => CleanAllIff(elems);
    case _ =>
  }

  lemma {:induction false} CleanFieldsIff(fields: seq<Field>)
    ensures CleanFields(fields) == fields <==> Utf8Fields(fields)
    decreases fields, 0
  {
    if fields != [] {
      hide Clean, Utf8Value;
      CleanFieldIff(fields[0]);
      CleanFieldsIff(fields[1..]);
      assert fields == [fields[0]] + fields[1..];
    }
  }

  lemma {:induction false} CleanFieldIff(f: Field)
    ensures CleanField(f) == f <==> Utf8Field(f)
    decreases f, 0
  {
    CleanIff(f.value);
  }

  lemma {:induction false} CleanAllIff(vs: seq<Value>)
    ensures CleanAll(vs) == vs <==> Utf8All(vs)
    decreases vs, 0
  {
    if vs != [] {
      hide Clean, Utf8Value;
      CleanIff(vs[0]);
      CleanAllIff(vs[1..]);
      assert vs == [vs[0]] + vs[1..];
    }
  }

  lemma {:induction false} CleanEntriesIff(entries: seq<Entry>)
    ensures CleanEntries(entries) == entries <==> Utf8Entries(entries)
    decreases entries, 0
  {
    if entries != [] {
      hide CleanEntry, Utf8Entry;
      CleanEntryIff(entries[0]);
      CleanEntriesIff(entries[1..]);
      assert entries == [entries[0]] + entries[1..];
    }
  }

  lemma {:induction false} CleanEntryIff(e: Entry)
    ensures CleanEntry(e) == e <==> Utf8Entry(e)
    decreases e, 0
  {
    CleanIff(e.key);
    CleanIff(e.value);
  }

  /** A value comes back unchanged exactly when its strings are valid UTF-8. */
  lemma ComesBackIff(v: Value, rest: seq<Byte>, ctx: seq<Ctx>, trace: seq<seq<Ctx>>)
    requires Rooted(ctx) && JsonValue(v) && Ends(v, rest)
    requires AtKey(ctx) ==> IsScalar(v)
    ensures ReadValue(At(Separator(Top(ctx)) + Body(v, AtKey(ctx)) + rest, ctx, trace), TypeOf(v)).r == Done(v)
        <==> Utf8Value(v)
  {
    hide ReadValue, Body, Clean, Utf8Value, JsonValue;
    ValueBack(v, rest, ctx, trace);
    CleanIff(v);
  }

  /** The string of the one byte 0xFF comes back as the replacement character. */
  lemma StrayByteComesBack(rest: seq<Byte>, ctx: seq<Ctx>, trace: seq<seq<Ctx>>)
    requires Rooted(ctx)
    ensures var v := VString([0xFF]);
      !Utf8Value(v)
      && ReadValue(At(Separator(Top(ctx)) + Body(v, AtKey(ctx)) + rest, ctx, trace), STRING).r
      == Done(VString([0xEF, 0xBF, 0xBD]))
  {
    hide ReadValue, Body, Sanitize;
    StrayByteReplaced();
    ValueBack(VString([0xFF]), rest, ctx, trace);
  }

  // ---------------------------------------------------------------- messages

  /** A whole message is read, whatever state the reader was in and whatever follows, with any white
      space before it and between its tokens. */
  lemma MessageSpaced(name: seq<Byte>, typeId: I8, seqId: I32, v: Value, g: seq<Byte>, gap: Gaps, rest: seq<Byte>,
      ctx: seq<Ctx>, trace: seq<seq<Ctx>>)
    requires JsonValue(v) && White(g) && AllWhite(gap)
    requires Tight(gap, 8, [Tok([COMMA])] + ValueTokens(v, false))
    ensures
      var toks := MessageTokens(name, typeId, seqId) + ([Tok([COMMA])] + ValueTokens(v, false)) + [Tok([RBRACKET])];
      var s := At(g + Lay(gap, 0, toks) + rest, ctx, trace);
      var h := ReadMessageBegin(s);
      var b := ReadValue(h.s, TypeOf(v));
      && h.r == Done(JMessage(Sanitize(name), typeId, seqId)) && b.r == Done(Clean(v))
      && ParseListEnd(b.s) == Read(Done(()), At(gap(|toks| - 1) + rest, [Toplevel],
           trace + MessageHeadTrace() + Trace(v, [Toplevel, InList]) + [[Toplevel]]))
  {
    NoWhite();
    hide ReadMessageBegin, ReadValue, ParseListEnd, MessageTokens, ValueTokens, Clean, Sanitize, Trace, JsonValue, Lay,
      Tight, White, Placed, SkipSpace;
    var inList := [Toplevel, InList];
    assert [Toplevel] + [InList] == inList && Post([Toplevel]) == [Toplevel];
    PostOf([Toplevel], InList);
    AfterSeparator(v, [Toplevel], InList, COMMA);
    var head, one := MessageTokens(name, typeId, seqId), Placed(v, inList);
    MessageLength(name, typeId, seqId);
    var end := 8 + |one|;
    var close := [RBRACKET] + (gap(end) + rest);
    var value := Lay(gap, 8, one) + close;
    assert head + one + [Tok([RBRACKET])] == head + (one + [Tok([RBRACKET])]);
    LayAround(g, gap, 0, head, one + [Tok([RBRACKET])], rest);
    LayAround([], gap, 8, one, [Tok([RBRACKET])], rest);
    LayOne(gap, end, Tok([RBRACKET]), rest);
    assert [] + Lay(gap, 8, one + [Tok([RBRACKET])]) == Lay(gap, 8, one + [Tok([RBRACKET])]);
    assert [] + Lay(gap, 8, one) + close == value;
    LayCons(gap, 8, Tok([COMMA]), ValueTokens(v, false), close);
    PunctFacts(value);
    ReadMessageBeginOf(name, typeId, seqId, g, gap, 0, value, ctx, trace);
    var tr := trace + MessageHeadTrace();
    AfterPunct(v, gap(end - 1), close, inList);
    ValueSpaced(v, [], gap, 8, close, inList, tr);
    assert [] + close == close;
    ListEndOf([], gap(end) + rest, [Toplevel], tr + Trace(v, inList));
  }

  lemma MessageLength(name: seq<Byte>, typeId: I8, seqId: I32)
    ensures |MessageTokens(name, typeId, seqId)| == 8
  {
    hide Quote, FormatInt;
  }

  /** And so what the writer writes comes back. */
  lemma MessageBack(name: seq<Byte>, typeId: I8, seqId: I32, v: Value, rest: seq<Byte>, ctx: seq<Ctx>,
      trace: seq<seq<Ctx>>)
    requires JsonValue(v)
    ensures
      var s := At(MessageHead(name, typeId, seqId) + [COMMA] + Body(v, false) + [RBRACKET] + rest, ctx, trace);
      var h := ReadMessageBegin(s);
      var b := ReadValue(h.s, TypeOf(v));
      && h.r == Done(JMessage(Sanitize(name), typeId, seqId)) && b.r == Done(Clean(v))
      && ParseListEnd(b.s) == Read(Done(()), At(rest, [Toplevel],
           trace + MessageHeadTrace() + Trace(v, [Toplevel, InList]) + [[Toplevel]]))
  {
    hide ReadMessageBegin, ReadValue, ParseListEnd, MessageTokens, MessageHead, ValueTokens, Body, Clean, Sanitize,
      Trace, JsonValue, Lay, Tight, MessageHeadTrace;
    NoGaps();
    MessageLength(name, typeId, seqId);
    WrittenMessage(name, typeId, seqId, 0);
    WrittenAfter(COMMA, v, 8);
    var one := [Tok([COMMA])] + ValueTokens(v, false);
    Between(MessageTokens(name, typeId, seqId), one, [Tok([RBRACKET])], 0);
    WrittenOne(Tok([RBRACKET]), 8 + |one|);
    var head := MessageHead(name, typeId, seqId);
    assert [] + (head + ([COMMA] + Body(v, false)) + [RBRACKET]) + rest
        == head + [COMMA] + Body(v, false) + [RBRACKET] + rest;
    assert [] + rest == rest;
    MessageSpaced(name, typeId, seqId, v, [], NO_GAPS, rest, ctx, trace);
  }
}
