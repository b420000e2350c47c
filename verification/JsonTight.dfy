/** The one place where the JSON reader admits no white space: inside a struct without fields. */
module JsonTight {
  import opened Words
  import opened Values
  import opened JsonText
  import opened JsonWire
  import opened JsonTrees
  import opened JsonSpacing
  import opened JsonTokens
  import opened JsonRoundTrip

  // ---------------------------------------------------------------- the struct itself

  /** The reader looks for the closing brace before it skips white space, and then takes the brace
      for a number. */
  lemma EmptyStructFails(g: seq<Byte>, rest: seq<Byte>, ctx: seq<Ctx>, trace: seq<seq<Ctx>>)
    requires Rooted(ctx) && White(g) && g != []
    ensures ReadFields(At(g + ([RBRACE] + rest), ctx + [ObjectFirst], trace)).r == Failed(InvalidData)
  {
    hide ParseI64;
    var s := At(g + ([RBRACE] + rest), ctx + [ObjectFirst], trace);
    assert s.text[0] == g[0];
    BraceIsNoNumber(g, rest, ctx, trace);
  }

  lemma BraceIsNoNumber(g: seq<Byte>, rest: seq<Byte>, ctx: seq<Ctx>, trace: seq<seq<Ctx>>)
    requires Rooted(ctx) && White(g)
    ensures ParseI64(At(g + ([RBRACE] + rest), ctx + [ObjectFirst], trace)).r == Failed(InvalidData)
  {
    hide ParsePreValue, Lead;
    var t := [RBRACE] + rest;
    ListSeparators(ctx);
    NoLead(g, ctx + [ObjectFirst], t);
    NoWhite();
    PreOf(g, [], t, ctx + [ObjectFirst], trace);
    assert SkipSpace(t) == t && PeekNull(t) == Done(false);
    assert Number(t, NUM_START) == (Failed(InvalidData), t);
  }

  // ---------------------------------------------------------------- every value

  /** Any value whose text has such white space somewhere is refused. */
  lemma {:induction false} ValueLoose(v: Value, g: seq<Byte>, gap: Gaps, at: nat, rest: seq<Byte>, ctx: seq<Ctx>,
      trace: seq<seq<Ctx>>)
    requires Rooted(ctx) && JsonValue(v) && (AtKey(ctx) ==> IsScalar(v)) && White(g) && AllWhite(gap)
    requires !Tight(gap, at, Placed(v, ctx))
    ensures ReadValue(At(g + Lay(gap, at, Placed(v, ctx)) + rest, ctx, trace), TypeOf(v)).r.Failed?
    decreases v, 2
  {
    hide ReadValue, Lay, Tight, White, Placed;
    match v
    case VStruct(fields) => StructLoose(fields, g, gap, at, rest, ctx, trace);
    case VMap(kt, vt, entries) => MapLoose(kt, vt, entries, g, gap, at, rest, ctx, trace);
    case VSet(t, members) => ListLoose(v, t, members, g, gap, at, rest, ctx, trace);
    case VList(t, elems) => ListLoose(v, t, elems, g, gap, at, rest, ctx, trace);
    case _ => ScalarTight(v, gap, at, ctx);
  }

  lemma ScalarTight(v: Value, gap: Gaps, at: nat, ctx: seq<Ctx>)
    requires ctx != [] && IsScalar(v)
    ensures Tight(gap, at, Placed(v, ctx))
  {
    hide Body, Separator;
  }

  lemma {:induction false} StructLoose(fields: seq<Field>, g: seq<Byte>, gap: Gaps, at: nat, rest: seq<Byte>,
      ctx: seq<Ctx>, trace: seq<seq<Ctx>>)
    requires Rooted(ctx) && JsonFields(fields) && White(g) && AllWhite(gap)
    requires !Tight(gap, at, Placed(VStruct(fields), ctx))
    ensures ReadValue(At(g + Lay(gap, at, Placed(VStruct(fields), ctx)) + rest, ctx, trace), STRUCT).r.Failed?
    decreases fields, 1
  {
    hide ParseOpen, ParseObjectEnd, ReadFields, FieldsTokens, Separator, Lay, Lead, SepTokens, Tight, ValueTokens,
      JsonFields, Placed;
    PlacedStruct(fields, ctx);
    var p, h := at + |SepTokens(ctx)|, SepGap(gap, at, ctx);
    SepLaid(g, gap, at, ctx, ValueTokens(VStruct(fields), false), rest);
    StructLaid(fields, gap, p, rest);
    var after := gap(p + 1 + |FieldsTokens(fields, true)|) + rest;
    OpenOf(g, h, LBRACE, ObjectFirst, gap(p) + Lay(gap, p + 1, FieldsTokens(fields, true)) + ([RBRACE] + after), ctx,
      trace);
    if fields == [] { NoTokens(gap, p + 1); }
    FieldsLoose(fields, true, gap(p), gap, p + 1, after, ctx, trace + [ctx + [ObjectFirst]]);
  }

  lemma {:induction false} FieldsLoose(fields: seq<Field>, first: bool, g: seq<Byte>, gap: Gaps, at: nat,
      rest: seq<Byte>, ctx: seq<Ctx>, trace: seq<seq<Ctx>>)
    requires Rooted(ctx) && JsonFields(fields) && White(g) && AllWhite(gap) && (fields == [] ==> first && g != [])
    requires fields == [] || !Tight(gap, at, FieldsTokens(fields, first))
    ensures ReadFields(At(g + Lay(gap, at, FieldsTokens(fields, first)) + ([RBRACE] + rest), ctx + [First(first)],
        trace)).r.Failed?
    decreases fields, 0
  {
    hide ReadField, ReadFields, FieldTokens, JsonField, Lay, Tight, CommaTokens, White, CleanField, FieldTrace;
    if fields == [] {
      NothingLaid(gap, at, []);
      assert g + Lay(gap, at, []) + ([RBRACE] + rest) == g + ([RBRACE] + rest);
      EmptyStructFails(g, rest, ctx, trace);
    } else {
      NoWhite();
      var f, one, later := fields[0], CommaTokens(first) + FieldTokens(fields[0]), FieldsTokens(fields[1..], false);
      var more := Lay(gap, at + |one|, later) + ([RBRACE] + rest);
      FieldsLaid(fields, first, g, gap, at, rest);
      if fields[1..] == [] { NoTokens(gap, at + |one|); }
      hide FieldsTokens;
      ReadFieldsFails(At(g + Lay(gap, at, one) + more, ctx + [First(first)], trace));
      if Tight(gap, at, one) {
        FieldSpaced(f, first, g, gap, at, more, ctx, trace);
        FieldsLoose(fields[1..], false, [], gap, at + |one|, rest, ctx, trace + FieldTrace(f, ctx));
        assert [] + Lay(gap, at + |one|, later) == Lay(gap, at + |one|, later);
      } else {
        FieldLoose(f, first, g, gap, at, more, ctx, trace);
      }
    }
  }

  lemma FieldsLaid(fields: seq<Field>, first: bool, g: seq<Byte>, gap: Gaps, at: nat, rest: seq<Byte>)
    requires fields != []
    ensures
      var one, later := CommaTokens(first) + FieldTokens(fields[0]), FieldsTokens(fields[1..], false);
      var more := Lay(gap, at + |one|, later) + ([RBRACE] + rest);
      && g + Lay(gap, at, FieldsTokens(fields, first)) + ([RBRACE] + rest) == g + Lay(gap, at, one) + more
      && (Tight(gap, at, FieldsTokens(fields, first)) <==> Tight(gap, at, one) && Tight(gap, at + |one|, later))
      && Punct(more)
  {
    hide Lay, FieldTokens, CommaTokens, Tight;
    var one, later := CommaTokens(first) + FieldTokens(fields[0]), FieldsTokens(fields[1..], false);
    LayAround(g, gap, at, one, later, [RBRACE] + rest);
    FieldsPunct(fields[1..], gap, at + |one|, rest);
  }

  lemma ReadFieldsFails(s: JIn)
    requires Rooted(s.ctx)
    ensures var f := ReadField(s);
      (f.r.Failed? || (f.r.value.Some? && ReadFields(f.s).r.Failed?)) ==> ReadFields(s).r.Failed?
  {
    hide ReadField;
  }

  lemma NothingTight(gap: Gaps, at: nat)
    ensures Tight(gap, at, [])
  {}

  lemma {:induction false} FieldLoose(f: Field, first: bool, g: seq<Byte>, gap: Gaps, at: nat, more: seq<Byte>,
      ctx: seq<Ctx>, trace: seq<seq<Ctx>>)
    requires Rooted(ctx) && JsonField(f) && White(g) && AllWhite(gap)
    requires !Tight(gap, at, CommaTokens(first) + FieldTokens(f))
    ensures ReadField(At(g + Lay(gap, at, CommaTokens(first) + FieldTokens(f)) + more, ctx + [First(first)], trace)).r
      .Failed?
    decreases f, 0
  {
    hide ReadFieldBegin, ReadValue, ParseObjectEnd, FieldHeadTokens, FieldTokens, ValueTokens, FieldHeadTrace,
      JsonValue, SkipSpace, Lay, Tight, CommaTokens, White, Placed;
    NoWhite();
    var t := TypeOf(f.value);
    var colon, b := [Tok([COLON])] + ValueTokens(f.value, false), at + |CommaTokens(first)| + 4;
    FieldLaid(f, first, g, gap, at, more);
    var close := [RBRACE] + (gap(b + |colon|) + more);
    var value := Lay(gap, b, colon) + close;
    ReadFieldBeginOf(t, f.id, first, g, gap, at, value, ctx, trace);
    PunctFacts(value);
    var outer, inner := ctx + [NextValue], ctx + [NextValue] + [NextValue];
    AfterSeparator(f.value, outer, NextValue, COLON);
    assert [] + Lay(gap, b, colon) + close == value;
    ValueLoose(f.value, [], gap, b, close, inner, trace + FieldHeadTrace(ctx));
  }

  lemma {:induction false} ListLoose(v: Value, t: Byte, vs: seq<Value>, g: seq<Byte>, gap: Gaps, at: nat,
      rest: seq<Byte>, ctx: seq<Ctx>, trace: seq<seq<Ctx>>)
    requires Rooted(ctx) && IsType(t) && |vs| <= MAX_JSON_SIZE && JsonAll(t, vs) && White(g) && AllWhite(gap)
    requires (v == VList(t, vs) || v == VSet(t, vs)) && !Tight(gap, at, Placed(v, ctx))
    ensures ReadValue(At(g + Lay(gap, at, Placed(v, ctx)) + rest, ctx, trace), TypeOf(v)).r.Failed?
    decreases vs, 1
  {
    hide ReadListBegin, ParseListEnd, ListHeadTokens, AllTokens, ListHeadTrace, SepTokens, Lay, Tight, White, Placed,
      JsonAll, ReadAll;
    ListLaid(v, t, vs, g, gap, at, rest, ctx);
    var b := at + |SepTokens(ctx)| + 4;
    var after := gap(b + |AllTokens(vs)|) + rest;
    var body := Lay(gap, b, AllTokens(vs)) + ([RBRACKET] + after);
    AllPunct(vs, gap, b, after);
    PunctFacts(body);
    ReadListBeginOf(t, |vs|, g, gap, at, body, ctx, trace);
    if vs == [] { NoTokens(gap, b); }
    AllLoose(t, vs, gap, b, after, ctx, trace + ListHeadTrace(ctx));
  }

  lemma NoTokens(gap: Gaps, at: nat)
    ensures Tight(gap, at, AllTokens([])) && Tight(gap, at, EntriesTokens([], true))
    ensures forall first :: Tight(gap, at, FieldsTokens([], first))
  {}

  lemma {:induction false} AllLoose(t: Byte, vs: seq<Value>, gap: Gaps, at: nat, rest: seq<Byte>, ctx: seq<Ctx>,
      trace: seq<seq<Ctx>>)
    requires Rooted(ctx) && JsonAll(t, vs) && AllWhite(gap) && vs != [] && !Tight(gap, at, AllTokens(vs))
    ensures ReadAll(At(Lay(gap, at, AllTokens(vs)) + ([RBRACKET] + rest), ctx + [InList], trace), t, |vs|).r.Failed?
    decreases vs, 0
  {
    hide ReadValue, AllTokens, Trace, Clean, JsonValue, Post, Lay, Tight, White, Placed, After, Ends;
    NoWhite();
    var inList := ctx + [InList];
    PostOf(ctx, InList);
    AfterSeparator(vs[0], ctx, InList, COMMA);
    var one := Placed(vs[0], inList);
    var more := Lay(gap, at + |one|, AllTokens(vs[1..])) + ([RBRACKET] + rest);
    AllLaid(vs, gap, at, rest, ctx);
    if Tight(gap, at, one) {
      AfterPunct(vs[0], gap(at + |one| - 1), more, inList);
      ValueSpaced(vs[0], [], gap, at, more, inList, trace);
      if vs[1..] == [] { NoTokens(gap, at + |one|); }
      AllLoose(t, vs[1..], gap, at + |one|, rest, ctx, trace + Trace(vs[0], inList));
    } else {
      ValueLoose(vs[0], [], gap, at, more, inList, trace);
    }
  }

  lemma {:induction false} MapLoose(kt: Byte, vt: Byte, entries: seq<Entry>, g: seq<Byte>, gap: Gaps, at: nat,
      rest: seq<Byte>, ctx: seq<Ctx>, trace: seq<seq<Ctx>>)
    requires Rooted(ctx) && IsType(kt) && IsType(vt) && |entries| <= MAX_JSON_SIZE
    requires JsonEntries(kt, vt, entries) && White(g) && AllWhite(gap)
    requires !Tight(gap, at, Placed(VMap(kt, vt, entries), ctx))
    ensures ReadValue(At(g + Lay(gap, at, Placed(VMap(kt, vt, entries), ctx)) + rest, ctx, trace), MAP).r.Failed?
    decreases entries, 1
  {
    hide ReadMapBegin, ReadMapEnd, MapHeadTokens, EntriesTokens, MapHeadTrace, SepTokens, Lay, Tight, White, Placed,
      JsonEntries, ReadEntries;
    MapLaid(kt, vt, entries, g, gap, at, rest, ctx);
    var b := at + |SepTokens(ctx)| + 8;
    var end := b + |EntriesTokens(entries, true)|;
    var tail := gap(end) + ([RBRACKET] + (gap(end + 1) + rest));
    var text := Lay(gap, b, EntriesTokens(entries, true)) + ([RBRACE] + tail);
    ReadMapBeginOf(kt, vt, |entries|, g, gap, at, text, ctx, trace);
    assert gap(b - 1) + Lay(gap, b, EntriesTokens(entries, true)) + ([RBRACE] + tail) == gap(b - 1) + text;
    if entries == [] { NoTokens(gap, b); }
    EntriesLoose(kt, vt, entries, true, gap(b - 1), gap, b, tail, ctx + [InList], trace + MapHeadTrace(ctx));
  }

  lemma {:induction false} EntriesLoose(kt: Byte, vt: Byte, entries: seq<Entry>, first: bool, g: seq<Byte>, gap: Gaps,
      at: nat, rest: seq<Byte>, ctx: seq<Ctx>, trace: seq<seq<Ctx>>)
    requires Rooted(ctx) && JsonEntries(kt, vt, entries) && White(g) && AllWhite(gap) && entries != []
    requires !Tight(gap, at, EntriesTokens(entries, first))
    ensures ReadEntries(At(g + Lay(gap, at, EntriesTokens(entries, first)) + ([RBRACE] + rest), ctx + [First(first)],
        trace), kt, vt, |entries|).r.Failed?
    decreases entries, 0
  {
    hide ReadEntry, EntryTokens, EntryTrace, CleanEntry, JsonEntry, Lay, Tight, CommaTokens, AllWhite;
    NoWhite();
    var e, one, later := entries[0], CommaTokens(first) + EntryTokens(entries[0]), EntriesTokens(entries[1..], false);
    var more := Lay(gap, at + |one|, later) + ([RBRACE] + rest);
    LayAround(g, gap, at, one, later, [RBRACE] + rest);
    EntriesPunct(entries[1..], gap, at + |one|, rest);
    if Tight(gap, at, one) {
      EntrySpaced(kt, vt, e, first, g, gap, at, more, ctx, trace);
      if entries[1..] == [] { NothingTight(gap, at + |one|); }
      EntriesLoose(kt, vt, entries[1..], false, [], gap, at + |one|, rest, ctx, trace + EntryTrace(e, ctx));
      assert [] + Lay(gap, at + |one|, later) == Lay(gap, at + |one|, later);
    } else {
      EntryLoose(kt, vt, e, first, g, gap, at, more, ctx, trace);
    }
  }

  lemma {:induction false} EntryLoose(kt: Byte, vt: Byte, e: Entry, first: bool, g: seq<Byte>, gap: Gaps, at: nat,
      more: seq<Byte>, ctx: seq<Ctx>, trace: seq<seq<Ctx>>)
    requires Rooted(ctx) && JsonEntry(kt, vt, e) && White(g) && AllWhite(gap)
    requires !Tight(gap, at, CommaTokens(first) + EntryTokens(e))
    ensures ReadEntry(At(g + Lay(gap, at, CommaTokens(first) + EntryTokens(e)) + more, ctx + [First(first)], trace), kt,
        vt).r.Failed?
    decreases e, 0
  {
    hide ReadValue, ValueTokens, Clean, JsonValue, Lay, Tight, White, CommaTokens, EntryTokens, Placed;
    NoWhite();
    var atValue := ctx + [NextValue];
    EntryLaid(e, first, g, gap, at, more);
    var key, colon := CommaTokens(first) + ValueTokens(e.key, true), [Tok([COLON])] + ValueTokens(e.value, false);
    var b := at + |key|;
    var value := Lay(gap, b, colon) + more;
    SepOfFirst(first, ctx);
    ScalarTight(e.key, gap, at, ctx + [First(first)]);
    KeyPlaced(e, first, ctx);
    KeySpaced(e, first, g, gap, at, value, ctx, trace);
    AfterSeparator(e.value, ctx, NextValue, COLON);
    assert [] + Lay(gap, b, colon) + more == value;
    ValueLoose(e.value, [], gap, b, more, atValue, trace + [atValue]);
  }

  lemma KeyPlaced(e: Entry, first: bool, ctx: seq<Ctx>)
    ensures Placed(e.key, ctx + [First(first)]) == CommaTokens(first) + ValueTokens(e.key, true)
  {
    hide ValueTokens;
    SepOfFirst(first, ctx);
  }

  // ---------------------------------------------------------------- exactly

  /** White space may stand anywhere between the tokens of a value but inside the braces of a struct
      without fields: the text is read, as the value, if and only if there is none there. */
  lemma SpacedReadsIff(v: Value, g: seq<Byte>, gap: Gaps, at: nat, rest: seq<Byte>, ctx: seq<Ctx>,
      trace: seq<seq<Ctx>>)
    requires Rooted(ctx) && JsonValue(v) && (AtKey(ctx) ==> IsScalar(v)) && White(g) && AllWhite(gap)
    requires Ends(v, gap(at + |Placed(v, ctx)| - 1) + rest)
    ensures ReadValue(At(g + Lay(gap, at, Placed(v, ctx)) + rest, ctx, trace), TypeOf(v)).r.Done?
      <==> Tight(gap, at, Placed(v, ctx))
    ensures Tight(gap, at, Placed(v, ctx)) ==> ReadsBack(v, g, gap, at, rest, ctx, trace)
  {
    hide ReadValue, Lay, Tight, White, Placed, JsonValue, Ends;
    if Tight(gap, at, Placed(v, ctx)) {
      ValueSpaced(v, g, gap, at, rest, ctx, trace);
    } else {
      ValueLoose(v, g, gap, at, rest, ctx, trace);
    }
  }
}
