/** What generated code does with the JSON protocol: write a whole value, read one back. */
module JsonGenerated {
  import opened Options
  import opened Words
  import opened Values
  import opened JsonText
  import opened JsonWire
  import opened JsonTrees
  import opened JsonProtocol
  import opened JsonTokens
  import opened JsonRoundTrip

  // ---------------------------------------------------------------- writing

  method WriteValue(prot: TJSONProtocol, v: Value)
    requires prot.Valid() && JsonValue(v) && (AtKey(prot.dumpContext) ==> IsScalar(v))
    modifies prot`written, prot`dumpContext, prot`dumped
    ensures prot.Valid() && prot.Out() == OutValue(old(prot.Out()), v)
    decreases v, 2
  {
    hide AllBody, EntriesBody, FieldsBody, AllTrace, EntriesTrace, FieldsTrace, ListHead, MapHead, ListHeadTrace,
        MapHeadTrace;
    hide Separator, Post, FormatInt, Quote;
    match v
    case VStruct(fields) => WriteStruct(prot, fields);
    case VMap(kt, vt, entries) => WriteMap(prot, kt, vt, entries);
    case VSet(t, members) => WriteAll(prot, t, members);
    case VList(t, elems) => WriteAll(prot, t, elems);
    case VBool(b) => prot.WriteBool(b);
    case VByte(n) => prot.OutputI64(n);
    case VI16(n) => prot.OutputI64(n);
    case VI32(n) => prot.OutputI64(n);
    case VI64(n) => prot.OutputI64(n);
    case VString(b) => prot.OutputString(b);
  }

  method WriteAll(prot: TJSONProtocol, t: Byte, vs: seq<Value>)
    requires prot.Valid() && IsType(t) && |vs| <= MAX_JSON_SIZE && JsonAll(t, vs)
    modifies prot`written, prot`dumpContext, prot`dumped
    ensures prot.Valid()
    ensures var w := old(prot.Out());
      prot.Out() == JOut(w.text + Separator(Top(w.ctx)) + (ListHead(t, |vs|) + AllBody(vs) + [RBRACKET]), Post(w.ctx),
                         w.trace + (ListHeadTrace(w.ctx) + AllTrace(vs, w.ctx) + [Post(w.ctx)]))
    decreases vs, 1
  {
    hide AllBody, AllTrace, ListHead, ListHeadTrace, Separator, Post;
    ghost var w := prot.Out();
    var r := prot.OutputElemListBegin(t, |vs|);
    ghost var w1 := prot.Out();
    assert vs[0..] == vs;
    for i := 0 to |vs|
      invariant prot.Valid() && prot.dumpContext == w.ctx + [InList]
      invariant JsonAll(t, vs[i..])
      invariant prot.written + AllBody(vs[i..]) == w1.text + AllBody(vs)
      invariant prot.dumped + AllTrace(vs[i..], w.ctx) == w1.trace + AllTrace(vs, w.ctx)
    {
      AllTurn(prot.Out(), t, vs[i..], w.ctx);
      WriteValue(prot, vs[i]);
      assert vs[i..][1..] == vs[i + 1..];
    }
    NothingLeft(w.ctx);
    PostOf(w.ctx, InList);
    prot.OutputListEnd();
    Reassociate(w.text + Separator(Top(w.ctx)), ListHead(t, |vs|), AllBody(vs), [RBRACKET]);
    Reassociate(w.trace, ListHeadTrace(w.ctx), AllTrace(vs, w.ctx), [Post(w.ctx)]);
  }

  lemma NothingLeft(ctx: seq<Ctx>)
    ensures AllBody([]) == [] && AllTrace([], ctx) == []
    ensures EntriesBody([], true) == EntriesBody([], false) == [] && EntriesTrace([], ctx) == []
    ensures FieldsBody([], true) == FieldsBody([], false) == [] && FieldsTrace([], ctx) == []
  {
  }

  lemma AllTurn(w: JOut, t: Byte, vs: seq<Value>, ctx: seq<Ctx>)
    requires w.ctx == ctx + [InList] && Rooted(ctx) && vs != [] && JsonAll(t, vs)
    ensures JsonValue(vs[0]) && JsonAll(t, vs[1..])
    ensures !AtKey(w.ctx) && OutValue(w, vs[0]).ctx == w.ctx
    ensures OutValue(w, vs[0]).text + AllBody(vs[1..]) == w.text + AllBody(vs)
    ensures OutValue(w, vs[0]).trace + AllTrace(vs[1..], ctx) == w.trace + AllTrace(vs, ctx)
  {
    hide Body, Trace, JsonValue;
    PostOf(ctx, InList);
  }

  method WriteMap(prot: TJSONProtocol, kt: Byte, vt: Byte, entries: seq<Entry>)
    requires prot.Valid() && IsType(kt) && IsType(vt) && |entries| <= MAX_JSON_SIZE && JsonEntries(kt, vt, entries)
    modifies prot`written, prot`dumpContext, prot`dumped
    ensures prot.Valid()
    ensures var w := old(prot.Out()); var inList := w.ctx + [InList];
      prot.Out() == JOut(
        w.text + Separator(Top(w.ctx)) + (MapHead(kt, vt, |entries|) + EntriesBody(entries, true) + [RBRACE]
            + [RBRACKET]),
        Post(w.ctx),
        w.trace + (MapHeadTrace(w.ctx) + EntriesTrace(entries, inList) + [inList] + [Post(w.ctx)]))
    decreases entries, 2
  {
    hide EntriesBody, EntriesTrace, MapHead, MapHeadTrace, Separator, Post, JsonEntries;
    ghost var w := prot.Out();
    ghost var inList := w.ctx + [InList];
    var _ := prot.WriteMapBegin(kt, vt, |entries|);
    WriteEntries(prot, kt, vt, entries, inList);
    PostOf(inList, Last(true, entries == []));
    PostOf(w.ctx, InList);
    prot.WriteMapEnd();
    Regroup(w.text + Separator(Top(w.ctx)), MapHead(kt, vt, |entries|), EntriesBody(entries, true), [RBRACE],
        [RBRACKET]);
    Regroup(w.trace, MapHeadTrace(w.ctx), EntriesTrace(entries, inList), [inList], [Post(w.ctx)]);
  }

  /** The entries of a map that has just begun. */
  method WriteEntries(prot: TJSONProtocol, kt: Byte, vt: Byte, entries: seq<Entry>, ghost ctx: seq<Ctx>)
    requires prot.Valid() && prot.dumpContext == ctx + [ObjectFirst] && Rooted(ctx) && JsonEntries(kt, vt, entries)
    modifies prot`written, prot`dumpContext, prot`dumped
    ensures prot.Valid()
    ensures var w := old(prot.Out());
      prot.Out() == JOut(w.text + EntriesBody(entries, true), ctx + [Last(true, entries == [])], w.trace
          + EntriesTrace(entries, ctx))
    decreases entries, 1
  {
    hide EntriesBody, EntriesTrace, JsonEntry;
    ghost var w := prot.Out();
    assert entries[0..] == entries;
    for i := 0 to |entries|
      invariant prot.Valid() && prot.dumpContext == ctx + [First(i == 0)]
      invariant JsonEntries(kt, vt, entries[i..])
      invariant prot.written + EntriesBody(entries[i..], i == 0) == w.text + EntriesBody(entries, true)
      invariant prot.dumped + EntriesTrace(entries[i..], ctx) == w.trace + EntriesTrace(entries, ctx)
    {
      EntriesTurn(prot.Out(), kt, vt, entries[i..], i == 0, ctx);
      WriteEntry(prot, kt, vt, entries[i], i == 0, ctx);
      assert entries[i..][1..] == entries[i + 1..];
    }
    NothingLeft(ctx);
  }

  lemma Regroup<T>(a: seq<T>, b: seq<T>, c: seq<T>, d: seq<T>, e: seq<T>)
    ensures a + b + c + d + e == a + (b + c + d + e)
  {
  }

  lemma EntriesTurn(w: JOut, kt: Byte, vt: Byte, entries: seq<Entry>, first: bool, ctx: seq<Ctx>)
    requires entries != [] && JsonEntries(kt, vt, entries)
    ensures JsonEntry(kt, vt, entries[0])
    ensures JsonEntries(kt, vt, entries[1..])
    ensures w.text + Comma(first) + EntryBody(entries[0]) + EntriesBody(entries[1..], false) == w.text
        + EntriesBody(entries, first)
    ensures w.trace + EntryTrace(entries[0], ctx) + EntriesTrace(entries[1..], ctx) == w.trace
        + EntriesTrace(entries, ctx)
  {
    hide EntryBody, EntryTrace, JsonEntry;
  }

  method WriteEntry(prot: TJSONProtocol, kt: Byte, vt: Byte, e: Entry, ghost first: bool, ghost ctx: seq<Ctx>)
    requires prot.Valid() && prot.dumpContext == ctx + [First(first)] && Rooted(ctx)
    requires JsonEntry(kt, vt, e)
    modifies prot`written, prot`dumpContext, prot`dumped
    ensures prot.Valid()
    ensures var w := old(prot.Out());
      prot.Out() == JOut(w.text + Comma(first) + EntryBody(e), ctx + [NextKey], w.trace + EntryTrace(e, ctx))
    decreases e, 0
  {
    hide Body, Trace, Post, JsonValue;
    ghost var w := prot.Out();
    PostOf(ctx, First(first));
    PostOf(ctx, NextValue);
    ScalarFacts(e.key, w.ctx);
    WriteValue(prot, e.key);
    WriteValue(prot, e.value);
    assert prot.written == w.text + Comma(first) + EntryBody(e);
    assert prot.dumped == w.trace + EntryTrace(e, ctx);
  }

  lemma ScalarFacts(v: Value, ctx: seq<Ctx>)
    requires IsScalar(v) && ctx != []
    ensures Trace(v, ctx) == [Post(ctx)]
  {
  }

  method WriteStruct(prot: TJSONProtocol, fields: seq<Field>)
    requires prot.Valid() && JsonFields(fields)
    modifies prot`written, prot`dumpContext, prot`dumped
    ensures prot.Valid()
    ensures var w := old(prot.Out());
      prot.Out() == JOut(w.text + Separator(Top(w.ctx)) + ([LBRACE] + FieldsBody(fields, true) + [RBRACE]), Post(w.ctx),
                         w.trace + ([w.ctx + [ObjectFirst]] + FieldsTrace(fields, w.ctx) + [Post(w.ctx)]))
    decreases fields, 2
  {
    hide FieldsBody, FieldsTrace, Separator, Post, JsonFields;
    ghost var w := prot.Out();
    PostOf(w.ctx, ObjectFirst);
    prot.OutputObjectBegin();
    WriteFields(prot, fields, w.ctx);
    PostOf(w.ctx, Last(true, fields == []));
    prot.OutputObjectEnd();
    Reassociate(w.text + Separator(Top(w.ctx)), [LBRACE], FieldsBody(fields, true), [RBRACE]);
    Reassociate(w.trace, [w.ctx + [ObjectFirst]], FieldsTrace(fields, w.ctx), [Post(w.ctx)]);
  }

  /** The fields of a struct that has just begun. */
  method WriteFields(prot: TJSONProtocol, fields: seq<Field>, ghost ctx: seq<Ctx>)
    requires prot.Valid() && prot.dumpContext == ctx + [ObjectFirst] && Rooted(ctx) && JsonFields(fields)
    modifies prot`written, prot`dumpContext, prot`dumped
    ensures prot.Valid()
    ensures var w := old(prot.Out());
      prot.Out() == JOut(w.text + FieldsBody(fields, true), ctx + [Last(true, fields == [])], w.trace
          + FieldsTrace(fields, ctx))
    decreases fields, 1
  {
    hide FieldsBody, FieldsTrace, FieldBody, FieldTrace, JsonField, JsonFields, Comma;
    ghost var w := prot.Out();
    assert fields[0..] == fields;
    for i := 0 to |fields|
      invariant prot.Valid() && prot.dumpContext == ctx + [First(i == 0)]
      invariant JsonFields(fields[i..])
      invariant prot.written + FieldsBody(fields[i..], i == 0) == w.text + FieldsBody(fields, true)
      invariant prot.dumped + FieldsTrace(fields[i..], ctx) == w.trace + FieldsTrace(fields, ctx)
    {
      FieldsTurn(prot.Out(), fields[i..], i == 0, ctx);
      WriteField(prot, fields[i], i == 0, ctx);
      assert fields[i..][1..] == fields[i + 1..];
    }
    NothingLeft(ctx);
  }

  lemma FieldsTurn(w: JOut, fields: seq<Field>, first: bool, ctx: seq<Ctx>)
    requires fields != [] && JsonFields(fields)
    ensures JsonField(fields[0]) && JsonFields(fields[1..])
    ensures w.text + Comma(first) + FieldBody(fields[0]) + FieldsBody(fields[1..], false) == w.text
        + FieldsBody(fields, first)
    ensures w.trace + FieldTrace(fields[0], ctx) + FieldsTrace(fields[1..], ctx) == w.trace + FieldsTrace(fields, ctx)
  {
    hide FieldBody, FieldTrace, JsonField;
  }

  method WriteField(prot: TJSONProtocol, f: Field, ghost first: bool, ghost ctx: seq<Ctx>)
    requires prot.Valid() && prot.dumpContext == ctx + [First(first)] && Rooted(ctx)
    requires JsonField(f)
    modifies prot`written, prot`dumpContext, prot`dumped
    ensures prot.Valid()
    ensures var w := old(prot.Out());
      prot.Out() == JOut(w.text + Comma(first) + FieldBody(f), ctx + [NextKey], w.trace + FieldTrace(f, ctx))
    decreases f, 0
  {
    hide Body, Trace, Post, JsonValue, FieldHead, FieldHeadTrace, OutField;
    ghost var w := prot.Out();
    ghost var inner := ctx + [NextValue] + [NextValue];
    FieldHeadOut(w, TypeOf(f.value), f.id, first, ctx);
    var r := prot.WriteFieldBegin(TypeOf(f.value), f.id);
    PostOf(ctx + [NextValue], NextValue);
    PostOf(ctx + [NextValue], NextKey);
    PostOf(ctx, NextValue);
    WriteValue(prot, f.value);
    prot.OutputObjectEnd();
    assert prot.written == w.text + Comma(first) + FieldBody(f);
    assert prot.dumped == w.trace + FieldTrace(f, ctx);
  }

  lemma FieldHeadOut(w: JOut, t: Byte, id: I16, first: bool, ctx: seq<Ctx>)
    requires w.ctx == ctx + [First(first)] && Rooted(ctx) && IsType(t)
    ensures OutField(w, t, id)
         == JOut(w.text + Comma(first) + FieldHead(t, id), ctx + [NextValue] + [NextValue], w.trace
             + FieldHeadTrace(ctx))
  {
    hide FormatInt, Quote, TypeIdToString, Post;
    TypeNames(t, []);
    PostOf(ctx, First(first));
    var outer := ctx + [NextValue];
    PostOf(outer, ObjectFirst);
    PostOf(ctx, NextValue);
    var o := OutScalar(w, Quote(FormatInt(id)));
    assert o == JOut(w.text + Comma(first) + Quote(FormatInt(id)), outer, w.trace + [outer]);
    var u := OutOpen(o, LBRACE, ObjectFirst);
    assert u == JOut(o.text + [COLON] + [LBRACE], outer + [ObjectFirst], o.trace + [outer + [ObjectFirst]]);
    assert OutField(w, t, id) == JOut(u.text + [] + Name(t), outer + [NextValue], u.trace + [outer + [NextValue]]);
  }

  // ---------------------------------------------------------------- reading

  method ReadValue(prot: TJSONProtocol, t: Byte) returns (r: Outcome<Value>)
    requires prot.Valid()
    modifies prot`toRead, prot`parseContextStack, prot`parsed
    ensures prot.Valid() && Read(r, prot.In()) == JsonTrees.ReadValue(old(prot.In()), t)
    decreases |prot.toRead|, 1, 0
  {
    hide JsonTrees.ReadFields, JsonTrees.ReadAll, JsonTrees.ReadEntries, JsonTrees.ReadScalar;
    hide JsonWire.ReadMapBegin, JsonWire.ReadListBegin, JsonWire.ReadMapEnd, JsonWire.ParseListEnd,
        JsonWire.ParseObjectEnd, JsonWire.ParseOpen;
    if t == STRUCT {
      var o := prot.ParseOpen(LBRACE, ObjectFirst);
      if o.Failed? { return Failed(o.error); }
      var fs := ReadFields(prot);
      if fs.Failed? { return Failed(fs.error); }
      var e := prot.ParseObjectEnd();
      r := if e.Failed? then Failed(e.error) else Done(VStruct(fs.value));
    } else if t == MAP {
      var h := prot.ReadMapBegin();
      if h.Failed? { return Failed(h.error); }
      var es := Done([]);
      if h.value.size > 0 { es := ReadEntries(prot, h.value.keyType, h.value.valueType, h.value.size); }
      if es.Failed? { return Failed(es.error); }
      var e := prot.ReadMapEnd();
      r := if e.Failed? then Failed(e.error) else Done(VMap(h.value.keyType, h.value.valueType, es.value));
    } else if t == SET || t == LIST {
      var h := prot.ParseElemListBegin();
      if h.Failed? { return Failed(h.error); }
      var vs := Done([]);
      if h.value.size > 0 { vs := ReadAll(prot, h.value.elemType, h.value.size); }
      if vs.Failed? { return Failed(vs.error); }
      var e := prot.ParseListEnd();
      r := if e.Failed? then Failed(e.error)
           else Done(if t == SET then VSet(h.value.elemType, vs.value) else VList(h.value.elemType, vs.value));
    } else {
      r := ReadScalar(prot, t);
    }
  }

  method ReadScalar(prot: TJSONProtocol, t: Byte) returns (r: Outcome<Value>)
    requires prot.Valid()
    modifies prot`toRead, prot`parseContextStack, prot`parsed
    ensures prot.Valid() && Read(r, prot.In()) == JsonTrees.ReadScalar(old(prot.In()), t)
  {
    hide JsonWire.ReadString, JsonWire.ParseI64, Integer;
    if t == STRING {
      var b := prot.ReadString();
      r := if b.Failed? then Failed(b.error) else Done(VString(b.value));
    } else if t in {BOOL, BYTE, I16T, I32T, I64T} {
      var n := prot.ParseI64();
      r := if n.Failed? then Failed(n.error) else Done(Integer(t, n.value));
    } else {
      r := Failed(InvalidData);
    }
  }

  /** What a reading loop has gathered, in front of what the rest of the reading gives. */
  function Prepend<T>(done: seq<T>, x: Read<seq<T>>): Read<seq<T>> {
    if x.r.Failed? then x else Read(Done(done + x.r.value), x.s)
  }

  lemma PrependNone<T>(done: seq<T>, x: Read<seq<T>>)
    ensures Prepend([], x) == x
    ensures Prepend(done, Read(Done([]), x.s)) == Read(Done(done), x.s)
  {
    assert done + [] == done;
    if x.r.Done? { assert [] + x.r.value == x.r.value; }
  }

  lemma PrependOne<T>(done: seq<T>, one: T, x: Read<seq<T>>)
    ensures Prepend(done + [one], x) == Prepend(done, Prepend([one], x))
  {
    if x.r.Done? { assert done + [one] + x.r.value == done + ([one] + x.r.value); }
  }

  method ReadFields(prot: TJSONProtocol) returns (r: Outcome<seq<Field>>)
    requires prot.Valid()
    modifies prot`toRead, prot`parseContextStack, prot`parsed
    ensures prot.Valid() && Read(r, prot.In()) == JsonTrees.ReadFields(old(prot.In()))
    decreases |prot.toRead|, 0, 1
  {
    hide JsonTrees.ReadField;
    ghost var s0 := prot.In();
    var fields: seq<Field> := [];
    PrependNone(fields, JsonTrees.ReadFields(s0));
    while true
      invariant prot.Valid() && |prot.toRead| <= |s0.text|
      invariant JsonTrees.ReadFields(s0) == Prepend(fields, JsonTrees.ReadFields(prot.In()))
      decreases |prot.toRead|
    {
      var f := ReadField(prot);
      if f.Failed? { return Failed(f.error); }
      if f.value.None? { break; }
      PrependOne(fields, f.value.value, JsonTrees.ReadFields(prot.In()));
      fields := fields + [f.value.value];
    }
    PrependNone(fields, Read(Done([]), prot.In()));
    r := Done(fields);
  }

  method ReadField(prot: TJSONProtocol) returns (r: Outcome<Option<Field>>)
    requires prot.Valid()
    modifies prot`toRead, prot`parseContextStack, prot`parsed
    ensures prot.Valid() && Read(r, prot.In()) == JsonTrees.ReadField(old(prot.In()))
    decreases |prot.toRead|, 0, 0
  {
    hide JsonWire.ReadFieldBegin, JsonTrees.ReadValue, JsonWire.ParseObjectEnd;
    var b := prot.ReadFieldBegin();
    if b.Failed? { return Failed(b.error); }
    if b.value.typeId == STOP { return Done(None); }
    var v := ReadValue(prot, b.value.typeId);
    if v.Failed? { return Failed(v.error); }
    var e := prot.ParseObjectEnd();
    r := if e.Failed? then Failed(e.error) else Done(Some(Field(b.value.id, v.value)));
  }

  method ReadAll(prot: TJSONProtocol, t: Byte, n: nat) returns (r: Outcome<seq<Value>>)
    requires prot.Valid()
    modifies prot`toRead, prot`parseContextStack, prot`parsed
    ensures prot.Valid() && Read(r, prot.In()) == JsonTrees.ReadAll(old(prot.In()), t, n)
    decreases |prot.toRead|, 2, 0
  {
    hide JsonTrees.ReadValue;
    ghost var s0 := prot.In();
    var vs: seq<Value> := [];
    PrependNone(vs, JsonTrees.ReadAll(s0, t, n));
    for i := 0 to n
      invariant prot.Valid() && |prot.toRead| <= |s0.text|
      invariant JsonTrees.ReadAll(s0, t, n) == Prepend(vs, JsonTrees.ReadAll(prot.In(), t, n - i))
    {
      var v := ReadValue(prot, t);
      if v.Failed? { return Failed(v.error); }
      PrependOne(vs, v.value, JsonTrees.ReadAll(prot.In(), t, n - i - 1));
      vs := vs + [v.value];
    }
    PrependNone(vs, Read(Done([]), prot.In()));
    r := Done(vs);
  }

  method ReadEntries(prot: TJSONProtocol, kt: Byte, vt: Byte, n: nat) returns (r: Outcome<seq<Entry>>)
    requires prot.Valid()
    modifies prot`toRead, prot`parseContextStack, prot`parsed
    ensures prot.Valid() && Read(r, prot.In()) == JsonTrees.ReadEntries(old(prot.In()), kt, vt, n)
    decreases |prot.toRead|, 2, 0
  {
    hide JsonTrees.ReadValue;
    ghost var s0 := prot.In();
    var es: seq<Entry> := [];
    PrependNone(es, JsonTrees.ReadEntries(s0, kt, vt, n));
    for i := 0 to n
      invariant prot.Valid() && |prot.toRead| <= |s0.text|
      invariant JsonTrees.ReadEntries(s0, kt, vt, n) == Prepend(es, JsonTrees.ReadEntries(prot.In(), kt, vt, n - i))
    {
      var k := ReadValue(prot, kt);
      if k.Failed? { return Failed(k.error); }
      var v := ReadValue(prot, vt);
      if v.Failed? { return Failed(v.error); }
      PrependOne(es, Entry(k.value, v.value), JsonTrees.ReadEntries(prot.In(), kt, vt, n - i - 1));
      es := es + [Entry(k.value, v.value)];
    }
    PrependNone(es, Read(Done([]), prot.In()));
    r := Done(es);
  }

  // ---------------------------------------------------------------- there and back

  /** One protocol object writes a value, another reads it from that text with any text after it
      that a number would not run into: the value comes back, and the reader's context stack went
      through the same states as the writer's. */
  method WriteThenRead(v: Value, rest: seq<Byte>)
    returns (text: seq<Byte>, r: Outcome<Value>, unread: seq<Byte>, ghost dumped: seq<seq<Ctx>>,
        ghost parsed: seq<seq<Ctx>>)
    requires JsonValue(v) && Ends(v, rest)
    ensures text == Body(v, false)
    ensures r == Done(Clean(v)) && unread == After(v, rest, [Toplevel])
    ensures dumped == parsed == Trace(v, [Toplevel, Toplevel])
  {
    hide Body, Clean, Trace, JsonTrees.ReadValue, JsonValue, Post;
    var w := new TJSONProtocol([]);
    assert !AtKey(w.dumpContext);
    WriteValue(w, v);
    text, dumped := w.written, w.dumped;
    assert text == Body(v, false) && dumped == Trace(v, [Toplevel, Toplevel]);
    var p := new TJSONProtocol(text + rest);
    ghost var ctx := [Toplevel, Toplevel];
    assert text + rest == Separator(Top(ctx)) + Body(v, AtKey(ctx)) + rest;
    ValueBack(v, rest, ctx, []);
    r := ReadValue(p, TypeOf(v));
    unread, parsed := p.toRead, p.parsed;
    assert parsed == Trace(v, ctx);
  }
}
