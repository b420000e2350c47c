/** Whole values in JSON: their text, the context stacks along it, and their readers. */
module JsonTrees {
  import opened Options
  import opened Words
  import opened Values
  import opened Utf8
  import opened JsonText
  import opened JsonWire

  // ---------------------------------------------------------------- the text of a value

  const MAX_JSON_SIZE := 0x7fff_ffff_ffff_ffff

  /** A well-typed value with no doubles and scalar map keys; a size is written as an int64. */
  predicate JsonValue(v: Value)
    decreases v, 1
  {
    match v
    case VDouble(_) => false
    case VStruct(fields) => JsonFields(fields)
    case VMap(kt, vt, entries) => IsType(kt) && IsType(vt) && |entries| <= MAX_JSON_SIZE && JsonEntries(kt, vt, entries)
    case VSet(t, members) => IsType(t) && |members| <= MAX_JSON_SIZE && JsonAll(t, members)
    case VList(t, elems) => IsType(t) && |elems| <= MAX_JSON_SIZE && JsonAll(t, elems)
    case _ => true
  }

  predicate JsonFields(fields: seq<Field>)
    decreases fields, 0
  {
    fields == [] || (JsonField(fields[0]) && JsonFields(fields[1..]))
  }

  predicate JsonField(f: Field)
    decreases f, 0
  {
    JsonValue(f.value)
  }

  predicate JsonAll(t: Byte, vs: seq<Value>)
    decreases vs, 0
  {
    vs == [] || (TypeOf(vs[0]) == t && JsonValue(vs[0]) && JsonAll(t, vs[1..]))
  }

  predicate JsonEntries(kt: Byte, vt: Byte, entries: seq<Entry>)
    decreases entries, 0
  {
    entries == [] || (JsonEntry(kt, vt, entries[0]) && JsonEntries(kt, vt, entries[1..]))
  }

  predicate JsonEntry(kt: Byte, vt: Byte, e: Entry)
    decreases e, 0
  {
    IsScalar(e.key) && TypeOf(e.key) == kt && JsonValue(e.key) && TypeOf(e.value) == vt && JsonValue(e.value)
  }

  function NumberBody(n: int, key: bool): seq<Byte> { if key then Quote(FormatInt(n)) else FormatInt(n) }

  function Name(t: Byte): seq<Byte> {
    if TypeIdToString(t).Some? then Quote(TypeIdToString(t).value) else []
  }

  function Body(v: Value, key: bool): seq<Byte>
    decreases v, 1
  {
    match v
    case VBool(b) => NumberBody(if b then 1 else 0, key)
    case VByte(n) => NumberBody(n, key)
    case VI16(n) => NumberBody(n, key)
    case VI32(n) => NumberBody(n, key)
    case VI64(n) => NumberBody(n, key)
    case VDouble(_) => []
    case VString(bytes) => Quote(bytes)
    case VStruct(fields) => [LBRACE] + FieldsBody(fields, true) + [RBRACE]
    case VMap(kt, vt, entries) =>
      MapHead(kt, vt, |entries|) + EntriesBody(entries, true) + [RBRACE] + [RBRACKET]
    case VSet(t, members) => ListHead(t, |members|) + AllBody(members) + [RBRACKET]
    case VList(t, elems) => ListHead(t, |elems|) + AllBody(elems) + [RBRACKET]
  }

  function ListHead(t: Byte, n: int): seq<Byte> { [LBRACKET] + Name(t) + [COMMA] + FormatInt(n) }

  function MapHead(kt: Byte, vt: Byte, n: int): seq<Byte> {
    [LBRACKET] + Name(kt) + [COMMA] + Name(vt) + [COMMA] + FormatInt(n) + [COMMA] + [LBRACE]
  }

  function FieldHead(t: Byte, id: int): seq<Byte> { Quote(FormatInt(id)) + [COLON] + [LBRACE] + Name(t) }

  function Comma(first: bool): seq<Byte> { if first then [] else [COMMA] }

  function FieldsBody(fields: seq<Field>, first: bool): seq<Byte>
    decreases fields, 0
  {
    if fields == [] then [] else Comma(first) + FieldBody(fields[0]) + FieldsBody(fields[1..], false)
  }

  function FieldBody(f: Field): seq<Byte>
    decreases f, 0
  {
    FieldHead(TypeOf(f.value), f.id) + [COLON] + Body(f.value, false) + [RBRACE]
  }

  function AllBody(vs: seq<Value>): seq<Byte>
    decreases vs, 0
  {
    if vs == [] then [] else [COMMA] + Body(vs[0], false) + AllBody(vs[1..])
  }

  function EntriesBody(entries: seq<Entry>, first: bool): seq<Byte>
    decreases entries, 0
  {
    if entries == [] then [] else Comma(first) + EntryBody(entries[0]) + EntriesBody(entries[1..], false)
  }

  function EntryBody(e: Entry): seq<Byte>
    decreases e, 0
  {
    Body(e.key, true) + [COLON] + Body(e.value, false)
  }

  // ---------------------------------------------------------------- the stacks along the text

  function Trace(v: Value, ctx: seq<Ctx>): seq<seq<Ctx>>
    requires ctx != []
    decreases v, 1
  {
    match v
    case VStruct(fields) => [ctx + [ObjectFirst]] + FieldsTrace(fields, ctx) + [Post(ctx)]
    case VMap(_, _, entries) =>
      MapHeadTrace(ctx) + EntriesTrace(entries, ctx + [InList]) + [ctx + [InList]] + [Post(ctx)]
    case VSet(_, members) => ListHeadTrace(ctx) + AllTrace(members, ctx) + [Post(ctx)]
    case VList(_, elems) => ListHeadTrace(ctx) + AllTrace(elems, ctx) + [Post(ctx)]
    case _ => [Post(ctx)]
  }

  function ListHeadTrace(ctx: seq<Ctx>): seq<seq<Ctx>> { [ctx + [ListFirst], ctx + [InList], ctx + [InList]] }

  function MapHeadTrace(ctx: seq<Ctx>): seq<seq<Ctx>> {
    [ctx + [ListFirst], ctx + [InList], ctx + [InList], ctx + [InList], ctx + [InList] + [ObjectFirst]]
  }

  function FieldHeadTrace(ctx: seq<Ctx>): seq<seq<Ctx>> {
    [ctx + [NextValue], ctx + [NextValue] + [ObjectFirst], ctx + [NextValue] + [NextValue]]
  }

  function FieldsTrace(fields: seq<Field>, ctx: seq<Ctx>): seq<seq<Ctx>>
    decreases fields, 0
  {
    if fields == [] then [] else FieldTrace(fields[0], ctx) + FieldsTrace(fields[1..], ctx)
  }

  function FieldTrace(f: Field, ctx: seq<Ctx>): seq<seq<Ctx>>
    decreases f, 0
  {
    FieldHeadTrace(ctx) + Trace(f.value, ctx + [NextValue] + [NextValue]) + [ctx + [NextKey]]
  }

  function AllTrace(vs: seq<Value>, ctx: seq<Ctx>): seq<seq<Ctx>>
    decreases vs, 0
  {
    if vs == [] then [] else Trace(vs[0], ctx + [InList]) + AllTrace(vs[1..], ctx)
  }

  function EntriesTrace(entries: seq<Entry>, ctx: seq<Ctx>): seq<seq<Ctx>>
    decreases entries, 0
  {
    if entries == [] then [] else EntryTrace(entries[0], ctx) + EntriesTrace(entries[1..], ctx)
  }

  function EntryTrace(e: Entry, ctx: seq<Ctx>): seq<seq<Ctx>>
    decreases e, 0
  {
    [ctx + [NextValue]] + Trace(e.value, ctx + [NextValue])
  }

  /** A writer after a value. */
  function OutValue(w: JOut, v: Value): JOut
    requires w.ctx != []
  {
    JOut(w.text + Separator(Top(w.ctx)) + Body(v, AtKey(w.ctx)), Post(w.ctx), w.trace + Trace(v, w.ctx))
  }

  // ---------------------------------------------------------------- reading any text

  function ReadScalar(s: JIn, t: Byte): (x: Read<Value>)
    requires Rooted(s.ctx)
    ensures Rooted(x.s.ctx) && |x.s.text| <= |s.text|
  {
    if t == STRING then
      var b := ReadString(s);
      if b.r.Failed? then Read(Failed(b.r.error), b.s) else Read(Done(VString(b.r.value)), b.s)
    else if t in {BOOL, BYTE, I16T, I32T, I64T} then
      var n := ParseI64(s);
      if n.r.Failed? then Read(Failed(n.r.error), n.s) else Read(Done(Integer(t, n.r.value)), n.s)
    else Read(Failed(InvalidData), s)
  }

  /** ReadBool, ReadByte, ReadI16, ReadI32 and ReadI64 of the same number. */
  function Integer(t: Byte, n: I64): Value {
    if t == BOOL then VBool(ToI32(n) != 0)
    else if t == BYTE then VByte(ToI8(n))
    else if t == I16T then VI16(ToI16(n))
    else if t == I32T then VI32(ToI32(n))
    else VI64(n)
  }

  function ReadValue(s: JIn, t: Byte): (x: Read<Value>)
    requires Rooted(s.ctx)
    ensures Rooted(x.s.ctx) && |x.s.text| <= |s.text|
    decreases |s.text|, 1, 0
  {
    if t == STRUCT then
      var o := ParseOpen(s, LBRACE, ObjectFirst);
      if o.r.Failed? then Read(Failed(o.r.error), o.s)
      else
        var fs := ReadFields(o.s);
        if fs.r.Failed? then Read(Failed(fs.r.error), fs.s)
        else
          var e := ParseObjectEnd(fs.s);
          if e.r.Failed? then Read(Failed(e.r.error), e.s) else Read(Done(VStruct(fs.r.value)), e.s)
    else if t == MAP then
      var h := ReadMapBegin(s);
      if h.r.Failed? then Read(Failed(h.r.error), h.s)
      else
        var m := h.r.value;
        var es := if m.size <= 0 then Read(Done([]), h.s) else ReadEntries(h.s, m.keyType, m.valueType, m.size);
        if es.r.Failed? then Read(Failed(es.r.error), es.s)
        else
          var e := ReadMapEnd(es.s);
          if e.r.Failed? then Read(Failed(e.r.error), e.s)
          else Read(Done(VMap(m.keyType, m.valueType, es.r.value)), e.s)
    else if t == SET || t == LIST then
      var h := ReadListBegin(s);
      if h.r.Failed? then Read(Failed(h.r.error), h.s)
      else
        var l := h.r.value;
        var vs := if l.size <= 0 then Read(Done([]), h.s) else ReadAll(h.s, l.elemType, l.size);
        if vs.r.Failed? then Read(Failed(vs.r.error), vs.s)
        else
          var e := ParseListEnd(vs.s);
          if e.r.Failed? then Read(Failed(e.r.error), e.s)
          else Read(Done(if t == SET then VSet(l.elemType, vs.r.value) else VList(l.elemType, vs.r.value)), e.s)
    else ReadScalar(s, t)
  }

  function ReadFields(s: JIn): (x: Read<seq<Field>>)
    requires Rooted(s.ctx)
    ensures Rooted(x.s.ctx) && |x.s.text| <= |s.text|
    decreases |s.text|, 0, 1
  {
    var f := ReadField(s);
    if f.r.Failed? then Read(Failed(f.r.error), f.s)
    else if f.r.value.None? then Read(Done([]), f.s)
    else
      var fs := ReadFields(f.s);
      if fs.r.Failed? then fs else Read(Done([f.r.value.value] + fs.r.value), fs.s)
  }

  /** One field, or none at the end of the struct. */
  function ReadField(s: JIn): (x: Read<Option<Field>>)
    requires Rooted(s.ctx)
    ensures Rooted(x.s.ctx) && |x.s.text| <= |s.text|
    ensures x.r.Done? && x.r.value.Some? ==> |x.s.text| < |s.text|
    decreases |s.text|, 0, 0
  {
    var b := ReadFieldBegin(s);
    if b.r.Failed? then Read(Failed(b.r.error), b.s)
    else if b.r.value.typeId == STOP then Read(Done(None), b.s)
    else
      var v := ReadValue(b.s, b.r.value.typeId);
      if v.r.Failed? then Read(Failed(v.r.error), v.s)
      else
        var e := ParseObjectEnd(v.s);
        if e.r.Failed? then Read(Failed(e.r.error), e.s)
        else Read(Done(Some(Field(b.r.value.id, v.r.value))), e.s)
  }

  function ReadAll(s: JIn, t: Byte, n: nat): (x: Read<seq<Value>>)
    requires Rooted(s.ctx)
    ensures Rooted(x.s.ctx) && |x.s.text| <= |s.text|
    decreases |s.text|, 2, n
  {
    if n == 0 then Read(Done([]), s)
    else
      var v := ReadValue(s, t);
      if v.r.Failed? then Read(Failed(v.r.error), v.s)
      else
        var vs := ReadAll(v.s, t, n - 1);
        if vs.r.Failed? then vs else Read(Done([v.r.value] + vs.r.value), vs.s)
  }

  function ReadEntries(s: JIn, kt: Byte, vt: Byte, n: nat): (x: Read<seq<Entry>>)
    requires Rooted(s.ctx)
    ensures Rooted(x.s.ctx) && |x.s.text| <= |s.text|
    decreases |s.text|, 2, n
  {
    if n == 0 then Read(Done([]), s)
    else
      var e := ReadEntry(s, kt, vt);
      if e.r.Failed? then Read(Failed(e.r.error), e.s)
      else
        var es := ReadEntries(e.s, kt, vt, n - 1);
        if es.r.Failed? then es else Read(Done([e.r.value] + es.r.value), es.s)
  }

  function ReadEntry(s: JIn, kt: Byte, vt: Byte): (x: Read<Entry>)
    requires Rooted(s.ctx)
    ensures Rooted(x.s.ctx) && |x.s.text| <= |s.text|
    decreases |s.text|, 2, 0
  {
    var k := ReadValue(s, kt);
    if k.r.Failed? then Read(Failed(k.r.error), k.s)
    else
      var v := ReadValue(k.s, vt);
      if v.r.Failed? then Read(Failed(v.r.error), v.s) else Read(Done(Entry(k.r.value, v.r.value)), v.s)
  }

  // ---------------------------------------------------------------- what comes back

  /** The value with the broken bytes of its strings replaced. */
  function Clean(v: Value): (c: Value)
    ensures TypeOf(c) == TypeOf(v)
    decreases v, 1
  {
    match v
    case VString(bytes) => VString(Sanitize(bytes))
    case VStruct(fields) => VStruct(CleanFields(fields))
    case VMap(kt, vt, entries) => VMap(kt, vt, CleanEntries(entries))
    case VSet(t, members) => VSet(t, CleanAll(members))
    case VList(t, elems) => VList(t, CleanAll(elems))
    case _ => v
  }

  function CleanFields(fields: seq<Field>): seq<Field>
    decreases fields, 0
  {
    if fields == [] then [] else [CleanField(fields[0])] + CleanFields(fields[1..])
  }

  function CleanField(f: Field): Field
    decreases f, 0
  {
    Field(f.id, Clean(f.value))
  }

  function CleanAll(vs: seq<Value>): (c: seq<Value>)
    ensures |c| == |vs|
    decreases vs, 0
  {
    if vs == [] then [] else [Clean(vs[0])] + CleanAll(vs[1..])
  }

  function CleanEntries(entries: seq<Entry>): (c: seq<Entry>)
    ensures |c| == |entries|
    decreases entries, 0
  {
    if entries == [] then [] else [CleanEntry(entries[0])] + CleanEntries(entries[1..])
  }

  function CleanEntry(e: Entry): Entry
    decreases e, 0
  {
    Entry(Clean(e.key), Clean(e.value))
  }

  // ---------------------------------------------------------------- messages

  function MessageHead(name: seq<Byte>, typeId: I8, seqId: I32): seq<Byte> {
    [LBRACKET] + FormatInt(JSON_VERSION) + [COMMA] + Quote(name) + [COMMA] + FormatInt(typeId) + [COMMA]
        + FormatInt(seqId)
  }

  function MessageHeadTrace(): seq<seq<Ctx>> {
    [[Toplevel, ListFirst], [Toplevel, InList], [Toplevel, InList], [Toplevel, InList], [Toplevel, InList]]
  }
}
