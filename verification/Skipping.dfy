/** Skip as a function of the reader's state, and that it skips whatever reads within the depth limit. */
module Skipping {
  import opened Words
  import opened Values
  import opened Wire
  import opened Trees

  const DEFAULT_RECURSION_DEPTH := 64

  /** Every call on a nested value starts with less unread input, or with the same input in an
      element whose header has been read.  The field stack only ever grows above where it was. */
  function Skip(p: Proto, s: PState, t: Byte, maxDepth: int): (st: Step<()>)
    ensures |st.s.trans| <= |s.trans|
    ensures s.lastField <= st.s.lastField
    decreases |s.trans|, 1, 0
  {
    if maxDepth <= 0 then Step(Err(DepthLimit), s)
    else if t == STOP then Step(Ok(()), s)
    else if t == STRUCT then
      var fs := SkipFields(p, StructBegin(p, s), maxDepth);
      match fs.r case Err(e) => fs case Ok(_) => Step(Ok(()), StructEnd(p, fs.s))
    else if t == MAP then
      var h := ReadMapBegin(p, s);
      match h.r
      case Err(e) => Step(Err(e), h.s)
      case Ok(head) => SkipEntries(p, h.s, head.keyType, head.valueType, head.size, maxDepth)
    else if t == SET || t == LIST then
      var h := ReadListBegin(p, s);
      match h.r
      case Err(e) => Step(Err(e), h.s)
      case Ok(head) => SkipAll(p, h.s, head.elemType, head.size, maxDepth)
    else SkipScalar(p, s, t)
  }

  function SkipScalar(p: Proto, s: PState, t: Byte): (st: Step<()>)
    ensures |st.s.trans| <= |s.trans| && st.s.lastField == s.lastField
  {
    var v := ReadScalar(p, s, t);
    match v.r case Err(e) => Step(Err(e), v.s) case Ok(_) => Step(Ok(()), v.s)
  }

  /** The error of ReadFieldBegin is dropped: only the type decides. */
  function SkipFields(p: Proto, s: PState, maxDepth: int): (st: Step<()>)
    ensures |st.s.trans| <= |s.trans|
    ensures s.lastField <= st.s.lastField
    decreases |s.trans|, 0, 0
  {
    var h := ReadFieldBegin(p, s);
    if h.h.typeId == STOP then Step(Ok(()), h.s)
    else
      var v := Skip(p, h.s, h.h.typeId, maxDepth - 1);
      match v.r case Err(e) => v case Ok(_) => SkipFields(p, FieldEnd(p, v.s), maxDepth)
  }

  function SkipAll(p: Proto, s: PState, t: Byte, n: nat, maxDepth: int): (st: Step<()>)
    ensures |st.s.trans| <= |s.trans|
    ensures s.lastField <= st.s.lastField
    decreases |s.trans|, 2, n
  {
    if n == 0 then Step(Ok(()), s)
    else
      var v := Skip(p, s, t, maxDepth - 1);
      match v.r case Err(e) => v case Ok(_) => SkipAll(p, v.s, t, n - 1, maxDepth)
  }

  /** The value of an entry is skipped at the default depth, and its error is dropped. */
  function SkipEntries(p: Proto, s: PState, kt: Byte, vt: Byte, n: nat, maxDepth: int): (st: Step<()>)
    ensures |st.s.trans| <= |s.trans|
    ensures s.lastField <= st.s.lastField
    decreases |s.trans|, 2, n
  {
    if n == 0 then Step(Ok(()), s)
    else
      var k := Skip(p, s, kt, maxDepth - 1);
      match k.r
      case Err(e) => k
      case Ok(_) =>
        var v := Skip(p, k.s, vt, DEFAULT_RECURSION_DEPTH);
        SkipEntries(p, v.s, kt, vt, n - 1, maxDepth)
  }

  /** The definitions above, one turn at a time. */
  lemma SkipMapTurn(p: Proto, s: PState, maxDepth: int)
    requires maxDepth > 0
    ensures var h := ReadMapBegin(p, s);
      Skip(p, s, MAP, maxDepth) == if h.r.Err? then Step(Err(h.r.error), h.s)
        else SkipEntries(p, h.s, h.r.value.keyType, h.r.value.valueType, h.r.value.size, maxDepth)
  {
    hide ReadMapBegin, ReadListBegin, SkipEntries, SkipAll, SkipFields, SkipScalar;
  }

  lemma SkipEntriesTurn(p: Proto, s: PState, kt: Byte, vt: Byte, n: nat, maxDepth: int)
    ensures SkipEntries(p, s, kt, vt, n, maxDepth) ==
      if n == 0 then Step(Ok(()), s)
      else
        var k := Skip(p, s, kt, maxDepth - 1);
        if k.r.Err? then k
        else SkipEntries(p, Skip(p, k.s, vt, DEFAULT_RECURSION_DEPTH).s, kt, vt, n - 1, maxDepth)
  {
    hide Skip;
  }

  // ---------------------------------------------------------------- depth

  /** The value fits the depth limit; map values are judged afresh. */
  predicate Shallow(v: Value, d: int)
    decreases v, 1
  {
    d > 0 && match v
      case VStruct(fields) => ShallowFields(fields, d - 1)
      case VMap(_, _, entries) => ShallowEntries(entries, d - 1)
      case VSet(_, members) => ShallowAll(members, d - 1)
      case VList(_, elems) => ShallowAll(elems, d - 1)
      case _ => true
  }

  predicate ShallowFields(fields: seq<Field>, d: int)
    decreases fields, 0
  {
    fields == [] || (ShallowField(fields[0], d) && ShallowFields(fields[1..], d))
  }

  predicate ShallowField(f: Field, d: int)
    decreases f, 0
  {
    Shallow(f.value, d)
  }

  predicate ShallowAll(vs: seq<Value>, d: int)
    decreases vs, 0
  {
    vs == [] || (Shallow(vs[0], d) && ShallowAll(vs[1..], d))
  }

  predicate ShallowEntries(entries: seq<Entry>, d: int)
    decreases entries, 0
  {
    entries == [] || (ShallowEntry(entries[0], d) && ShallowEntries(entries[1..], d))
  }

  predicate ShallowEntry(e: Entry, d: int)
    decreases e, 0
  {
    Shallow(e.key, d) && Shallow(e.value, DEFAULT_RECURSION_DEPTH)
  }

  // ---------------------------------------------------------------- skipping is reading

  /** On any bytes that read as a value within the depth limit, skipping succeeds and leaves the
      reader exactly where reading would. */
  lemma {:induction false} SkipIsRead(p: Proto, s: PState, t: Byte, d: int)
    requires ReadValue(p, s, t).r.Ok? && Shallow(ReadValue(p, s, t).r.value, d)
    ensures Skip(p, s, t, d) == Step(Ok(()), ReadValue(p, s, t).s)
    decreases |s.trans|, 1, 0
  {
    if t == STRUCT {
      hide ReadFields, SkipFields;
      SkipFieldsIsRead(p, StructBegin(p, s), d);
    } else if t == MAP {
      hide ReadMapBegin, ReadEntries, SkipEntries;
      var h := ReadMapBegin(p, s);
      SkipEntriesIsRead(p, h.s, h.r.value.keyType, h.r.value.valueType, h.r.value.size, d);
    } else if t == SET || t == LIST {
      hide ReadListBegin, ReadAll, SkipAll;
      var h := ReadListBegin(p, s);
      SkipAllIsRead(p, h.s, h.r.value.elemType, h.r.value.size, d);
    } else {
      ScalarTypes(p, s, t);
    }
  }

  lemma ScalarTypes(p: Proto, s: PState, t: Byte)
    requires ReadScalar(p, s, t).r.Ok?
    ensures t != STOP && IsScalar(ReadScalar(p, s, t).r.value)
  {
    hide ReadBool, ReadByte, ReadI16, ReadI32, ReadI64, ReadDouble, ReadString;
  }

  lemma {:induction false} SkipFieldsIsRead(p: Proto, s: PState, d: int)
    requires ReadFields(p, s).r.Ok? && ShallowFields(ReadFields(p, s).r.value, d - 1)
    ensures SkipFields(p, s, d) == Step(Ok(()), ReadFields(p, s).s)
    decreases |s.trans|, 0, 0
  {
    hide ReadFieldBegin, ReadValue, Skip, FieldEnd, Shallow;
    var h := ReadFieldBegin(p, s);
    if h.h.typeId != STOP {
      var v := ReadValue(p, h.s, h.h.typeId);
      var fields := ReadFields(p, s).r.value;
      assert fields[0] == Field(h.h.id, v.r.value) && fields[1..] == ReadFields(p, FieldEnd(p, v.s)).r.value;
      SkipIsRead(p, h.s, h.h.typeId, d - 1);
      FieldEndKeeps(p, v.s);
      SkipFieldsIsRead(p, FieldEnd(p, v.s), d);
    }
  }

  lemma FieldEndKeeps(p: Proto, s: PState)
    ensures FieldEnd(p, s).trans == s.trans && FieldEnd(p, s).lastField == s.lastField
    ensures FieldEnd(p, s).boolValueIsNotNull == s.boolValueIsNotNull
  {}

  lemma {:induction false} SkipAllIsRead(p: Proto, s: PState, t: Byte, n: nat, d: int)
    requires ReadAll(p, s, t, n).r.Ok? && ShallowAll(ReadAll(p, s, t, n).r.value, d - 1)
    ensures SkipAll(p, s, t, n, d) == Step(Ok(()), ReadAll(p, s, t, n).s)
    decreases |s.trans|, 2, n
  {
    hide ReadValue, Skip, Shallow;
    if n > 0 {
      var v := ReadValue(p, s, t);
      var vs := ReadAll(p, s, t, n).r.value;
      assert vs[0] == v.r.value && vs[1..] == ReadAll(p, v.s, t, n - 1).r.value;
      SkipIsRead(p, s, t, d - 1);
      SkipAllIsRead(p, v.s, t, n - 1, d);
    }
  }

  lemma {:induction false} SkipEntriesIsRead(p: Proto, s: PState, kt: Byte, vt: Byte, n: nat, d: int)
    requires ReadEntries(p, s, kt, vt, n).r.Ok? && ShallowEntries(ReadEntries(p, s, kt, vt, n).r.value, d - 1)
    ensures SkipEntries(p, s, kt, vt, n, d) == Step(Ok(()), ReadEntries(p, s, kt, vt, n).s)
    decreases |s.trans|, 2, n
  {
    hide ReadValue, Skip, Shallow;
    if n > 0 {
      var e := ReadEntry(p, s, kt, vt);
      var es := ReadEntries(p, s, kt, vt, n).r.value;
      assert es[0] == e.r.value && es[1..] == ReadEntries(p, e.s, kt, vt, n - 1).r.value;
      SkipIsRead(p, s, kt, d - 1);
      SkipIsRead(p, ReadValue(p, s, kt).s, vt, DEFAULT_RECURSION_DEPTH);
      SkipEntriesIsRead(p, e.s, kt, vt, n - 1, d);
    }
  }
}
