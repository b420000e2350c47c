/** When Skip succeeds on a value, exactly, and the one way in which it loses its place. */
module SkipLimits {
  import opened Words
  import opened Values
  import opened Wire
  import opened Trees
  import opened RoundTrip
  import opened Skipping

  /** No map value anywhere inside v is too deep for the limit it is judged against. */
  predicate MapsShallow(v: Value)
    decreases v, 1
  {
    match v
    case VStruct(fields) => MapsShallowFields(fields)
    case VMap(_, _, entries) => MapsShallowEntries(entries)
    case VSet(_, members) => MapsShallowAll(members)
    case VList(_, elems) => MapsShallowAll(elems)
    case _ => true
  }

  predicate MapsShallowFields(fields: seq<Field>)
    decreases fields, 0
  {
    fields == [] || (MapsShallowField(fields[0]) && MapsShallowFields(fields[1..]))
  }

  predicate MapsShallowField(f: Field)
    decreases f, 0
  {
    MapsShallow(f.value)
  }

  predicate MapsShallowAll(vs: seq<Value>)
    decreases vs, 0
  {
    vs == [] || (MapsShallow(vs[0]) && MapsShallowAll(vs[1..]))
  }

  predicate MapsShallowEntries(entries: seq<Entry>)
    decreases entries, 0
  {
    entries == [] || (MapsShallowEntry(entries[0]) && MapsShallowEntries(entries[1..]))
  }

  predicate MapsShallowEntry(e: Entry)
    decreases e, 0
  {
    MapsShallow(e.key) && MapsShallow(e.value) && Shallow(e.value, DEFAULT_RECURSION_DEPTH)
  }

  // ---------------------------------------------------------------- what reading uses up

  /** A value that reads without error uses up input, unless it is a bool that the field header held. */
  lemma ReadConsumes(p: Proto, s: PState, t: Byte)
    requires ReadValue(p, s, t).r.Ok? && (!s.boolValueIsNotNull || t == STRUCT)
    ensures |ReadValue(p, s, t).s.trans| < |s.trans|
  {
    if t == STRUCT {
      hide ReadFields;
      FieldsConsume(p, StructBegin(p, s));
    } else if t == MAP {
      hide ReadMapBegin, ReadEntries;
    } else if t == SET || t == LIST {
      hide ReadListBegin, ReadAll;
    } else {
      ScalarConsumes(p, s, t);
    }
  }

  lemma ScalarConsumes(p: Proto, s: PState, t: Byte)
    requires ReadScalar(p, s, t).r.Ok? && !s.boolValueIsNotNull
    ensures |ReadScalar(p, s, t).s.trans| < |s.trans|
  {
    hide FromBigEndian, FromLittleEndian;
  }

  lemma FieldsConsume(p: Proto, s: PState)
    requires ReadFields(p, s).r.Ok?
    ensures |ReadFields(p, s).s.trans| < |s.trans|
  {
    hide ReadFieldBegin, ReadValue, FieldEnd;
    FieldsNeedInput(p, s);
    if ReadFieldBegin(p, s).h.typeId != STOP {
      FieldEndKeeps(p, ReadValue(p, ReadFieldBegin(p, s).s, ReadFieldBegin(p, s).h.typeId).s);
    }
  }

  lemma FieldsNeedInput(p: Proto, s: PState)
    ensures ReadFieldBegin(p, s).h.err.None? ==> |ReadFieldBegin(p, s).s.trans| < |s.trans|
  {
    hide CompactFieldBegin, BinaryFieldBegin;
  }

  /** Reading a value leaves no bool behind in the reader. */
  lemma {:induction false} ReadKeepsClear(p: Proto, s: PState, t: Byte)
    requires !s.boolValueIsNotNull && ReadValue(p, s, t).r.Ok?
    ensures !ReadValue(p, s, t).s.boolValueIsNotNull
    decreases |s.trans|, 1, 0
  {
    if t == STRUCT {
      hide ReadFields;
      ReadFieldsKeepClear(p, StructBegin(p, s));
    } else if t == MAP {
      hide ReadMapBegin, ReadEntries;
      var h := ReadMapBegin(p, s);
      ReadEntriesKeepClear(p, h.s, h.r.value.keyType, h.r.value.valueType, h.r.value.size);
    } else if t == SET || t == LIST {
      hide ReadListBegin, ReadAll;
      var h := ReadListBegin(p, s);
      ReadAllKeepsClear(p, h.s, h.r.value.elemType, h.r.value.size);
    } else {
      ScalarKeepsClear(p, s, t);
    }
  }

  lemma ScalarKeepsClear(p: Proto, s: PState, t: Byte)
    ensures !s.boolValueIsNotNull ==> !ReadScalar(p, s, t).s.boolValueIsNotNull
    ensures p.Compact? && t == BOOL ==> !ReadScalar(p, s, t).s.boolValueIsNotNull
  {
    hide ReadByte, ReadI16, ReadI32, ReadI64, ReadDouble, ReadString;
  }

  /** Only a compact bool field leaves its value in the reader. */
  lemma HeaderKeepsClear(p: Proto, s: PState)
    requires !s.boolValueIsNotNull
    ensures ReadFieldBegin(p, s).s.boolValueIsNotNull ==> p.Compact? && ReadFieldBegin(p, s).h.typeId == BOOL
  {
    hide ReadI16;
  }

  lemma {:induction false} ReadFieldsKeepClear(p: Proto, s: PState)
    requires !s.boolValueIsNotNull && ReadFields(p, s).r.Ok?
    ensures !ReadFields(p, s).s.boolValueIsNotNull
    decreases |s.trans|, 0, 0
  {
    hide ReadFieldBegin, ReadScalar, FieldEnd;
    HeaderKeepsClear(p, s);
    var h := ReadFieldBegin(p, s);
    if h.h.typeId != STOP {
      var v := ReadValue(p, h.s, h.h.typeId);
      if h.s.boolValueIsNotNull {
        ScalarKeepsClear(p, h.s, BOOL);
        assert v == ReadScalar(p, h.s, BOOL);
      } else {
        ReadKeepsClear(p, h.s, h.h.typeId);
      }
      hide ReadValue;
      FieldEndKeeps(p, v.s);
      ReadFieldsKeepClear(p, FieldEnd(p, v.s));
    }
  }

  lemma {:induction false} ReadAllKeepsClear(p: Proto, s: PState, t: Byte, n: nat)
    requires !s.boolValueIsNotNull && ReadAll(p, s, t, n).r.Ok?
    ensures !ReadAll(p, s, t, n).s.boolValueIsNotNull
    decreases |s.trans|, 2, n
  {
    hide ReadValue;
    if n > 0 {
      ReadKeepsClear(p, s, t);
      ReadAllKeepsClear(p, ReadValue(p, s, t).s, t, n - 1);
    }
  }

  lemma {:induction false} ReadEntriesKeepClear(p: Proto, s: PState, kt: Byte, vt: Byte, n: nat)
    requires !s.boolValueIsNotNull && ReadEntries(p, s, kt, vt, n).r.Ok?
    ensures !ReadEntries(p, s, kt, vt, n).s.boolValueIsNotNull
    decreases |s.trans|, 2, n
  {
    hide ReadValue;
    if n > 0 {
      ReadEntryKeepsClear(p, s, kt, vt);
      ReadEntriesKeepClear(p, ReadEntry(p, s, kt, vt).s, kt, vt, n - 1);
    }
  }

  lemma {:induction false} ReadEntryKeepsClear(p: Proto, s: PState, kt: Byte, vt: Byte)
    requires !s.boolValueIsNotNull && ReadEntry(p, s, kt, vt).r.Ok?
    ensures !ReadValue(p, s, kt).s.boolValueIsNotNull && !ReadEntry(p, s, kt, vt).s.boolValueIsNotNull
    decreases |s.trans|, 2, 0
  {
    hide ReadValue;
    ReadKeepsClear(p, s, kt);
    ReadKeepsClear(p, ReadValue(p, s, kt).s, vt);
  }

  // ---------------------------------------------------------------- too deep

  /** On any bytes that read as a value past the depth limit, with no map value past its own, Skip
      reports the limit and stops before the end of the value. */
  lemma {:induction false} SkipTooDeep(p: Proto, s: PState, t: Byte, d: int)
    requires ReadValue(p, s, t).r.Ok? && MapsShallow(ReadValue(p, s, t).r.value)
    requires !Shallow(ReadValue(p, s, t).r.value, d)
    ensures Skip(p, s, t, d).r == Err(DepthLimit)
    ensures |Skip(p, s, t, d).s.trans| >= |ReadValue(p, s, t).s.trans|
    ensures !s.boolValueIsNotNull || t == STRUCT ==> |Skip(p, s, t, d).s.trans| > |ReadValue(p, s, t).s.trans|
    decreases |s.trans|, 1, 0
  {
    if d <= 0 {
      assert Skip(p, s, t, d).s == s;
      if !s.boolValueIsNotNull || t == STRUCT { ReadConsumes(p, s, t); }
    } else {
      if t == STRUCT {
        hide ReadFields, SkipFields;
        SkipFieldsTooDeep(p, StructBegin(p, s), d);
      } else if t == MAP {
        hide ReadMapBegin, ReadEntries, SkipEntries;
        var h := ReadMapBegin(p, s);
        SkipEntriesTooDeep(p, h.s, h.r.value.keyType, h.r.value.valueType, h.r.value.size, d);
      } else if t == SET || t == LIST {
        hide ReadListBegin, ReadAll, SkipAll;
        var h := ReadListBegin(p, s);
        SkipAllTooDeep(p, h.s, h.r.value.elemType, h.r.value.size, d);
      } else {
        ScalarTypes(p, s, t);
      }
    }
  }

  lemma {:induction false} SkipFieldsTooDeep(p: Proto, s: PState, d: int)
    requires ReadFields(p, s).r.Ok? && MapsShallowFields(ReadFields(p, s).r.value)
    requires !ShallowFields(ReadFields(p, s).r.value, d - 1)
    ensures SkipFields(p, s, d).r == Err(DepthLimit)
    ensures |SkipFields(p, s, d).s.trans| > |ReadFields(p, s).s.trans|
    decreases |s.trans|, 0, 0
  {
    hide ReadFieldBegin, ReadValue, Skip, FieldEnd, Shallow, MapsShallow;
    var h := ReadFieldBegin(p, s);
    var v := ReadValue(p, h.s, h.h.typeId);
    var fields := ReadFields(p, s).r.value;
    assert fields[0] == Field(h.h.id, v.r.value) && fields[1..] == ReadFields(p, FieldEnd(p, v.s)).r.value;
    if Shallow(v.r.value, d - 1) {
      SkipIsRead(p, h.s, h.h.typeId, d - 1);
      FieldEndKeeps(p, v.s);
      SkipFieldsTooDeep(p, FieldEnd(p, v.s), d);
    } else {
      SkipTooDeep(p, h.s, h.h.typeId, d - 1);
      FieldEndKeeps(p, v.s);
      FieldsConsume(p, FieldEnd(p, v.s));
    }
  }

  lemma {:induction false} SkipAllTooDeep(p: Proto, s: PState, t: Byte, n: nat, d: int)
    requires ReadAll(p, s, t, n).r.Ok? && MapsShallowAll(ReadAll(p, s, t, n).r.value)
    requires !ShallowAll(ReadAll(p, s, t, n).r.value, d - 1)
    ensures SkipAll(p, s, t, n, d).r == Err(DepthLimit)
    ensures |SkipAll(p, s, t, n, d).s.trans| >= |ReadAll(p, s, t, n).s.trans|
    ensures !s.boolValueIsNotNull ==> |SkipAll(p, s, t, n, d).s.trans| > |ReadAll(p, s, t, n).s.trans|
    decreases |s.trans|, 2, n
  {
    hide ReadValue, Skip, Shallow, MapsShallow;
    var v := ReadValue(p, s, t);
    var vs := ReadAll(p, s, t, n).r.value;
    assert vs[0] == v.r.value && vs[1..] == ReadAll(p, v.s, t, n - 1).r.value;
    if Shallow(v.r.value, d - 1) {
      SkipIsRead(p, s, t, d - 1);
      if !s.boolValueIsNotNull { ReadKeepsClear(p, s, t); }
      SkipAllTooDeep(p, v.s, t, n - 1, d);
    } else {
      SkipTooDeep(p, s, t, d - 1);
    }
  }

  lemma {:induction false} SkipEntriesTooDeep(p: Proto, s: PState, kt: Byte, vt: Byte, n: nat, d: int)
    requires ReadEntries(p, s, kt, vt, n).r.Ok? && MapsShallowEntries(ReadEntries(p, s, kt, vt, n).r.value)
    requires !ShallowEntries(ReadEntries(p, s, kt, vt, n).r.value, d - 1)
    ensures SkipEntries(p, s, kt, vt, n, d).r == Err(DepthLimit)
    ensures |SkipEntries(p, s, kt, vt, n, d).s.trans| >= |ReadEntries(p, s, kt, vt, n).s.trans|
    ensures !s.boolValueIsNotNull ==>
      |SkipEntries(p, s, kt, vt, n, d).s.trans| > |ReadEntries(p, s, kt, vt, n).s.trans|
    decreases |s.trans|, 2, n
  {
    hide ReadValue, Skip, Shallow, MapsShallow;
    var e := ReadEntry(p, s, kt, vt);
    var es := ReadEntries(p, s, kt, vt, n).r.value;
    assert es[0] == e.r.value && es[1..] == ReadEntries(p, e.s, kt, vt, n - 1).r.value;
    if Shallow(e.r.value.key, d - 1) {
      SkipIsRead(p, s, kt, d - 1);
      SkipIsRead(p, ReadValue(p, s, kt).s, vt, DEFAULT_RECURSION_DEPTH);
      if !s.boolValueIsNotNull { ReadEntryKeepsClear(p, s, kt, vt); }
      SkipEntriesTooDeep(p, e.s, kt, vt, n - 1, d);
    } else {
      SkipTooDeep(p, s, kt, d - 1);
    }
  }

  // ---------------------------------------------------------------- on encodings

  lemma {:induction false} NormKeepsDepth(p: Proto, v: Value, d: int)
    ensures Shallow(Norm(p, v), d) == Shallow(v, d)
    ensures MapsShallow(Norm(p, v)) == MapsShallow(v)
    decreases v, 1
  {
    match v
    case VStruct(fields) => NormFieldsKeepDepth(p, fields, d - 1);
    case VMap(_, _, entries) => NormEntriesKeepDepth(p, entries, d - 1);
    case VSet(_, members) => NormAllKeepsDepth(p, members, d - 1);
    case VList(_, elems) => NormAllKeepsDepth(p, elems, d - 1);
    case _ =>
  }

  lemma {:induction false} NormFieldsKeepDepth(p: Proto, fields: seq<Field>, d: int)
    ensures ShallowFields(NormFields(p, fields), d) == ShallowFields(fields, d)
    ensures MapsShallowFields(NormFields(p, fields)) == MapsShallowFields(fields)
    decreases fields, 0
  {
    hide Shallow, MapsShallow, Norm;
    if fields != [] {
      NormFieldKeepsDepth(p, fields[0], d);
      NormFieldsKeepDepth(p, fields[1..], d);
      assert NormFields(p, fields)[1..] == NormFields(p, fields[1..]);
    }
  }

  lemma {:induction false} NormFieldKeepsDepth(p: Proto, f: Field, d: int)
    ensures ShallowField(NormField(p, f), d) == ShallowField(f, d)
    ensures MapsShallowField(NormField(p, f)) == MapsShallowField(f)
    decreases f, 0
  {
    NormKeepsDepth(p, f.value, d);
  }

  lemma {:induction false} NormAllKeepsDepth(p: Proto, vs: seq<Value>, d: int)
    ensures ShallowAll(NormAll(p, vs), d) == ShallowAll(vs, d)
    ensures MapsShallowAll(NormAll(p, vs)) == MapsShallowAll(vs)
    decreases vs, 0
  {
    hide Shallow, MapsShallow, Norm;
    if vs != [] {
      NormKeepsDepth(p, vs[0], d);
      NormAllKeepsDepth(p, vs[1..], d);
      assert NormAll(p, vs)[1..] == NormAll(p, vs[1..]);
    }
  }

  lemma {:induction false} NormEntriesKeepDepth(p: Proto, entries: seq<Entry>, d: int)
    ensures ShallowEntries(NormEntries(p, entries), d) == ShallowEntries(entries, d)
    ensures MapsShallowEntries(NormEntries(p, entries)) == MapsShallowEntries(entries)
    decreases entries, 0
  {
    hide Shallow, MapsShallow, Norm;
    if entries != [] {
      NormEntryKeepsDepth(p, entries[0], d);
      NormEntriesKeepDepth(p, entries[1..], d);
      assert NormEntries(p, entries)[1..] == NormEntries(p, entries[1..]);
    }
  }

  lemma {:induction false} NormEntryKeepsDepth(p: Proto, e: Entry, d: int)
    ensures ShallowEntry(NormEntry(p, e), d) == ShallowEntry(e, d)
    ensures MapsShallowEntry(NormEntry(p, e)) == MapsShallowEntry(e)
    decreases e, 0
  {
    NormKeepsDepth(p, e.key, d);
    NormKeepsDepth(p, e.value, DEFAULT_RECURSION_DEPTH);
  }

  /** On the encoding of a value within the limit, Skip succeeds, leaves exactly the bytes that
      follow, and gives back the field stack, the last field id and the bool flags. */
  lemma SkipEncoded(p: Proto, v: Value, s: PState, rest: seq<Byte>, d: int)
    requires WellTyped(v) && Clean(s) && s.trans == Enc(p, v) + rest
    requires Shallow(v, d)
    ensures Skip(p, s, TypeOf(v), d).r == Ok(())
    ensures Left(s, Skip(p, s, TypeOf(v), d).s, rest, Marks(p, v, s.lastField, s.lastFieldId))
  {
    hide *;
    ValueBack(p, v, s, rest);
    NormKeepsDepth(p, v, d);
    SkipIsRead(p, s, TypeOf(v), d);
  }

  /** Unless a map value is too deep for the fresh limit, success means that the value fits. */
  lemma SkipSucceedsIff(p: Proto, v: Value, s: PState, rest: seq<Byte>, d: int)
    requires WellTyped(v) && Clean(s) && s.trans == Enc(p, v) + rest && MapsShallow(v)
    ensures Skip(p, s, TypeOf(v), d).r.Ok? <==> Shallow(v, d)
  {
    hide *;
    ValueBack(p, v, s, rest);
    NormKeepsDepth(p, v, d);
    if Shallow(v, d) {
      SkipIsRead(p, s, TypeOf(v), d);
    } else {
      SkipTooDeep(p, s, TypeOf(v), d);
    }
  }

  /** On the encoding of a value past the limit, with no map value past its own, Skip reports the
      limit and leaves some of the value unread. */
  lemma SkipEncodedTooDeep(p: Proto, v: Value, s: PState, rest: seq<Byte>, d: int)
    requires WellTyped(v) && Clean(s) && s.trans == Enc(p, v) + rest
    requires MapsShallow(v) && !Shallow(v, d)
    ensures Skip(p, s, TypeOf(v), d).r == Err(DepthLimit)
    ensures |Skip(p, s, TypeOf(v), d).s.trans| > |rest|
  {
    hide Skip, ReadValue, Norm, Enc, WellTyped, Shallow, MapsShallow, Marks;
    ValueBack(p, v, s, rest);
    NormKeepsDepth(p, v, d);
    SkipTooDeep(p, s, TypeOf(v), d);
  }

  // ---------------------------------------------------------------- a map value past the limit

  /** On any bytes that read as entries all of which fit but for the last one's value: the value's
      error is dropped, and Skip stands where reading would if and only if that value fits too. */
  lemma {:induction false} SkipEntriesExactIff(p: Proto, s: PState, kt: Byte, vt: Byte, n: nat, d: int)
    requires n > 0 && !s.boolValueIsNotNull && ReadEntries(p, s, kt, vt, n).r.Ok?
    requires LastValueOpen(ReadEntries(p, s, kt, vt, n).r.value, d - 1)
    ensures
      var read := ReadEntries(p, s, kt, vt, n);
      var skip := SkipEntries(p, s, kt, vt, n, d);
      var fits := Shallow(read.r.value[|read.r.value| - 1].value, DEFAULT_RECURSION_DEPTH);
      && skip.r == Ok(()) && (fits ==> skip.s == read.s) && (!fits ==> |skip.s.trans| > |read.s.trans|)
    decreases n
  {
    hide ReadValue, Skip, Shallow, MapsShallow;
    var e := ReadEntry(p, s, kt, vt);
    var k := ReadValue(p, s, kt);
    var es := ReadEntries(p, s, kt, vt, n).r.value;
    var more := ReadEntries(p, e.s, kt, vt, n - 1);
    assert es == [e.r.value] + more.r.value && es[0] == e.r.value && es[1..] == more.r.value;
    LastValueStep(es, d - 1);
    SkipIsRead(p, s, kt, d - 1);
    ReadEntryKeepsClear(p, s, kt, vt);
    if n == 1 {
      if Shallow(e.r.value.value, DEFAULT_RECURSION_DEPTH) {
        SkipIsRead(p, k.s, vt, DEFAULT_RECURSION_DEPTH);
      } else {
        SkipTooDeep(p, k.s, vt, DEFAULT_RECURSION_DEPTH);
      }
    } else {
      SkipIsRead(p, k.s, vt, DEFAULT_RECURSION_DEPTH);
      SkipEntriesExactIff(p, e.s, kt, vt, n - 1, d);
    }
    SkipEntriesTurn(p, s, kt, vt, n, d);
  }

  /** Every key and every value but the last fits, and no map value inside the last is too deep. */
  predicate LastValueOpen(entries: seq<Entry>, d: int) {
    && entries != []
    && ShallowEntries(entries[..|entries| - 1], d)
    && Shallow(entries[|entries| - 1].key, d)
    && MapsShallow(entries[|entries| - 1].value)
  }

  lemma LastValueStep(entries: seq<Entry>, d: int)
    requires LastValueOpen(entries, d)
    ensures Shallow(entries[0].key, d)
    ensures |entries| == 1 ==> MapsShallow(entries[0].value)
    ensures |entries| > 1 ==> Shallow(entries[0].value, DEFAULT_RECURSION_DEPTH) && LastValueOpen(entries[1..], d)
  {
    hide Shallow, MapsShallow;
    if |entries| > 1 {
      var before, tail := entries[..|entries| - 1], entries[1..];
      assert before[0] == entries[0] && before[1..] == tail[..|tail| - 1];
      assert ShallowEntry(before[0], d) && tail[|tail| - 1] == entries[|entries| - 1];
    }
  }

  lemma {:induction false} NormEntriesAt(p: Proto, entries: seq<Entry>)
    requires entries != []
    ensures |NormEntries(p, entries)| == |entries|
    ensures NormEntries(p, entries)[..|entries| - 1] == NormEntries(p, entries[..|entries| - 1])
    ensures NormEntries(p, entries)[|entries| - 1] == NormEntry(p, entries[|entries| - 1])
  {
    hide NormEntry;
    if |entries| > 1 {
      NormEntriesAt(p, entries[1..]);
      assert entries[1..][..|entries| - 2] == entries[..|entries| - 1][1..];
    }
  }

  lemma NormKeepsLastValue(p: Proto, entries: seq<Entry>, d: int)
    requires LastValueOpen(entries, d)
    ensures LastValueOpen(NormEntries(p, entries), d)
    ensures var last := NormEntries(p, entries)[|NormEntries(p, entries)| - 1];
      Shallow(last.value, DEFAULT_RECURSION_DEPTH)
        == Shallow(entries[|entries| - 1].value, DEFAULT_RECURSION_DEPTH)
  {
    hide Shallow, MapsShallow, Norm, NormEntries, ShallowEntries;
    NormEntriesAt(p, entries);
    var before, last := entries[..|entries| - 1], entries[|entries| - 1];
    NormEntriesKeepDepth(p, before, d);
    var norm := NormEntries(p, entries);
    assert norm[..|norm| - 1] == NormEntries(p, before) && norm[|norm| - 1] == NormEntry(p, last);
    NormKeepsDepth(p, last.key, d);
    NormKeepsDepth(p, last.value, DEFAULT_RECURSION_DEPTH);
  }

  /** The same of a whole map. */
  lemma SkipReadMapExactIff(p: Proto, s: PState, d: int)
    requires ReadValue(p, s, MAP).r.Ok? && ReadValue(p, s, MAP).r.value.VMap? && !s.boolValueIsNotNull && d > 0
    requires LastValueOpen(ReadValue(p, s, MAP).r.value.entries, d - 1)
    ensures
      var read := ReadValue(p, s, MAP);
      var skip := Skip(p, s, MAP, d);
      var entries := read.r.value.entries;
      var fits := Shallow(entries[|entries| - 1].value, DEFAULT_RECURSION_DEPTH);
      && skip.r == Ok(()) && (fits ==> skip.s == read.s) && (!fits ==> |skip.s.trans| > |read.s.trans|)
  {
    hide Skip, SkipEntries, ReadValue, ReadEntries, ReadMapBegin, Shallow, MapsShallow, ShallowEntries;
    ReadMapParts(p, s);
    var h := ReadMapBegin(p, s);
    SkipEntriesExactIff(p, h.s, h.r.value.keyType, h.r.value.valueType, h.r.value.size, d);
    SkipMapTurn(p, s, d);
  }

  /** A map all of whose entries fit but perhaps for the last value: Skip reports success, and has
      consumed the map if and only if that value fits its fresh limit. */
  lemma SkipMapExactIff(p: Proto, kt: Byte, vt: Byte, entries: seq<Entry>, s: PState, rest: seq<Byte>, d: int)
    requires WellTyped(VMap(kt, vt, entries)) && Clean(s) && s.trans == Enc(p, VMap(kt, vt, entries)) + rest
    requires d > 0 && entries != [] && LastValueOpen(entries, d - 1)
    ensures
      var skip := Skip(p, s, MAP, d);
      var fits := Shallow(entries[|entries| - 1].value, DEFAULT_RECURSION_DEPTH);
      && skip.r == Ok(()) && (skip.s.trans == rest <==> fits) && (!fits ==> |skip.s.trans| > |rest|)
  {
    hide Skip, ReadValue, Norm, NormEntries, Enc, Marks, Shallow, MapsShallow, ShallowEntries, WellTyped;
    ValueBack(p, VMap(kt, vt, entries), s, rest);
    NormKeepsLastValue(p, entries, d - 1);
    NormOfMap(p, kt, vt, entries);
    SkipReadMapExactIff(p, s, d);
  }

  lemma NormOfMap(p: Proto, kt: Byte, vt: Byte, entries: seq<Entry>)
    requires entries != []
    ensures Norm(p, VMap(kt, vt, entries)) == VMap(kt, vt, NormEntries(p, entries))
  {
    hide NormEntries;
  }

  lemma ReadMapParts(p: Proto, s: PState)
    requires ReadValue(p, s, MAP).r.Ok?
    ensures
      var h := ReadMapBegin(p, s);
      && h.r.Ok? && h.s.boolValueIsNotNull == s.boolValueIsNotNull
      && var es := ReadEntries(p, h.s, h.r.value.keyType, h.r.value.valueType, h.r.value.size);
      && es.r.Ok? && ReadValue(p, s, MAP).s == es.s && |es.r.value| == h.r.value.size
      && ReadValue(p, s, MAP).r.value == VMap(h.r.value.keyType, h.r.value.valueType, es.r.value)
  {
    hide ReadMapBegin, ReadEntries;
    var h := ReadMapBegin(p, s);
    ReadEntriesCount(p, h.s, h.r.value.keyType, h.r.value.valueType, h.r.value.size);
  }

  lemma {:induction false} ReadEntriesCount(p: Proto, s: PState, kt: Byte, vt: Byte, n: nat)
    ensures ReadEntries(p, s, kt, vt, n).r.Ok? ==> |ReadEntries(p, s, kt, vt, n).r.value| == n
    decreases n
  {
    hide ReadEntry;
    if n > 0 && ReadEntry(p, s, kt, vt).r.Ok? { ReadEntriesCount(p, ReadEntry(p, s, kt, vt).s, kt, vt, n - 1); }
  }

  // ---------------------------------------------------------------- losing the place

  /** A list of bytes inside n lists. */
  function Nest(n: nat): (v: Value)
    ensures v.VList?
  {
    if n == 0 then VList(BYTE, []) else VList(LIST, [Nest(n - 1)])
  }

  lemma {:induction false} NestWellTyped(n: nat)
    ensures WellTyped(Nest(n))
  {
    if n > 0 {
      NestWellTyped(n - 1);
    }
  }

  /** A too deep nest is refused at the limit, after the headers above it have been consumed. */
  lemma {:induction false} SkipNest(p: Proto, s: PState, n: nat, d: nat, rest: seq<Byte>)
    requires n >= d && s.trans == Enc(p, Nest(n)) + rest
    ensures Skip(p, s, LIST, d) == Step(Err(DepthLimit), s.(trans := Enc(p, Nest(n - d)) + rest))
    decreases d
  {
    hide Enc, Nest, EncListHeader, ReadListBegin, Skip, SkipAll;
    if d == 0 {
      SkipAtLimit(p, s, LIST);
    } else {
      var inner := Enc(p, Nest(n - 1)) + rest;
      NestEncoding(p, n, rest);
      ReadListBeginOf(p, s, LIST, 1, inner);
      SkipNest(p, s.(trans := inner), n - 1, d - 1, rest);
      SkipOneElement(p, s.(trans := inner), LIST, d);
      SkipListStep(p, s, s.(trans := inner), d);
    }
  }

  lemma SkipAtLimit(p: Proto, s: PState, t: Byte)
    ensures Skip(p, s, t, 0) == Step(Err(DepthLimit), s)
  {
  }

  lemma SkipListStep(p: Proto, s: PState, s1: PState, d: int)
    requires d > 0 && ReadListBegin(p, s) == Step(Ok(ListHead(LIST, 1)), s1)
    ensures Skip(p, s, LIST, d) == SkipAll(p, s1, LIST, 1, d)
  {
    hide ReadListBegin, SkipAll, SkipFields, SkipEntries, ReadMapBegin, SkipScalar;
  }

  lemma SkipOneElement(p: Proto, s: PState, t: Byte, d: int)
    requires Skip(p, s, t, d - 1).r.Err?
    ensures SkipAll(p, s, t, 1, d) == Skip(p, s, t, d - 1)
  {
    hide Skip;
  }

  lemma NestEncoding(p: Proto, n: nat, rest: seq<Byte>)
    requires n > 0
    ensures Enc(p, Nest(n)) + rest == EncListHeader(p, LIST, 1) + (Enc(p, Nest(n - 1)) + rest)
  {
    hide EncListHeader;
    var elems := [Nest(n - 1)];
    assert elems[1..] == [] && EncAll(p, elems) == Enc(p, Nest(n - 1)) + [];
  }

  function DeepMap(n: nat): Value {
    VMap(BYTE, LIST, [Entry(VByte(0), Nest(n))])
  }

  lemma DeepMapWellTyped(n: nat)
    ensures WellTyped(DeepMap(n))
  {
    hide Nest;
    NestWellTyped(n);
    var entries := [Entry(VByte(0), Nest(n))];
    assert WellTypedEntry(BYTE, LIST, entries[0]) && entries[1..] == [];
    assert WellTypedEntries(BYTE, LIST, entries);
  }

  /** The smallest case: a map value of more than 64 nested lists. Skip reports success and stops
      before the headers that it did not reach. */
  lemma SkipLosesPlace(p: Proto, s: PState, n: nat, d: nat, rest: seq<Byte>)
    requires n >= DEFAULT_RECURSION_DEPTH && d >= 2
    requires s.trans == Enc(p, DeepMap(n)) + rest
    ensures WellTyped(DeepMap(n))
    ensures Skip(p, s, MAP, d) ==
      Step(Ok(()), s.(trans := Enc(p, Nest(n - DEFAULT_RECURSION_DEPTH)) + rest))
    ensures |Skip(p, s, MAP, d).s.trans| > |rest|
  {
    hide EncMapHeader, ReadMapBegin, Nest, Enc, Skip, WellTyped;
    DeepMapWellTyped(n);
    var value := Enc(p, Nest(n)) + rest;
    DeepMapEncoding(p, n, rest);
    ReadMapBeginOf(p, s, BYTE, LIST, 1, [0] + value);
    var s1 := s.(trans := [0] + value);
    SkipKey(p, s1, d - 1, value);
    SkipNest(p, s1.(trans := value), n, DEFAULT_RECURSION_DEPTH, rest);
    EncNotEmpty(p, n - DEFAULT_RECURSION_DEPTH);
    SkipMapStep(p, s, s1, d);
  }

  lemma SkipMapStep(p: Proto, s: PState, s1: PState, d: int)
    requires d > 0 && ReadMapBegin(p, s) == Step(Ok(MapHead(BYTE, LIST, 1)), s1)
    ensures Skip(p, s, MAP, d) == SkipEntries(p, s1, BYTE, LIST, 1, d)
  {
    hide ReadListBegin, SkipAll, SkipFields, SkipEntries, ReadMapBegin, SkipScalar;
  }

  lemma SkipKey(p: Proto, s: PState, d: nat, rest: seq<Byte>)
    requires d > 0 && s.trans == [0] + rest
    ensures Skip(p, s, BYTE, d) == Step(Ok(()), s.(trans := rest))
  {
    ReadByteOf(s, 0, rest);
  }

  lemma DeepMapEncoding(p: Proto, n: nat, rest: seq<Byte>)
    ensures Enc(p, DeepMap(n)) + rest ==
      EncMapHeader(p, BYTE, LIST, 1) + ([0] + (Enc(p, Nest(n)) + rest))
  {
    hide EncMapHeader, Nest;
    var entries := [Entry(VByte(0), Nest(n))];
    assert entries[1..] == [] && EncEntry(p, entries[0]) == [0] + Enc(p, Nest(n));
    assert EncEntries(p, entries) == [0] + Enc(p, Nest(n)) + [];
  }

  lemma EncNotEmpty(p: Proto, n: nat)
    ensures Enc(p, Nest(n)) != []
  {}

  lemma {:induction false} NestDepth(n: nat, d: int)
    ensures Shallow(Nest(n), d) <==> n < d
    ensures MapsShallow(Nest(n))
  {
    if n > 0 {
      hide Nest;
      NestDepth(n - 1, d - 1);
      NestOne(n, d);
    }
  }

  lemma NestOne(n: nat, d: int)
    requires n > 0
    ensures Shallow(Nest(n), d) <==> d > 0 && Shallow(Nest(n - 1), d - 1)
    ensures MapsShallow(Nest(n)) <==> MapsShallow(Nest(n - 1))
  {
    var inner := Nest(n - 1);
    assert Nest(n) == VList(LIST, [inner]);
    hide Nest, Shallow, MapsShallow;
    NestUnfold(inner, d);
  }

  lemma NestUnfold(inner: Value, d: int)
    ensures Shallow(VList(LIST, [inner]), d) <==> d > 0 && Shallow(inner, d - 1)
    ensures MapsShallow(VList(LIST, [inner])) <==> MapsShallow(inner)
  {
    assert [inner][1..] == [];
    assert ShallowAll([inner], d - 1) <==> Shallow(inner, d - 1);
    assert MapsShallowAll([inner]) <==> MapsShallow(inner);
  }

  /** The exact bound: a map value of nested lists is skipped if and only if there are at most 64. */
  lemma SkipDeepMapIff(p: Proto, s: PState, n: nat, d: nat, rest: seq<Byte>)
    requires d >= 2 && Clean(s) && s.trans == Enc(p, DeepMap(n)) + rest
    ensures Skip(p, s, MAP, d).r == Ok(())
    ensures Skip(p, s, MAP, d).s.trans == rest <==> n < DEFAULT_RECURSION_DEPTH
  {
    hide Skip, Enc, Nest;
    DeepMapWellTyped(n);
    NestDepth(n, DEFAULT_RECURSION_DEPTH);
    var entries := [Entry(VByte(0), Nest(n))];
    assert entries[..0] == [];
    assert LastValueOpen(entries, d - 1);
    SkipMapExactIff(p, BYTE, LIST, entries, s, rest, d);
  }

  // ---------------------------------------------------------------- finding the place again

  /** Two entries: a value one list too deep, and a key that reads as the header of a list. */
  const LUCKY_MAP := VMap(BYTE, LIST, [Entry(VByte(0), Nest(64)), Entry(VByte(0x13), VList(BYTE, []))])

  /** No such bound holds for a too deep value that is not the last: what Skip leaves of the first
      value here passes for the second key, and the second key and value for a list of one byte, so
      that Skip ends where the map does although it did not skip its entries. */
  lemma SkipFindsPlaceAgain(s: PState, rest: seq<Byte>)
    requires s.trans == Enc(Compact, LUCKY_MAP) + rest
    ensures WellTyped(LUCKY_MAP) && !MapsShallow(LUCKY_MAP) && !Shallow(LUCKY_MAP, DEFAULT_RECURSION_DEPTH)
    ensures Skip(Compact, s, MAP, DEFAULT_RECURSION_DEPTH) == Step(Ok(()), s.(trans := rest))
  {
    hide Skip, SkipEntries, Enc, Nest, EncMapHeader, ReadMapBegin, WellTyped, Shallow, MapsShallow;
    LuckyMapIsDeep();
    LuckyMapEncoding(rest);
    var tail: seq<Byte> := [0x13, 0x03] + rest;
    var first := [0] + (Enc(Compact, Nest(64)) + tail);
    ReadMapBeginOf(Compact, s, BYTE, LIST, 2, first);
    SkipMapTurn(Compact, s, 64);
    var s1 := s.(trans := first);
    SkipByte(s1, 0, Enc(Compact, Nest(64)) + tail, 63);
    SkipNest(Compact, s.(trans := Enc(Compact, Nest(64)) + tail), 64, 64, tail);
    SkipEntriesTurn(Compact, s1, BYTE, LIST, 2, 64);
    InnermostList();
    assert [0x03] + tail == [0x03] + ([0x13, 0x03] + rest);
    var s2 := s.(trans := [0x03] + tail);
    SkipByte(s2, 0x03, tail, 63);
    SkipOneByteList(s.(trans := tail), rest);
    SkipEntriesTurn(Compact, s2, BYTE, LIST, 1, 64);
    SkipEntriesTurn(Compact, s.(trans := rest), BYTE, LIST, 0, 64);
  }

  lemma InnermostList()
    ensures Enc(Compact, Nest(0)) == [0x03]
  {
    assert Enc(Compact, Nest(0)) == EncListHeader(Compact, BYTE, 0) + [];
  }

  lemma SkipByte(s: PState, b: Byte, rest: seq<Byte>, d: int)
    requires d > 0 && s.trans == [b] + rest
    ensures Skip(Compact, s, BYTE, d) == Step(Ok(()), s.(trans := rest))
  {
    ReadByteOf(s, b, rest);
  }

  lemma SkipOneByteList(s: PState, rest: seq<Byte>)
    requires s.trans == [0x13, 0x03] + rest
    ensures Skip(Compact, s, LIST, DEFAULT_RECURSION_DEPTH) == Step(Ok(()), s.(trans := rest))
  {
    hide ReadListBegin, ReadMapBegin, SkipEntries, SkipFields, SkipScalar;
    var one := s.(trans := [0x03] + rest);
    assert s.trans == EncListHeader(Compact, BYTE, 1) + one.trans;
    ReadListBeginOf(Compact, s, BYTE, 1, one.trans);
    SkipByte(one, 0x03, rest, 63);
    SkipAllTurn(one, BYTE, 1, 64);
    SkipAllTurn(s.(trans := rest), BYTE, 0, 64);
  }

  lemma SkipAllTurn(s: PState, t: Byte, n: nat, d: int)
    ensures SkipAll(Compact, s, t, n, d) ==
      if n == 0 then Step(Ok(()), s)
      else
        var v := Skip(Compact, s, t, d - 1);
        if v.r.Err? then v else SkipAll(Compact, v.s, t, n - 1, d)
  {
    hide Skip;
  }

  lemma LuckyMapEncoding(rest: seq<Byte>)
    ensures Enc(Compact, LUCKY_MAP) + rest ==
      EncMapHeader(Compact, BYTE, LIST, 2) + ([0] + (Enc(Compact, Nest(64)) + ([0x13, 0x03] + rest)))
  {
    hide Enc, EncMapHeader, EncEntries, Nest;
    LuckyEntries();
    MapEncoding(BYTE, LIST, LUCKY_MAP.entries);
    var nest := Enc(Compact, Nest(64));
    assert [0] + nest + [0x13, 0x03] + rest == [0] + (nest + ([0x13, 0x03] + rest));
  }

  lemma MapEncoding(kt: Byte, vt: Byte, entries: seq<Entry>)
    ensures Enc(Compact, VMap(kt, vt, entries))
         == EncMapHeader(Compact, kt, vt, |entries|) + EncEntries(Compact, entries)
  {
    hide EncMapHeader, EncEntries;
  }

  lemma LuckyEntries()
    ensures EncEntries(Compact, LUCKY_MAP.entries) == [0] + Enc(Compact, Nest(64)) + [0x13, 0x03]
  {
    hide Enc, Nest;
    var entries := LUCKY_MAP.entries;
    InnermostList();
    NestZero();
    LuckyKeys();
    var second := [entries[1]];
    assert entries[1..] == second && second[1..] == [];
    assert EncEntries(Compact, second) == [0x13] + [0x03] + [];
  }

  lemma LuckyKeys()
    ensures Enc(Compact, VByte(0)) == [0] && Enc(Compact, VByte(0x13)) == [0x13]
  {
  }

  lemma NestZero()
    ensures Nest(0) == VList(BYTE, [])
  {
  }

  lemma LuckyMapIsDeep()
    ensures WellTyped(LUCKY_MAP) && !MapsShallow(LUCKY_MAP) && !Shallow(LUCKY_MAP, DEFAULT_RECURSION_DEPTH)
  {
    hide Nest;
    NestWellTyped(64);
    NestDepth(64, DEFAULT_RECURSION_DEPTH);
    var entries := LUCKY_MAP.entries;
    assert WellTypedEntry(BYTE, LIST, entries[0]) && WellTypedEntry(BYTE, LIST, entries[1]);
    assert entries[1..][1..] == [] && entries[1..][0] == entries[1];
    assert WellTypedEntries(BYTE, LIST, entries[1..]);
    assert !ShallowEntry(entries[0], 63) && !MapsShallowEntry(entries[0]);
  }
}
