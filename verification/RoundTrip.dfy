/** Reading what was written: the same tree comes back, every byte is accounted for, and reader and
    writer pass through the same field-id states. */
module RoundTrip {
  import opened Options
  import opened Words
  import opened Values
  import opened Wire
  import opened Trees

  /** From s to t only the given bytes were read and the given marks left; the bool value field of
      the reader keeps whatever it last held. */
  predicate Left(s: PState, t: PState, rest: seq<Byte>, marks: seq<Mark>) {
    t == s.(trans := rest, boolValue := t.boolValue, marks := s.marks + marks)
  }

  /** As Left, inside a struct, where the compact last field id has moved. */
  predicate LeftInside(p: Proto, s: PState, t: PState, rest: seq<Byte>, marks: seq<Mark>) {
    && (p.Binary? ==> t.lastFieldId == s.lastFieldId)
    && t == s.(trans := rest, lastFieldId := t.lastFieldId, boolValue := t.boolValue, marks := s.marks + marks)
  }

  lemma LeftThenLeft(s: PState, t: PState, u: PState, mid: seq<Byte>, rest: seq<Byte>, a: seq<Mark>, b: seq<Mark>)
    requires Left(s, t, mid, a) && Left(t, u, rest, b)
    ensures Left(s, u, rest, a + b)
  {
    assert s.marks + a + b == s.marks + (a + b);
  }

  /** The round trip: whatever bytes follow, reading the encoding of a well-typed value gives the
      value back, leaves exactly those bytes, restores the field stack, the last field id and the
      bool flags, and passes through the field-id states of the writer. */
  lemma {:induction false} ValueBack(p: Proto, v: Value, s: PState, rest: seq<Byte>)
    requires WellTyped(v) && Clean(s) && s.trans == Enc(p, v) + rest
    ensures ReadValue(p, s, TypeOf(v)).r == Ok(Norm(p, v))
    ensures Left(s, ReadValue(p, s, TypeOf(v)).s, rest, Marks(p, v, s.lastField, s.lastFieldId))
    decreases v, 1
  {
    match v
    case VStruct(fields) => StructBack(p, fields, s, rest);
    case VMap(kt, vt, entries) => MapBack(p, kt, vt, entries, s, rest);
    case VSet(t, members) => ListBack(p, t, members, s, rest);
    case VList(t, elems) => ListBack(p, t, elems, s, rest);
    case _ => ScalarBack(p, v, s, rest);
  }

  lemma ScalarBack(p: Proto, v: Value, s: PState, rest: seq<Byte>)
    requires IsScalar(v) && WellTyped(v) && Clean(s) && s.trans == Enc(p, v) + rest
    ensures ReadValue(p, s, TypeOf(v)).r == Ok(v)
    ensures ReadValue(p, s, TypeOf(v)).s == s.(trans := rest)
  {
    hide EncInt, EncLength, ReadFull, ReadI16, ReadI32, ReadI64, ReadDouble, ReadString, LittleEndian, BigEndian;
    hide ReadByteDirect;
    match v
    case VBool(b) => ReadByteOf(s, EncBool(p, b), rest);
    case VByte(n) => ReadByteOf(s, ToByte(n), rest);
    case VI16(n) => ReadI16Of(p, s, n, rest);
    case VI32(n) => ReadI32Of(p, s, n, rest);
    case VI64(n) => ReadI64Of(p, s, n, rest);
    case VDouble(w) => ReadDoubleOf(p, s, w, rest);
    case VString(b) => ReadStringOf(p, s, b, rest);
  }

  lemma {:induction false} StructBack(p: Proto, fields: seq<Field>, s: PState, rest: seq<Byte>)
    requires WellTypedFields(fields) && Clean(s) && s.trans == EncFields(p, 0, fields) + rest
    ensures ReadValue(p, s, STRUCT).r == Ok(VStruct(NormFields(p, fields)))
    ensures Left(s, ReadValue(p, s, STRUCT).s, rest, Marks(p, VStruct(fields), s.lastField, s.lastFieldId))
    decreases fields, 1
  {
    hide EncFields, ReadFields, NormFields, FieldMarks;
    var inner := StructBegin(p, s);
    FieldsBack(p, 0, fields, inner, rest);
    if p.Compact? {
      assert inner.lastField[..|s.lastField|] == s.lastField;
      var middle := FieldMarks(p, fields, inner.lastField);
      var first, final := [Mark(inner.lastField, 0, true)], [Mark(s.lastField, s.lastFieldId, true)];
      assert s.marks + first + middle + final == s.marks + (first + middle + final);
    }
  }

  lemma {:induction false} FieldsBack(p: Proto, last: int, fields: seq<Field>, s: PState, rest: seq<Byte>)
    requires WellTypedFields(fields) && Clean(s) && s.trans == EncFields(p, last, fields) + rest
    requires -0x8000 <= last < 0x8000 && (p.Compact? ==> last == s.lastFieldId)
    ensures ReadFields(p, s).r == Ok(NormFields(p, fields))
    ensures LeftInside(p, s, ReadFields(p, s).s, rest, if p.Compact? then FieldMarks(p, fields, s.lastField) else [])
    decreases fields, 0
  {
    if fields == [] {
      StopOf(p, s, rest);
    } else {
      var f := fields[0];
      hide Enc, Marks, EncField, ReadFieldBegin, ReadValue, NormField, ReadFields, FieldMarks, OneFieldMarks;
      var more := EncFields(p, f.id, fields[1..]) + rest;
      assert s.trans == EncField(p, last, f) + more;
      var h, v := FieldBack(p, last, f, s, more);
      FieldsBack(p, f.id, fields[1..], FieldEnd(p, v), rest);
      ReadFieldsStep(p, s, h, Norm(p, f.value), v, NormFields(p, fields[1..]));
      FieldMarksStep(p, s.marks, fields, s.lastField);
    }
  }

  lemma ReadFieldsStep(p: Proto, s: PState, h: Headed<FieldHead>, value: Value, v: PState, more: seq<Field>)
    requires h == ReadFieldBegin(p, s)
    ensures h.h.err.None? && h.h.typeId != STOP && ReadValue(p, h.s, h.h.typeId) == Step(Ok(value), v)
        && ReadFields(p, FieldEnd(p, v)).r == Ok(more)
      ==> ReadFields(p, s) == Step(Ok([Field(h.h.id, value)] + more), ReadFields(p, FieldEnd(p, v)).s)
  {
    hide ReadFieldBegin, ReadValue, FieldEnd;
  }

  lemma FieldMarksStep(p: Proto, before: seq<Mark>, fields: seq<Field>, stack: seq<int>)
    requires fields != []
    ensures before + FieldMarks(p, fields, stack) ==
      before + Marks(p, fields[0].value, stack, fields[0].id) + [Mark(stack, fields[0].id, true)]
      + FieldMarks(p, fields[1..], stack)
  {
    hide Marks;
  }

  /** One field: its header, then its value, which a compact bool has already left in the reader. */
  lemma {:induction false} FieldBack(p: Proto, last: int, f: Field, s: PState, rest: seq<Byte>)
    returns (h: Headed<FieldHead>, v: PState)
    requires WellTypedField(f) && Clean(s) && s.trans == EncField(p, last, f) + rest
    requires -0x8000 <= last < 0x8000 && (p.Compact? ==> last == s.lastFieldId)
    ensures h == ReadFieldBegin(p, s) && h.h == FieldHead(TypeOf(f.value), f.id, None)
    ensures ReadValue(p, h.s, TypeOf(f.value)) == Step(Ok(Norm(p, f.value)), v)
    ensures p.Compact? ==> v.lastFieldId == f.id
    ensures LeftInside(p, s, v, rest, if p.Compact? then Marks(p, f.value, s.lastField, f.id) else [])
    decreases f, 0
  {
    hide CompactFieldHeader, ReadFieldBegin;
    h := ReadFieldBegin(p, s);
    if p.Compact? && f.value.VBool? {
      CompactHeaderOf(s, f.id, EncBool(p, f.value.b), rest);
      v := h.s.(boolValueIsNotNull := false);
    } else {
      hide Enc, ReadValue, Marks, Norm;
      var body := Enc(p, f.value) + rest;
      match p {
        case Compact =>
          assert s.trans == CompactFieldHeader(s.lastFieldId, f.id, CompactType(TypeOf(f.value))) + body;
          CompactHeaderOf(s, f.id, CompactType(TypeOf(f.value)), body);
        case Binary =>
          assert s.trans == [TypeOf(f.value)] + BigEndian(2, f.id % 0x1_0000) + body;
          BinaryHeaderOf(s, TypeOf(f.value), f.id, body);
      }
      ValueBack(p, f.value, h.s, rest);
      NoMarksOnBinary(f.value, h.s.lastField, h.s.lastFieldId);
      v := ReadValue(p, h.s, TypeOf(f.value)).s;
    }
  }

  lemma {:induction false} NoMarksOnBinary(v: Value, stack: seq<int>, last: int)
    ensures Marks(Binary, v, stack, last) == []
    decreases v, 1
  {
    match v
    case VMap(_, _, entries) => NoEntryMarksOnBinary(entries, stack, last);
    case VSet(_, members) => NoAllMarksOnBinary(members, stack, last);
    case VList(_, elems) => NoAllMarksOnBinary(elems, stack, last);
    case _ =>
  }

  lemma {:induction false} NoAllMarksOnBinary(vs: seq<Value>, stack: seq<int>, last: int)
    ensures AllMarks(Binary, vs, stack, last) == []
    decreases vs, 0
  {
    if vs != [] {
      NoMarksOnBinary(vs[0], stack, last);
      NoAllMarksOnBinary(vs[1..], stack, last);
    }
  }

  lemma {:induction false} NoEntryMarksOnBinary(entries: seq<Entry>, stack: seq<int>, last: int)
    ensures EntryMarks(Binary, entries, stack, last) == []
    decreases entries, 0
  {
    if entries != [] {
      NoOneEntryMarksOnBinary(entries[0], stack, last);
      NoEntryMarksOnBinary(entries[1..], stack, last);
    }
  }

  lemma {:induction false} NoOneEntryMarksOnBinary(e: Entry, stack: seq<int>, last: int)
    ensures OneEntryMarks(Binary, e, stack, last) == []
    decreases e, 0
  {
    NoMarksOnBinary(e.key, stack, last);
    NoMarksOnBinary(e.value, stack, last);
  }

  lemma {:induction false} ListBack(p: Proto, t: Byte, vs: seq<Value>, s: PState, rest: seq<Byte>)
    requires IsType(t) && |vs| <= MAX_SIZE && WellTypedAll(t, vs) && Clean(s)
    requires s.trans == EncListHeader(p, t, |vs|) + EncAll(p, vs) + rest
    ensures ReadValue(p, s, SET).r == Ok(VSet(t, NormAll(p, vs)))
    ensures ReadValue(p, s, LIST).r == Ok(VList(t, NormAll(p, vs)))
    ensures ReadValue(p, s, SET).s == ReadValue(p, s, LIST).s
    ensures Left(s, ReadValue(p, s, LIST).s, rest, AllMarks(p, vs, s.lastField, s.lastFieldId))
    decreases vs, 1
  {
    hide EncListHeader, EncAll, ReadListBegin, ReadAll, NormAll, AllMarks;
    var body := EncAll(p, vs) + rest;
    assert s.trans == EncListHeader(p, t, |vs|) + body;
    ReadListBeginOf(p, s, t, |vs|, body);
    AllBack(p, t, vs, s.(trans := body), rest);
  }

  lemma {:induction false} AllBack(p: Proto, t: Byte, vs: seq<Value>, s: PState, rest: seq<Byte>)
    requires WellTypedAll(t, vs) && Clean(s) && s.trans == EncAll(p, vs) + rest
    ensures ReadAll(p, s, t, |vs|).r == Ok(NormAll(p, vs))
    ensures Left(s, ReadAll(p, s, t, |vs|).s, rest, AllMarks(p, vs, s.lastField, s.lastFieldId))
    decreases vs, 0
  {
    if vs != [] {
      hide Enc, ReadValue, ReadAll, Norm, Marks, WellTyped, Left;
      var more := EncAll(p, vs[1..]) + rest;
      assert s.trans == Enc(p, vs[0]) + more;
      ValueBack(p, vs[0], s, more);
      var v := ReadValue(p, s, t).s;
      LeftKeeps(s, v, more, Marks(p, vs[0], s.lastField, s.lastFieldId));
      AllBack(p, t, vs[1..], v, rest);
      LeftThenLeft(s, v, ReadAll(p, v, t, |vs| - 1).s, more, rest,
        Marks(p, vs[0], s.lastField, s.lastFieldId), AllMarks(p, vs[1..], s.lastField, s.lastFieldId));
    }
  }

  lemma LeftKeeps(s: PState, t: PState, rest: seq<Byte>, marks: seq<Mark>)
    requires Left(s, t, rest, marks)
    ensures t.lastField == s.lastField && t.lastFieldId == s.lastFieldId && t.trans == rest
    ensures Clean(s) ==> Clean(t)
  {}

  lemma {:induction false} MapBack(p: Proto, kt: Byte, vt: Byte, entries: seq<Entry>, s: PState, rest: seq<Byte>)
    requires IsType(kt) && IsType(vt) && |entries| <= MAX_SIZE && WellTypedEntries(kt, vt, entries) && Clean(s)
    requires s.trans == EncMapHeader(p, kt, vt, |entries|) + EncEntries(p, entries) + rest
    ensures ReadValue(p, s, MAP).r == Ok(Norm(p, VMap(kt, vt, entries)))
    ensures Left(s, ReadValue(p, s, MAP).s, rest, EntryMarks(p, entries, s.lastField, s.lastFieldId))
    decreases entries, 1
  {
    hide EncMapHeader, ReadMapBegin;
    var body := EncEntries(p, entries) + rest;
    assert s.trans == EncMapHeader(p, kt, vt, |entries|) + body;
    ReadMapBeginOf(p, s, kt, vt, |entries|, body);
    if entries != [] {
      hide EncEntries, ReadEntries, NormEntries, EntryMarks;
      EntriesBack(p, kt, vt, entries, s.(trans := body), rest);
    } else {
      assert body == rest;
    }
  }

  lemma {:induction false} EntriesBack(p: Proto, kt: Byte, vt: Byte, entries: seq<Entry>, s: PState, rest: seq<Byte>)
    requires WellTypedEntries(kt, vt, entries) && Clean(s) && s.trans == EncEntries(p, entries) + rest
    ensures ReadEntries(p, s, kt, vt, |entries|).r == Ok(NormEntries(p, entries))
    ensures Left(s, ReadEntries(p, s, kt, vt, |entries|).s, rest, EntryMarks(p, entries, s.lastField, s.lastFieldId))
    decreases entries, 0
  {
    if entries != [] {
      hide EncEntry, ReadEntry, ReadEntries, NormEntry, OneEntryMarks, WellTypedEntry, Left;
      var more := EncEntries(p, entries[1..]) + rest;
      assert s.trans == EncEntry(p, entries[0]) + more;
      EntryBack(p, kt, vt, entries[0], s, more);
      var v := ReadEntry(p, s, kt, vt).s;
      LeftKeeps(s, v, more, OneEntryMarks(p, entries[0], s.lastField, s.lastFieldId));
      EntriesBack(p, kt, vt, entries[1..], v, rest);
      ReadEntriesStep(p, s, kt, vt, |entries|);
      LeftThenLeft(s, v, ReadEntries(p, v, kt, vt, |entries| - 1).s, more, rest,
        OneEntryMarks(p, entries[0], s.lastField, s.lastFieldId), EntryMarks(p, entries[1..], s.lastField,
            s.lastFieldId));
    }
  }

  lemma ReadEntriesStep(p: Proto, s: PState, kt: Byte, vt: Byte, n: nat)
    requires n > 0
    ensures var e := ReadEntry(p, s, kt, vt); var more := ReadEntries(p, e.s, kt, vt, n - 1);
      e.r.Ok? && more.r.Ok? ==> ReadEntries(p, s, kt, vt, n) == Step(Ok([e.r.value] + more.r.value), more.s)
  {
    hide ReadEntry;
  }

  lemma {:induction false} EntryBack(p: Proto, kt: Byte, vt: Byte, e: Entry, s: PState, rest: seq<Byte>)
    requires WellTypedEntry(kt, vt, e) && Clean(s) && s.trans == EncEntry(p, e) + rest
    ensures ReadEntry(p, s, kt, vt).r == Ok(NormEntry(p, e))
    ensures Left(s, ReadEntry(p, s, kt, vt).s, rest, OneEntryMarks(p, e, s.lastField, s.lastFieldId))
    decreases e, 0
  {
    hide Enc, ReadValue, Norm, Marks, WellTyped;
    assert s.trans == Enc(p, e.key) + (Enc(p, e.value) + rest);
    ValueBack(p, e.key, s, Enc(p, e.value) + rest);
    ValueBack(p, e.value, ReadValue(p, s, kt).s, rest);
  }
}
