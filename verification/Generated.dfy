/** What generated code does with a protocol: write a whole value, read one back. */
module Generated {
  import opened Words
  import opened Values
  import opened Wire
  import opened CompactProtocol
  import opened BinaryProtocol
  import opened Protocol
  import opened Trees
  import opened RoundTrip

  /** From s to t the bytes were appended and the marks left; the writer keeps the id of the last
      bool field it saw, and everything else is as it was. */
  predicate Wrote(s: PState, t: PState, bytes: seq<Byte>, marks: seq<Mark>) {
    t == s.(trans := s.trans + bytes, marks := s.marks + marks, booleanFieldId := t.booleanFieldId)
  }

  predicate WroteSome(s: PState, t: PState) {
    t == s.(trans := t.trans, marks := t.marks, booleanFieldId := t.booleanFieldId)
  }

  // ---------------------------------------------------------------- writing

  /** Every writer of a value adds exactly its encoding and its field-id history. */
  method WriteValue(prot: TProtocol, v: Value)
    requires prot.Valid() && Clean(prot.State())
    modifies prot.Repr()
    ensures var s := old(prot.State());
      Wrote(s, prot.State(), Enc(prot.Kind(), v), Marks(prot.Kind(), v, s.lastField, s.lastFieldId))
    decreases v, 1
  {
    hide EncAll, EncEntries, EncFields, EncListHeader, EncMapHeader, AllMarks, EntryMarks, FieldMarks;
    match v
    case VStruct(fields) => WriteStruct(prot, fields);
    case VMap(keyType, valueType, entries) => WriteMap(prot, keyType, valueType, entries);
    case VSet(t, members) => WriteAll(prot, t, members);
    case VList(t, elems) => WriteAll(prot, t, elems);
    case VBool(b) => prot.WriteBool(b);
    case _ => prot.WriteScalar(v);
  }

  method WriteAll(prot: TProtocol, t: Byte, vs: seq<Value>)
    requires prot.Valid() && Clean(prot.State())
    modifies prot.Repr()
    ensures var s, p := old(prot.State()), prot.Kind();
      Wrote(s, prot.State(), EncListHeader(p, t, |vs|) + EncAll(p, vs), AllMarks(p, vs, s.lastField, s.lastFieldId))
    decreases vs, 0
  {
    hide Enc, Marks, EncListHeader, EncAll, AllMarks;
    var p := prot.Kind();
    ghost var s0 := prot.State();
    ghost var header, stack, last := EncListHeader(p, t, |vs|), s0.lastField, s0.lastFieldId;
    prot.WriteListBegin(t, |vs|);
    assert vs[0..] == vs;
    for i := 0 to |vs|
      invariant WroteSome(s0, prot.State())
      invariant prot.State().trans + EncAll(p, vs[i..]) == s0.trans + header + EncAll(p, vs)
      invariant prot.State().marks + AllMarks(p, vs[i..], stack, last) == s0.marks + AllMarks(p, vs, stack, last)
    {
      ghost var s := prot.State();
      WriteValue(prot, vs[i]);
      AllTurn(p, s, vs[i..], stack, last);
      assert vs[i..][1..] == vs[i + 1..];
    }
    assert vs[|vs|..] == [];
    NothingLeft(p, stack, last);
    assert s0.trans + header + EncAll(p, vs) == s0.trans + (header + EncAll(p, vs));
  }

  lemma AllTurn(p: Proto, s: PState, vs: seq<Value>, stack: seq<int>, last: int)
    requires vs != []
    ensures s.trans + EncAll(p, vs) == (s.trans + Enc(p, vs[0])) + EncAll(p, vs[1..])
    ensures s.marks + AllMarks(p, vs, stack, last)
      == (s.marks + Marks(p, vs[0], stack, last)) + AllMarks(p, vs[1..], stack, last)
  {
    hide Enc, Marks;
  }

  lemma NothingLeft(p: Proto, stack: seq<int>, last: int)
    ensures EncAll(p, []) == [] && AllMarks(p, [], stack, last) == []
    ensures EncEntries(p, []) == [] && EntryMarks(p, [], stack, last) == []
    ensures EncFields(p, last, []) == [STOP] && FieldMarks(p, [], stack) == []
  {}

  method WriteMap(prot: TProtocol, kt: Byte, vt: Byte, entries: seq<Entry>)
    requires prot.Valid() && Clean(prot.State())
    modifies prot.Repr()
    ensures var s, p := old(prot.State()), prot.Kind();
      Wrote(s, prot.State(), EncMapHeader(p, kt, vt, |entries|) + EncEntries(p, entries),
        EntryMarks(p, entries, s.lastField, s.lastFieldId))
    decreases entries, 0
  {
    hide EncMapHeader, EncEntries, EncEntry, EntryMarks, OneEntryMarks;
    var p := prot.Kind();
    ghost var s0 := prot.State();
    ghost var header, stack, last := EncMapHeader(p, kt, vt, |entries|), s0.lastField, s0.lastFieldId;
    prot.WriteMapBegin(kt, vt, |entries|);
    assert entries[0..] == entries;
    for i := 0 to |entries|
      invariant WroteSome(s0, prot.State())
      invariant prot.State().trans + EncEntries(p, entries[i..]) == s0.trans + header + EncEntries(p, entries)
      invariant prot.State().marks + EntryMarks(p, entries[i..], stack, last) == s0.marks
          + EntryMarks(p, entries, stack, last)
    {
      ghost var s := prot.State();
      WriteEntry(prot, entries[i]);
      EntriesTurn(p, s, entries[i..], stack, last);
      assert entries[i..][1..] == entries[i + 1..];
    }
    assert entries[|entries|..] == [];
    NothingLeft(p, stack, last);
    assert s0.trans + header + EncEntries(p, entries) == s0.trans + (header + EncEntries(p, entries));
  }

  lemma EntriesTurn(p: Proto, s: PState, entries: seq<Entry>, stack: seq<int>, last: int)
    requires entries != []
    ensures s.trans + EncEntries(p, entries) == (s.trans + EncEntry(p, entries[0])) + EncEntries(p, entries[1..])
    ensures s.marks + EntryMarks(p, entries, stack, last)
      == (s.marks + OneEntryMarks(p, entries[0], stack, last)) + EntryMarks(p, entries[1..], stack, last)
  {
    hide EncEntry, OneEntryMarks;
  }

  method WriteEntry(prot: TProtocol, e: Entry)
    requires prot.Valid() && Clean(prot.State())
    modifies prot.Repr()
    ensures var s, p := old(prot.State()), prot.Kind();
      Wrote(s, prot.State(), EncEntry(p, e), OneEntryMarks(p, e, s.lastField, s.lastFieldId))
    decreases e, 0
  {
    hide Enc, Marks;
    var p := prot.Kind();
    ghost var s := prot.State();
    WriteValue(prot, e.key);
    WriteValue(prot, e.value);
    assert s.trans + Enc(p, e.key) + Enc(p, e.value) == s.trans + EncEntry(p, e);
    assert s.marks + Marks(p, e.key, s.lastField, s.lastFieldId) + Marks(p, e.value, s.lastField, s.lastFieldId)
      == s.marks + OneEntryMarks(p, e, s.lastField, s.lastFieldId);
  }

  /** Within a struct the compact last field id moves as well. */
  predicate WroteInside(p: Proto, s: PState, t: PState, last: int) {
    && WroteSome(s, t.(lastFieldId := s.lastFieldId))
    && (if p.Compact? then t.lastFieldId == last else t.lastFieldId == s.lastFieldId && t.marks == s.marks)
  }

  method WriteStruct(prot: TProtocol, fields: seq<Field>)
    requires prot.Valid() && Clean(prot.State())
    modifies prot.Repr()
    ensures var s, p := old(prot.State()), prot.Kind();
      Wrote(s, prot.State(), EncFields(p, 0, fields), Marks(p, VStruct(fields), s.lastField, s.lastFieldId))
    decreases fields, 1
  {
    hide EncFields, FieldMarks;
    var p := prot.Kind();
    ghost var s0 := prot.State();
    prot.WriteStructBegin();
    ghost var s1 := prot.State();
    ghost var last := WriteFields(prot, fields);
    ghost var s2 := prot.State();
    prot.WriteStructEnd();
    if p.Compact? { StructParts(s0, s2, fields); }
  }

  lemma StructParts(s0: PState, s2: PState, fields: seq<Field>)
    requires s2.lastField == s0.lastField + [s0.lastFieldId] && Clean(s2)
    requires s2.marks == s0.marks + [Mark(s2.lastField, 0, true)] + FieldMarks(Compact, fields, s2.lastField)
    ensures StructEnd(Compact, s2).marks == s0.marks + Marks(Compact, VStruct(fields), s0.lastField, s0.lastFieldId)
    ensures StructEnd(Compact, s2).lastField == s0.lastField
  {
    hide FieldMarks;
    assert s2.lastField[..|s0.lastField|] == s0.lastField;
    var first, final := [Mark(s2.lastField, 0, true)], [Mark(s0.lastField, s0.lastFieldId, true)];
    var middle := FieldMarks(Compact, fields, s2.lastField);
    assert s0.marks + first + middle + final == s0.marks + (first + middle + final);
  }

  /** The fields of a struct that has just begun, and the stop byte. */
  method WriteFields(prot: TProtocol, fields: seq<Field>) returns (ghost last: int)
    requires prot.Valid() && Clean(prot.State()) && (prot.Kind().Compact? ==> prot.State().lastFieldId == 0)
    modifies prot.Repr()
    ensures var s, t, p := old(prot.State()), prot.State(), prot.Kind();
      && WroteInside(p, s, t, last)
      && t.trans == s.trans + EncFields(p, 0, fields)
      && (p.Compact? ==> t.marks == s.marks + FieldMarks(p, fields, s.lastField))
    decreases fields, 0
  {
    hide EncFields, FieldMarks, EncField, OneFieldMarks;
    var p := prot.Kind();
    ghost var s0, stack := prot.State(), prot.State().lastField;
    last := 0;
    assert fields[0..] == fields;
    for i := 0 to |fields|
      invariant WroteInside(p, s0, prot.State(), last)
      invariant prot.State().trans + EncFields(p, last, fields[i..]) == s0.trans + EncFields(p, 0, fields)
      invariant p.Compact? ==>
        prot.State().marks + FieldMarks(p, fields[i..], stack) == s0.marks + FieldMarks(p, fields, stack)
    {
      ghost var s := prot.State();
      WriteField(prot, fields[i], last);
      FieldsTurn(p, s, last, fields[i..], stack);
      last := fields[i].id;
      assert fields[i..][1..] == fields[i + 1..];
    }
    NothingLeft(p, stack, last);
    prot.WriteFieldStop();
  }

  lemma FieldsTurn(p: Proto, s: PState, last: int, fields: seq<Field>, stack: seq<int>)
    requires fields != []
    ensures s.trans + EncFields(p, last, fields)
      == (s.trans + EncField(p, last, fields[0])) + EncFields(p, fields[0].id, fields[1..])
    ensures s.marks + FieldMarks(p, fields, stack)
      == (s.marks + OneFieldMarks(p, fields[0], stack)) + FieldMarks(p, fields[1..], stack)
  {
    hide EncField, OneFieldMarks;
  }

  method WriteField(prot: TProtocol, f: Field, ghost last: int)
    requires prot.Valid() && Clean(prot.State()) && (prot.Kind().Compact? ==> prot.State().lastFieldId == last)
    modifies prot.Repr()
    ensures var s, t, p := old(prot.State()), prot.State(), prot.Kind();
      && WroteInside(p, s, t, f.id)
      && t.trans == s.trans + EncField(p, last, f)
      && (p.Compact? ==> t.marks == s.marks + OneFieldMarks(p, f, s.lastField))
    decreases f, 0
  {
    hide Enc, Marks, CompactFieldHeader, BigEndian, CompactType, TypeOf;
    var p := prot.Kind();
    ghost var s := prot.State();
    if f.value.VBool? {
      BoolParts(f.value.b);
      prot.WriteFieldBegin(BOOL, f.id);
      prot.WriteBool(f.value.b);
    } else {
      NotBool(f.value);
      prot.WriteFieldBegin(TypeOf(f.value), f.id);
      WriteValue(prot, f.value);
    }
    NoMarksOnBinary(f.value, s.lastField, s.lastFieldId);
    assert prot.State().trans == s.trans + EncField(p, last, f);
    ghost var before := prot.State();
    prot.WriteFieldEnd();
    if p.Compact? {
      assert before.marks == s.marks + Marks(p, f.value, s.lastField, f.id);
      assert before.marks + [Mark(s.lastField, f.id, true)] == s.marks + OneFieldMarks(p, f, s.lastField);
    }
  }

  lemma NotBool(v: Value)
    requires !v.VBool?
    ensures TypeOf(v) != BOOL
  {}

  lemma BoolParts(b: bool)
    ensures TypeOf(VBool(b)) == BOOL
    ensures forall p, stack, last :: Marks(p, VBool(b), stack, last) == []
    ensures Enc(Binary, VBool(b)) == [EncBool(Binary, b)]
  {}

  // ---------------------------------------------------------------- reading

  method ReadValue(prot: TProtocol, t: Byte) returns (r: Result<Value>)
    requires prot.Valid()
    modifies prot.Repr()
    ensures Step(r, prot.State()) == Trees.ReadValue(prot.Kind(), old(prot.State()), t)
    decreases |prot.State().trans|, 1, 0
  {
    hide Trees.ReadFields, Trees.ReadAll, Trees.ReadEntries, Trees.ReadScalar, Wire.ReadMapBegin, Wire.ReadListBegin;
    if t == STRUCT {
      r := ReadStruct(prot);
    } else if t == MAP {
      var h := prot.ReadMapBegin();
      if h.Err? {
        return Err(h.error);
      }
      var es := ReadEntries(prot, h.value.keyType, h.value.valueType, h.value.size);
      if es.Err? {
        return Err(es.error);
      }
      r := Ok(VMap(h.value.keyType, h.value.valueType, es.value));
    } else if t == SET || t == LIST {
      var h := prot.ReadListBegin();
      if h.Err? {
        return Err(h.error);
      }
      var vs := ReadAll(prot, h.value.elemType, h.value.size);
      if vs.Err? {
        return Err(vs.error);
      }
      r := Ok(if t == SET then VSet(h.value.elemType, vs.value) else VList(h.value.elemType, vs.value));
    } else {
      r := ReadScalar(prot, t);
    }
  }

  method ReadScalar(prot: TProtocol, t: Byte) returns (r: Result<Value>)
    requires prot.Valid()
    modifies prot.Repr()
    ensures Step(r, prot.State()) == Trees.ReadScalar(prot.Kind(), old(prot.State()), t)
  {
    hide Wire.ReadBool, Wire.ReadByte, Wire.ReadI16, Wire.ReadI32, Wire.ReadI64, Wire.ReadDouble, Wire.ReadString;
    if t == BOOL {
      var a := prot.ReadBool();
      r := if a.Ok? then Ok(VBool(a.value)) else Err(a.error);
    } else if t == BYTE {
      var a := prot.ReadByte();
      r := if a.Ok? then Ok(VByte(a.value)) else Err(a.error);
    } else if t == I16T {
      var a := prot.ReadI16();
      r := if a.Ok? then Ok(VI16(a.value)) else Err(a.error);
    } else if t == I32T {
      var a := prot.ReadI32();
      r := if a.Ok? then Ok(VI32(a.value)) else Err(a.error);
    } else if t == I64T {
      var a := prot.ReadI64();
      r := if a.Ok? then Ok(VI64(a.value)) else Err(a.error);
    } else if t == DOUBLE {
      var a := prot.ReadDouble();
      r := if a.Ok? then Ok(VDouble(a.value)) else Err(a.error);
    } else if t == STRING {
      var a := prot.ReadString();
      r := if a.Ok? then Ok(VString(a.value)) else Err(a.error);
    } else {
      r := Err(InvalidData);
    }
  }

  /** ReadStructEnd finds the id that ReadStructBegin pushed: nothing below it is ever popped. */
  method ReadStruct(prot: TProtocol) returns (r: Result<Value>)
    requires prot.Valid()
    modifies prot.Repr()
    ensures Step(r, prot.State()) == Trees.ReadValue(prot.Kind(), old(prot.State()), STRUCT)
    decreases |prot.State().trans|, 0, 1
  {
    hide Trees.ReadFields;
    prot.ReadStructBegin();
    FieldsKeepStack(prot.Kind(), prot.State());
    var fs := ReadFields(prot);
    if fs.Err? {
      return Err(fs.error);
    }
    prot.ReadStructEnd();
    r := Ok(VStruct(fs.value));
  }

  method ReadFields(prot: TProtocol) returns (r: Result<seq<Field>>)
    requires prot.Valid()
    modifies prot.Repr()
    ensures Step(r, prot.State()) == Trees.ReadFields(prot.Kind(), old(prot.State()))
    decreases |prot.State().trans|, 0, 0
  {
    hide Wire.ReadFieldBegin, Trees.ReadValue;
    ghost var s0, p := prot.State(), prot.Kind();
    var fields: seq<Field> := [];
    PrependNone(fields, Trees.ReadFields(p, s0));
    while true
      invariant |prot.State().trans| <= |s0.trans|
      invariant Trees.ReadFields(p, s0) == Prepend(fields, Trees.ReadFields(p, prot.State()))
      decreases |prot.State().trans|
    {
      var typeId, id, err := prot.ReadFieldBegin();
      if err.Some? {
        return Err(err.value);
      }
      if typeId == STOP {
        break;
      }
      var v := ReadValue(prot, typeId);
      if v.Err? {
        return Err(v.error);
      }
      prot.ReadFieldEnd();
      PrependOne(fields, Field(id, v.value), Trees.ReadFields(p, prot.State()));
      fields := fields + [Field(id, v.value)];
    }
    PrependNone(fields, Trees.ReadFields(p, s0).(s := prot.State()));
    r := Ok(fields);
  }

  /** What a reading loop has gathered, in front of what the rest of the reading gives. */
  function Prepend<T>(done: seq<T>, st: Step<seq<T>>): Step<seq<T>> {
    if st.r.Err? then st else Step(Ok(done + st.r.value), st.s)
  }

  lemma PrependNone<T>(done: seq<T>, st: Step<seq<T>>)
    ensures Prepend([], st) == st
    ensures Prepend(done, Step(Ok([]), st.s)) == Step(Ok(done), st.s)
  {
    assert done + [] == done;
    if st.r.Ok? { assert [] + st.r.value == st.r.value; }
  }

  lemma PrependOne<T>(done: seq<T>, x: T, st: Step<seq<T>>)
    ensures Prepend(done + [x], st) == Prepend(done, Prepend([x], st))
  {
    if st.r.Ok? { assert done + [x] + st.r.value == done + ([x] + st.r.value); }
  }

  method ReadAll(prot: TProtocol, t: Byte, n: nat) returns (r: Result<seq<Value>>)
    requires prot.Valid()
    modifies prot.Repr()
    ensures Step(r, prot.State()) == Trees.ReadAll(prot.Kind(), old(prot.State()), t, n)
    decreases |prot.State().trans|, 2, 0
  {
    hide Trees.ReadValue;
    ghost var s0, p := prot.State(), prot.Kind();
    var vs: seq<Value> := [];
    PrependNone(vs, Trees.ReadAll(p, s0, t, n));
    for i := 0 to n
      invariant |prot.State().trans| <= |s0.trans|
      invariant Trees.ReadAll(p, s0, t, n) == Prepend(vs, Trees.ReadAll(p, prot.State(), t, n - i))
    {
      var v := ReadValue(prot, t);
      if v.Err? {
        return Err(v.error);
      }
      PrependOne(vs, v.value, Trees.ReadAll(p, prot.State(), t, n - i - 1));
      vs := vs + [v.value];
    }
    PrependNone(vs, Trees.ReadAll(p, prot.State(), t, 0));
    r := Ok(vs);
  }

  method ReadEntries(prot: TProtocol, kt: Byte, vt: Byte, n: nat) returns (r: Result<seq<Entry>>)
    requires prot.Valid()
    modifies prot.Repr()
    ensures Step(r, prot.State()) == Trees.ReadEntries(prot.Kind(), old(prot.State()), kt, vt, n)
    decreases |prot.State().trans|, 2, 0
  {
    hide Trees.ReadValue;
    ghost var s0, p := prot.State(), prot.Kind();
    var es: seq<Entry> := [];
    PrependNone(es, Trees.ReadEntries(p, s0, kt, vt, n));
    for i := 0 to n
      invariant |prot.State().trans| <= |s0.trans|
      invariant Trees.ReadEntries(p, s0, kt, vt, n) == Prepend(es, Trees.ReadEntries(p, prot.State(), kt, vt, n - i))
    {
      var k := ReadValue(prot, kt);
      if k.Err? {
        return Err(k.error);
      }
      var v := ReadValue(prot, vt);
      if v.Err? {
        return Err(v.error);
      }
      PrependOne(es, Entry(k.value, v.value), Trees.ReadEntries(p, prot.State(), kt, vt, n - i - 1));
      es := es + [Entry(k.value, v.value)];
    }
    PrependNone(es, Trees.ReadEntries(p, prot.State(), kt, vt, 0));
    r := Ok(es);
  }

  // ---------------------------------------------------------------- the field stack, on any bytes

  /** A value that reads without error gives the field stack back, whatever the bytes were. */
  lemma {:induction false} ValueKeepsStack(p: Proto, s: PState, t: Byte)
    ensures Trees.ReadValue(p, s, t).r.Ok? ==> Trees.ReadValue(p, s, t).s.lastField == s.lastField
    decreases |s.trans|, 1, 0
  {
    hide Trees.ReadScalar;
    if t == STRUCT {
      hide Trees.ReadFields;
      FieldsKeepStack(p, StructBegin(p, s));
      if p.Compact? { assert (s.lastField + [s.lastFieldId])[..|s.lastField|] == s.lastField; }
    } else if t == MAP {
      hide Trees.ReadEntries, Wire.ReadMapBegin;
      var h := Wire.ReadMapBegin(p, s);
      if h.r.Ok? { EntriesKeepStack(p, h.s, h.r.value.keyType, h.r.value.valueType, h.r.value.size); }
    } else if t == SET || t == LIST {
      hide Trees.ReadAll, Wire.ReadListBegin;
      var h := Wire.ReadListBegin(p, s);
      if h.r.Ok? { AllKeepStack(p, h.s, h.r.value.elemType, h.r.value.size); }
    } else {
      ScalarKeepsStack(p, s, t);
    }
  }

  lemma ScalarKeepsStack(p: Proto, s: PState, t: Byte)
    ensures Trees.ReadScalar(p, s, t).s.lastField == s.lastField
  {
    hide Wire.ReadBool, Wire.ReadByte, Wire.ReadI16, Wire.ReadI32, Wire.ReadI64, Wire.ReadDouble, Wire.ReadString;
  }

  lemma {:induction false} FieldsKeepStack(p: Proto, s: PState)
    ensures Trees.ReadFields(p, s).r.Ok? ==> Trees.ReadFields(p, s).s.lastField == s.lastField
    decreases |s.trans|, 0, 0
  {
    hide Wire.ReadFieldBegin, Trees.ReadValue;
    var h := Wire.ReadFieldBegin(p, s);
    if h.h.err.None? && h.h.typeId != STOP {
      ValueKeepsStack(p, h.s, h.h.typeId);
      var v := Trees.ReadValue(p, h.s, h.h.typeId);
      if v.r.Ok? { FieldsKeepStack(p, FieldEnd(p, v.s)); }
    }
  }

  lemma {:induction false} AllKeepStack(p: Proto, s: PState, t: Byte, n: nat)
    ensures Trees.ReadAll(p, s, t, n).r.Ok? ==> Trees.ReadAll(p, s, t, n).s.lastField == s.lastField
    decreases |s.trans|, 2, n
  {
    hide Trees.ReadValue;
    if n > 0 {
      ValueKeepsStack(p, s, t);
      var v := Trees.ReadValue(p, s, t);
      if v.r.Ok? { AllKeepStack(p, v.s, t, n - 1); }
    }
  }

  lemma {:induction false} EntriesKeepStack(p: Proto, s: PState, kt: Byte, vt: Byte, n: nat)
    ensures Trees.ReadEntries(p, s, kt, vt, n).r.Ok? ==> Trees.ReadEntries(p, s, kt, vt, n).s.lastField == s.lastField
    decreases |s.trans|, 2, n
  {
    hide Trees.ReadValue;
    if n > 0 {
      ValueKeepsStack(p, s, kt);
      var k := Trees.ReadValue(p, s, kt);
      if k.r.Ok? {
        ValueKeepsStack(p, k.s, vt);
        var v := Trees.ReadValue(p, k.s, vt);
        if v.r.Ok? { EntriesKeepStack(p, v.s, kt, vt, n - 1); }
      }
    }
  }

  // ---------------------------------------------------------------- there and back

  method NewProtocol(p: Proto, bytes: seq<Byte>) returns (prot: TProtocol)
    ensures prot.Kind() == p && prot.Valid() && fresh(prot.Repr())
    ensures prot.State() == PState(bytes, [], 0, 0, false, false, false, [])
  {
    match p
    case Compact => var c := new TCompactProtocol(bytes); prot := CompactP(c);
    case Binary => var b := new TBinaryProtocol(bytes); prot := BinaryP(b);
  }

  /** One protocol object writes a value, another reads it from those bytes and any others after
      them: the tree comes back, the other bytes are left, and both passed through the same field
      stacks and ids. */
  method WriteThenRead(p: Proto, v: Value, rest: seq<Byte>)
    returns (bytes: seq<Byte>, r: Result<Value>, unread: seq<Byte>, ghost written: seq<Mark>, ghost read: seq<Mark>)
    requires WellTyped(v)
    ensures bytes == Enc(p, v)
    ensures r == Ok(Norm(p, v)) && unread == rest
    ensures written == read == Marks(p, v, [], 0)
  {
    hide Enc, Norm, Marks, Trees.ReadValue;
    var w := NewProtocol(p, []);
    WriteValue(w, v);
    bytes := match w case CompactP(c) => c.trans case BinaryP(b) => b.trans;
    written := w.State().marks;
    var q := NewProtocol(p, bytes + rest);
    ValueBack(p, v, q.State(), rest);
    r := ReadValue(q, TypeOf(v));
    unread := match q case CompactP(c) => c.trans case BinaryP(b) => b.trans;
    read := q.State().marks;
  }
}
