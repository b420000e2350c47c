/** What Skip's success is worth on any bytes: exactly when the bytes also read as a value, and what
    the errors that it drops let pass. */
module SkipErrors {
  import opened Words
  import opened Varint
  import opened Values
  import opened Wire
  import opened Trees
  import opened RoundTrip
  import opened Skipping
  import opened SkipLimits

  // ---------------------------------------------------------------- when nothing is dropped

  /** Along the run of Skip no field header errs, no map value fails, and nothing has type STOP. */
  predicate NothingDropped(p: Proto, s: PState, t: Byte, d: int)
    decreases |s.trans|, 1, 0
  {
    && t != STOP
    && (d > 0 ==>
      if t == STRUCT then NoFieldDropped(p, StructBegin(p, s), d)
      else if t == MAP then
        var h := ReadMapBegin(p, s);
        h.r.Ok? ==> NoEntryDropped(p, h.s, h.r.value.keyType, h.r.value.valueType, h.r.value.size, d)
      else if t == SET || t == LIST then
        var h := ReadListBegin(p, s);
        h.r.Ok? ==> NoElementDropped(p, h.s, h.r.value.elemType, h.r.value.size, d)
      else true)
  }

  predicate NoFieldDropped(p: Proto, s: PState, d: int)
    decreases |s.trans|, 0, 0
  {
    var h := ReadFieldBegin(p, s);
    && h.h.err.None?
    && (h.h.typeId != STOP ==>
      var v := Skip(p, h.s, h.h.typeId, d - 1);
      && NothingDropped(p, h.s, h.h.typeId, d - 1)
      && (v.r.Ok? ==> NoFieldDropped(p, FieldEnd(p, v.s), d)))
  }

  predicate NoElementDropped(p: Proto, s: PState, t: Byte, n: nat, d: int)
    decreases |s.trans|, 2, n
  {
    n == 0 ||
      var v := Skip(p, s, t, d - 1);
      NothingDropped(p, s, t, d - 1) && (v.r.Ok? ==> NoElementDropped(p, v.s, t, n - 1, d))
  }

  predicate NoEntryDropped(p: Proto, s: PState, kt: Byte, vt: Byte, n: nat, d: int)
    decreases |s.trans|, 2, n
  {
    n == 0 ||
      var k := Skip(p, s, kt, d - 1);
      && NothingDropped(p, s, kt, d - 1)
      && (k.r.Ok? ==>
        var v := Skip(p, k.s, vt, DEFAULT_RECURSION_DEPTH);
        && v.r.Ok? && NothingDropped(p, k.s, vt, DEFAULT_RECURSION_DEPTH)
        && NoEntryDropped(p, v.s, kt, vt, n - 1, d))
  }

  // ---------------------------------------------------------------- skipping implies reading

  /** The converse of SkipIsRead: what Skip passes without dropping an error reads as a value within
      the limit, and ends in the same state. */
  lemma {:induction false} SkippedReads(p: Proto, s: PState, t: Byte, d: int)
    requires Skip(p, s, t, d).r.Ok? && NothingDropped(p, s, t, d)
    ensures ReadValue(p, s, t).r.Ok? && Shallow(ReadValue(p, s, t).r.value, d)
    ensures ReadValue(p, s, t).s == Skip(p, s, t, d).s
    decreases |s.trans|, 1, 0
  {
    if t == STRUCT {
      hide ReadFields, SkipFields, NoFieldDropped;
      SkippedFieldsRead(p, StructBegin(p, s), d);
    } else if t == MAP {
      hide ReadMapBegin, ReadEntries, SkipEntries, NoEntryDropped;
      var h := ReadMapBegin(p, s);
      SkippedEntriesRead(p, h.s, h.r.value.keyType, h.r.value.valueType, h.r.value.size, d);
    } else if t == SET || t == LIST {
      hide ReadListBegin, ReadAll, SkipAll, NoElementDropped;
      var h := ReadListBegin(p, s);
      SkippedAllRead(p, h.s, h.r.value.elemType, h.r.value.size, d);
    } else {
      ScalarTypes(p, s, t);
    }
  }

  lemma {:induction false} SkippedFieldsRead(p: Proto, s: PState, d: int)
    requires SkipFields(p, s, d).r.Ok? && NoFieldDropped(p, s, d)
    ensures ReadFields(p, s).r.Ok? && ShallowFields(ReadFields(p, s).r.value, d - 1)
    ensures ReadFields(p, s).s == SkipFields(p, s, d).s
    decreases |s.trans|, 0, 0
  {
    hide ReadFieldBegin, ReadValue, Skip, FieldEnd, Shallow, NothingDropped;
    var h := ReadFieldBegin(p, s);
    if h.h.typeId != STOP {
      SkippedReads(p, h.s, h.h.typeId, d - 1);
      var v := ReadValue(p, h.s, h.h.typeId);
      FieldEndKeeps(p, v.s);
      var more := ReadFields(p, FieldEnd(p, v.s));
      SkippedFieldsRead(p, FieldEnd(p, v.s), d);
      var fields := ReadFields(p, s).r.value;
      assert fields[0] == Field(h.h.id, v.r.value) && fields[1..] == more.r.value;
    }
  }

  lemma {:induction false} SkippedAllRead(p: Proto, s: PState, t: Byte, n: nat, d: int)
    requires SkipAll(p, s, t, n, d).r.Ok? && NoElementDropped(p, s, t, n, d)
    ensures ReadAll(p, s, t, n).r.Ok? && ShallowAll(ReadAll(p, s, t, n).r.value, d - 1)
    ensures ReadAll(p, s, t, n).s == SkipAll(p, s, t, n, d).s
    decreases |s.trans|, 2, n
  {
    hide ReadValue, Skip, Shallow, NothingDropped;
    if n > 0 {
      SkippedReads(p, s, t, d - 1);
      var v := ReadValue(p, s, t);
      SkippedAllRead(p, v.s, t, n - 1, d);
      var vs := ReadAll(p, s, t, n).r.value;
      assert vs[0] == v.r.value && vs[1..] == ReadAll(p, v.s, t, n - 1).r.value;
    }
  }

  lemma {:induction false} SkippedEntriesRead(p: Proto, s: PState, kt: Byte, vt: Byte, n: nat, d: int)
    requires SkipEntries(p, s, kt, vt, n, d).r.Ok? && NoEntryDropped(p, s, kt, vt, n, d)
    ensures ReadEntries(p, s, kt, vt, n).r.Ok? && ShallowEntries(ReadEntries(p, s, kt, vt, n).r.value, d - 1)
    ensures ReadEntries(p, s, kt, vt, n).s == SkipEntries(p, s, kt, vt, n, d).s
    decreases |s.trans|, 2, n
  {
    hide ReadValue, Skip, Shallow, NothingDropped;
    if n > 0 {
      SkippedReads(p, s, kt, d - 1);
      var k := ReadValue(p, s, kt);
      SkippedReads(p, k.s, vt, DEFAULT_RECURSION_DEPTH);
      var e := ReadEntry(p, s, kt, vt);
      SkippedEntriesRead(p, e.s, kt, vt, n - 1, d);
      var es := ReadEntries(p, s, kt, vt, n).r.value;
      assert es[0] == e.r.value && es[1..] == ReadEntries(p, e.s, kt, vt, n - 1).r.value;
    }
  }

  // ---------------------------------------------------------------- reading drops nothing

  lemma {:induction false} ReadingDropsNothing(p: Proto, s: PState, t: Byte, d: int)
    requires ReadValue(p, s, t).r.Ok? && Shallow(ReadValue(p, s, t).r.value, d)
    ensures NothingDropped(p, s, t, d)
    decreases |s.trans|, 1, 0
  {
    if t == STRUCT {
      hide ReadFields, NoFieldDropped;
      ReadingFieldsDropsNone(p, StructBegin(p, s), d);
    } else if t == MAP {
      hide ReadMapBegin, ReadEntries, NoEntryDropped;
      var h := ReadMapBegin(p, s);
      ReadingEntriesDropsNone(p, h.s, h.r.value.keyType, h.r.value.valueType, h.r.value.size, d);
    } else if t == SET || t == LIST {
      hide ReadListBegin, ReadAll, NoElementDropped;
      var h := ReadListBegin(p, s);
      ReadingAllDropsNone(p, h.s, h.r.value.elemType, h.r.value.size, d);
    } else {
      ScalarTypes(p, s, t);
    }
  }

  lemma {:induction false} ReadingFieldsDropsNone(p: Proto, s: PState, d: int)
    requires ReadFields(p, s).r.Ok? && ShallowFields(ReadFields(p, s).r.value, d - 1)
    ensures NoFieldDropped(p, s, d)
    decreases |s.trans|, 0, 0
  {
    hide ReadFieldBegin, ReadValue, Skip, FieldEnd, Shallow, NothingDropped;
    var h := ReadFieldBegin(p, s);
    if h.h.typeId != STOP {
      var v := ReadValue(p, h.s, h.h.typeId);
      var fields := ReadFields(p, s).r.value;
      assert fields[0] == Field(h.h.id, v.r.value) && fields[1..] == ReadFields(p, FieldEnd(p, v.s)).r.value;
      SkipIsRead(p, h.s, h.h.typeId, d - 1);
      ReadingDropsNothing(p, h.s, h.h.typeId, d - 1);
      FieldEndKeeps(p, v.s);
      ReadingFieldsDropsNone(p, FieldEnd(p, v.s), d);
    }
  }

  lemma {:induction false} ReadingAllDropsNone(p: Proto, s: PState, t: Byte, n: nat, d: int)
    requires ReadAll(p, s, t, n).r.Ok? && ShallowAll(ReadAll(p, s, t, n).r.value, d - 1)
    ensures NoElementDropped(p, s, t, n, d)
    decreases |s.trans|, 2, n
  {
    hide ReadValue, Skip, Shallow, NothingDropped;
    if n > 0 {
      var v := ReadValue(p, s, t);
      var vs := ReadAll(p, s, t, n).r.value;
      assert vs[0] == v.r.value && vs[1..] == ReadAll(p, v.s, t, n - 1).r.value;
      SkipIsRead(p, s, t, d - 1);
      ReadingDropsNothing(p, s, t, d - 1);
      ReadingAllDropsNone(p, v.s, t, n - 1, d);
    }
  }

  lemma {:induction false} ReadingEntriesDropsNone(p: Proto, s: PState, kt: Byte, vt: Byte, n: nat, d: int)
    requires ReadEntries(p, s, kt, vt, n).r.Ok? && ShallowEntries(ReadEntries(p, s, kt, vt, n).r.value, d - 1)
    ensures NoEntryDropped(p, s, kt, vt, n, d)
    decreases |s.trans|, 2, n
  {
    hide ReadValue, Skip, Shallow, NothingDropped;
    if n > 0 {
      var k := ReadValue(p, s, kt);
      var e := ReadEntry(p, s, kt, vt);
      var es := ReadEntries(p, s, kt, vt, n).r.value;
      assert es[0] == e.r.value && es[1..] == ReadEntries(p, e.s, kt, vt, n - 1).r.value;
      SkipIsRead(p, s, kt, d - 1);
      ReadingDropsNothing(p, s, kt, d - 1);
      SkipIsRead(p, k.s, vt, DEFAULT_RECURSION_DEPTH);
      ReadingDropsNothing(p, k.s, vt, DEFAULT_RECURSION_DEPTH);
      ReadingEntriesDropsNone(p, e.s, kt, vt, n - 1, d);
    }
  }

  /** On any bytes: Skip succeeds without dropping an error if and only if the bytes read as a value
      within the depth limit, and then it stands where reading does. */
  lemma SkipReadsIff(p: Proto, s: PState, t: Byte, d: int)
    ensures Skip(p, s, t, d).r.Ok? && NothingDropped(p, s, t, d)
      <==> ReadValue(p, s, t).r.Ok? && Shallow(ReadValue(p, s, t).r.value, d)
    ensures Skip(p, s, t, d).r.Ok? && NothingDropped(p, s, t, d) ==>
      Skip(p, s, t, d).s == ReadValue(p, s, t).s
  {
    hide *;
    if Skip(p, s, t, d).r.Ok? && NothingDropped(p, s, t, d) { SkippedReads(p, s, t, d); }
    if ReadValue(p, s, t).r.Ok? && Shallow(ReadValue(p, s, t).r.value, d) {
      SkipIsRead(p, s, t, d);
      ReadingDropsNothing(p, s, t, d);
    }
  }

  // ---------------------------------------------------------------- a field header that errs

  /** The bytes on which ReadFieldBegin reports an error: none at all, an id cut short or, in compact,
      a type code above 12. */
  predicate BadHeader(p: Proto, b: seq<Byte>) {
    b == [] ||
      match p
      case Compact =>
        b[0] % 0x10 != 0 && (b[0] % 0x10 > 12 || (b[0] < 0x10 && !EndsWithin(b[1..], |b| - 1)))
      case Binary => b[0] != STOP && |b| < 3
  }

  lemma BadHeaderIff(p: Proto, s: PState)
    ensures ReadFieldBegin(p, s).h.err.Some? <==> BadHeader(p, s.trans)
  {
    hide Undigits, ToI16, UnZigZag, FromBigEndian;
    if s.trans != [] { ConsumedWithinIff(s.trans[1..], 0); }
  }

  /** Where Skip takes such a header for the end of a struct: everywhere in compact; in binary when
      there is nothing, or when what was cut short is a struct that there is depth for. */
  predicate PassesForEnd(p: Proto, b: seq<Byte>, d: int) {
    p.Compact? || b == [] || (b[0] == STRUCT && d > 1)
  }

  /** On empty input, exactly what Skip and what reading make of each type. */
  lemma SkipNothingIff(p: Proto, s: PState, t: Byte, d: int)
    requires s.trans == []
    ensures var held := t == BOOL && p.Compact? && s.boolValueIsNotNull;
      && (Skip(p, s, t, d).r.Ok? <==> d > 0 && (t == STOP || t == STRUCT || held))
      && (ReadValue(p, s, t).r.Ok? <==> held)
  {
    hide ReadMapBegin, ReadListBegin, SkipEntries, SkipAll, SkipFields, SkipScalar, ReadFields, ReadAll, ReadScalar;
    NoFieldInNothing(p, StructBegin(p, s), d);
    NoScalarInNothing(p, s, t);
  }

  lemma NoFieldInNothing(p: Proto, s: PState, d: int)
    requires s.trans == []
    ensures SkipFields(p, s, d).r.Ok? && ReadFields(p, s).r.Err?
  {
  }

  lemma NoScalarInNothing(p: Proto, s: PState, t: Byte)
    requires s.trans == []
    ensures var held := t == BOOL && p.Compact? && s.boolValueIsNotNull;
      && (ReadScalar(p, s, t).r.Ok? <==> held) && (SkipScalar(p, s, t).r.Ok? <==> held)
  {
    hide FromBigEndian, FromLittleEndian, ToI16, ToI32, ToI64, ToU32, ToU64, UnZigZag;
  }

  /** At a header that errs reading fails, and Skip ends the struct there or fails. */
  lemma BadHeaderSkipIff(p: Proto, s: PState, d: int)
    requires BadHeader(p, s.trans)
    ensures ReadFields(p, s).r.Err?
    ensures SkipFields(p, s, d).r.Ok? <==> PassesForEnd(p, s.trans, d)
    ensures SkipFields(p, s, d).r.Ok? ==> SkipFields(p, s, d).s.trans == ReadFieldBegin(p, s).s.trans
  {
    BadHeaderIff(p, s);
    hide ReadValue, Skip;
    var h := ReadFieldBegin(p, s);
    if p.Binary? && s.trans != [] {
      SkipNothingIff(p, h.s, h.h.typeId, d - 1);
    }
  }

  // ---------------------------------------------------------------- over a whole struct

  /** Fields without the stop byte. */
  function EncOpen(p: Proto, last: int, fields: seq<Field>): seq<Byte>
    decreases |fields|
  {
    if fields == [] then [] else EncField(p, last, fields[0]) + EncOpen(p, fields[0].id, fields[1..])
  }

  lemma {:induction false} EncOpenStop(p: Proto, last: int, fields: seq<Field>)
    ensures EncFields(p, last, fields) == EncOpen(p, last, fields) + [STOP]
    decreases |fields|
  {
    hide EncField;
    if fields != [] { EncOpenStop(p, fields[0].id, fields[1..]); }
  }

  /** How far a header goes depends on the bytes alone. */
  lemma HeaderEndsAlike(p: Proto, s: PState, s': PState)
    requires s.trans == s'.trans
    ensures ReadFieldBegin(p, s).s.trans == ReadFieldBegin(p, s').s.trans
  {
    hide CompactFieldBegin, BinaryFieldBegin;
    var a, a' := ReadByteDirect(s), ReadByteDirect(s');
    if a.r.Ok? { IdEndsAlike(p, a.r.value, a.s, a'.s); }
  }

  lemma IdEndsAlike(p: Proto, t: Byte, s: PState, s': PState)
    requires s.trans == s'.trans
    ensures p.Compact? ==> CompactFieldBegin(t, s).s.trans == CompactFieldBegin(t, s').s.trans
    ensures p.Binary? ==> BinaryFieldBegin(t, s).s.trans == BinaryFieldBegin(t, s').s.trans
  {
    hide ReadI16, ToI16, TTypeOf;
    I16EndsAlike(p, s, s');
  }

  lemma I16EndsAlike(p: Proto, s: PState, s': PState)
    requires s.trans == s'.trans
    ensures ReadI16(p, s).s.trans == ReadI16(p, s').s.trans && ReadI16(p, s).r == ReadI16(p, s').r
  {
    hide ReadVarint64, ReadFull, ToI16, ToI32, ToU32, UnZigZag, FromBigEndian;
    VarintEndsAlike(s, s');
  }

  lemma VarintEndsAlike(s: PState, s': PState)
    requires s.trans == s'.trans
    ensures ReadVarint64(s).s.trans == ReadVarint64(s').s.trans && ReadVarint64(s).r == ReadVarint64(s').r
    ensures ReadFull(s, 2).s.trans == ReadFull(s', 2).s.trans && ReadFull(s, 2).r == ReadFull(s', 2).r
  {
    hide Undigits, ToI64;
  }

  lemma {:induction false} CutFields(p: Proto, last: int, fields: seq<Field>, s: PState, tail: seq<Byte>, d: int)
    requires WellTypedFields(fields) && ShallowFields(fields, d - 1) && Clean(s)
    requires s.trans == EncOpen(p, last, fields) + tail && BadHeader(p, tail)
    requires -0x8000 <= last < 0x8000 && (p.Compact? ==> last == s.lastFieldId)
    ensures ReadFields(p, s).r.Err?
    ensures SkipFields(p, s, d).r.Ok? <==> PassesForEnd(p, tail, d)
    ensures SkipFields(p, s, d).r.Ok? ==>
      SkipFields(p, s, d).s.trans == ReadFieldBegin(p, s.(trans := tail)).s.trans
    decreases |fields|
  {
    if fields == [] {
      assert s.trans == tail;
      BadHeaderSkipIff(p, s, d);
    } else {
      hide Enc, EncField, EncOpen, ReadFieldBegin, ReadFields, SkipFields, Shallow, WellTyped, BadHeader, PassesForEnd;
      var f := fields[0];
      var more := EncOpen(p, f.id, fields[1..]) + tail;
      assert s.trans == EncField(p, last, f) + more;
      var next := SkipFieldBack(p, last, f, s, more, d);
      CutFields(p, f.id, fields[1..], next, tail, d);
      HeaderEndsAlike(p, s.(trans := tail), next.(trans := tail));
    }
  }

  /** A field that fits is skipped as it is read. */
  lemma SkipFieldBack(p: Proto, last: int, f: Field, s: PState, rest: seq<Byte>, d: int) returns (next: PState)
    requires WellTypedField(f) && ShallowField(f, d - 1) && Clean(s) && s.trans == EncField(p, last, f) + rest
    requires -0x8000 <= last < 0x8000 && (p.Compact? ==> last == s.lastFieldId)
    ensures SkipFields(p, s, d) == SkipFields(p, next, d)
    ensures ReadFields(p, next).r.Err? ==> ReadFields(p, s).r.Err?
    ensures next.trans == rest && Clean(next) && (p.Compact? ==> next.lastFieldId == f.id)
  {
    hide EncField, ReadFieldBegin, ReadValue, Skip, Norm, Marks, Shallow, WellTyped;
    var h, v := FieldBack(p, last, f, s, rest);
    NormKeepsDepth(p, f.value, d - 1);
    SkipIsRead(p, h.s, TypeOf(f.value), d - 1);
    next := FieldEnd(p, v);
  }

  /** A struct whose fields fit and whose next header errs: it never reads, and Skip reports it as
      skipped, up to the end of that header, if and only if the header passes for the end. */
  lemma CutStructSkipIff(p: Proto, fields: seq<Field>, s: PState, tail: seq<Byte>, d: int)
    requires WellTypedFields(fields) && ShallowFields(fields, d - 1) && Clean(s)
    requires s.trans == EncOpen(p, 0, fields) + tail && BadHeader(p, tail)
    ensures ReadValue(p, s, STRUCT).r.Err?
    ensures Skip(p, s, STRUCT, d).r.Ok? <==> d > 0 && PassesForEnd(p, tail, d)
    ensures Skip(p, s, STRUCT, d).r.Ok? ==>
      Skip(p, s, STRUCT, d).s.trans == ReadFieldBegin(p, s.(trans := tail)).s.trans
  {
    hide ReadFields, SkipFields, EncOpen, BadHeader, PassesForEnd, WellTypedFields, ShallowFields, ReadFieldBegin;
    var inner := StructBegin(p, s);
    CutFields(p, 0, fields, inner, tail, d);
    HeaderEndsAlike(p, s.(trans := tail), inner.(trans := tail));
  }

  // ---------------------------------------------------------------- a map cut before its last value

  lemma {:induction false} CutEntries(p: Proto, kt: Byte, vt: Byte, front: seq<Entry>, key: Value, s: PState, d: int)
    requires WellTypedEntries(kt, vt, front) && TypeOf(key) == kt && WellTyped(key) && Clean(s)
    requires ShallowEntries(front, d - 1) && Shallow(key, d - 1)
    requires s.trans == EncEntries(p, front) + Enc(p, key)
    ensures SkipEntries(p, s, kt, vt, |front| + 1, d).r.Ok? && ReadEntries(p, s, kt, vt, |front| + 1).r.Err?
    ensures SkipEntries(p, s, kt, vt, |front| + 1, d).s.trans == []
    decreases |front|
  {
    hide Enc, EncEntry, ReadValue, Skip, Norm, Marks, Shallow, WellTyped, SkipEntries, EncEntries;
    SkipEntriesTurn(p, s, kt, vt, |front| + 1, d);
    if front == [] {
      EncEntriesTurn(p, front);
      assert s.trans == Enc(p, key) + [];
      ValueBack(p, key, s, []);
      NormKeepsDepth(p, key, d - 1);
      SkipIsRead(p, s, kt, d - 1);
      var k := ReadValue(p, s, kt).s;
      SkipNothingIff(p, k, vt, DEFAULT_RECURSION_DEPTH);
      SkipEntriesTurn(p, Skip(p, k, vt, DEFAULT_RECURSION_DEPTH).s, kt, vt, 0, d);
      assert |Skip(p, k, vt, DEFAULT_RECURSION_DEPTH).s.trans| == 0;
      assert ReadEntry(p, s, kt, vt).r.Err? && ReadEntries(p, s, kt, vt, 1).r.Err?;
    } else {
      var e := front[0];
      var more := EncEntries(p, front[1..]) + Enc(p, key);
      EncEntriesTurn(p, front);
      assert s.trans == EncEntry(p, e) + more;
      SkipEntryBack(p, kt, vt, e, s, more, d - 1);
      CutEntries(p, kt, vt, front[1..], key, ReadEntry(p, s, kt, vt).s, d);
    }
  }

  lemma EncEntriesTurn(p: Proto, entries: seq<Entry>)
    ensures EncEntries(p, entries) ==
      if entries == [] then [] else EncEntry(p, entries[0]) + EncEntries(p, entries[1..])
  {
    hide EncEntry;
  }

  /** An entry that fits is skipped as it is read. */
  lemma SkipEntryBack(p: Proto, kt: Byte, vt: Byte, e: Entry, s: PState, rest: seq<Byte>, d: int)
    requires WellTypedEntry(kt, vt, e) && ShallowEntry(e, d) && Clean(s) && s.trans == EncEntry(p, e) + rest
    ensures var k := Skip(p, s, kt, d);
      var v := Skip(p, k.s, vt, DEFAULT_RECURSION_DEPTH);
      && k.r.Ok? && v.r.Ok? && ReadEntry(p, s, kt, vt).r.Ok? && v.s == ReadEntry(p, s, kt, vt).s
      && Clean(v.s) && v.s.trans == rest
  {
    hide Enc, ReadValue, Skip, Norm, Marks, Shallow, WellTyped;
    EntryBack(p, kt, vt, e, s, rest);
    NormKeepsDepth(p, e.key, d);
    NormKeepsDepth(p, e.value, DEFAULT_RECURSION_DEPTH);
    SkipIsRead(p, s, kt, d);
    SkipIsRead(p, ReadValue(p, s, kt).s, vt, DEFAULT_RECURSION_DEPTH);
  }

  /** A map whose entries fit and whose input ends before its last value: Skip reports it as skipped,
      and reading fails. */
  lemma CutMapSkipped(p: Proto, kt: Byte, vt: Byte, front: seq<Entry>, key: Value, s: PState, d: int)
    requires IsType(kt) && IsType(vt) && |front| < MAX_SIZE && Clean(s) && d > 0
    requires WellTypedEntries(kt, vt, front) && TypeOf(key) == kt && WellTyped(key)
    requires ShallowEntries(front, d - 1) && Shallow(key, d - 1)
    requires s.trans == EncMapHeader(p, kt, vt, |front| + 1) + (EncEntries(p, front) + Enc(p, key))
    ensures Skip(p, s, MAP, d).r.Ok? && Skip(p, s, MAP, d).s.trans == []
    ensures ReadValue(p, s, MAP).r.Err?
  {
    hide Enc, EncEntries, EncMapHeader, ReadMapBegin, ReadEntries, Skip, SkipEntries, Shallow, ShallowEntries;
    hide WellTyped, WellTypedEntries;
    var body := EncEntries(p, front) + Enc(p, key);
    ReadMapBeginOf(p, s, kt, vt, |front| + 1, body);
    CutEntries(p, kt, vt, front, key, s.(trans := body), d);
    SkipMapTurn(p, s, d);
  }

  // ---------------------------------------------------------------- instances

  /** The code 13 is no type: Skip takes it for the end of the struct. */
  lemma UnknownCodeEndsStruct(s: PState, rest: seq<Byte>, d: int)
    requires Clean(s) && s.trans == [0x1D] + rest && d > 0
    ensures Skip(Compact, s, STRUCT, d).r.Ok? && Skip(Compact, s, STRUCT, d).s.trans == rest
    ensures ReadValue(Compact, s, STRUCT).r.Err?
  {
    hide ReadValue, Skip, ReadFieldBegin;
    assert EncOpen(Compact, 0, []) + s.trans == s.trans;
    CutStructSkipIff(Compact, [], s, s.trans, d);
    UnknownCodeHeader(s, rest);
  }

  lemma UnknownCodeHeader(s: PState, rest: seq<Byte>)
    requires s.trans == [0x1D] + rest
    ensures ReadFieldBegin(Compact, s).s.trans == rest
  {
    hide ToI16;
    ReadByteOf(s, 0x1D, rest);
  }

  /** A binary header of a struct field that stops after its type: Skip is content with it. */
  lemma CutHeaderEndsStruct(s: PState, d: int)
    requires Clean(s) && s.trans == [STRUCT] && d > 1
    ensures Skip(Binary, s, STRUCT, d).r.Ok? && ReadValue(Binary, s, STRUCT).r.Err?
  {
    hide ReadValue, Skip, ReadFieldBegin;
    assert EncOpen(Binary, 0, []) + s.trans == s.trans;
    CutStructSkipIff(Binary, [], s, s.trans, d);
  }

  /** Elements, or entries, of type STOP: Skip passes over each without reading anything, and reading
      refuses. */
  lemma {:induction false} StopElementsSkipIff(p: Proto, s: PState, n: nat, d: int)
    ensures SkipAll(p, s, STOP, n, d).r.Ok? <==> n == 0 || d > 1
    ensures SkipEntries(p, s, STOP, STOP, n, d).r.Ok? <==> n == 0 || d > 1
    ensures SkipAll(p, s, STOP, n, d).s == s && SkipEntries(p, s, STOP, STOP, n, d).s == s
    ensures ReadAll(p, s, STOP, n).r.Ok? <==> n == 0
    ensures ReadEntries(p, s, STOP, STOP, n).r.Ok? <==> n == 0
    decreases n
  {
    if n > 0 { StopElementsSkipIff(p, s, n - 1, d); }
  }

  /** A type that is none: reading refuses it without taking a byte, and so does Skip, unless it is STOP. */
  lemma UnknownTypeRefused(p: Proto, s: PState, t: Byte, d: int)
    requires !IsType(t) && d > 0
    ensures ReadValue(p, s, t) == Step(Err(InvalidData), s)
    ensures Skip(p, s, t, d) == if t == STOP then Step(Ok(()), s) else Step(Err(InvalidData), s)
  {
  }
}
