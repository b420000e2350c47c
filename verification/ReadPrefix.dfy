/** Reading is local: bytes after those that a value takes make no difference, and an encoding cut
    short anywhere is reported as the end of the input. */
module ReadPrefix {
  import opened Options
  import opened Words
  import opened Varint
  import opened Values
  import opened Wire
  import opened Trees
  import opened RoundTrip

  /** The reader with more bytes after its input. */
  function Extend(s: PState, more: seq<Byte>): PState { s.(trans := s.trans + more) }

  /** What a call returns, with more bytes left. */
  function Longer<T>(st: Step<T>, more: seq<Byte>): Step<T> { Step(st.r, Extend(st.s, more)) }

  // ---------------------------------------------------------------- primitives

  lemma FullExtends(s: PState, n: nat, more: seq<Byte>)
    ensures ReadFull(s, n).r != Err(EndOfFile) ==> ReadFull(Extend(s, more), n) == Longer(ReadFull(s, n), more)
    ensures ReadFull(s, n).r.Err? ==> ReadFull(s, n).r == Err(EndOfFile)
  {
    if n <= |s.trans| {
      assert (s.trans + more)[..n] == s.trans[..n] && (s.trans + more)[n..] == s.trans[n..] + more;
    }
  }

  lemma ByteExtends(s: PState, more: seq<Byte>)
    ensures ReadByteDirect(s).r != Err(EndOfFile) ==>
      ReadByteDirect(Extend(s, more)) == Longer(ReadByteDirect(s), more)
    ensures ReadByteDirect(s).r.Err? ==> ReadByteDirect(s).r == Err(EndOfFile)
  {
    if s.trans != [] { assert (s.trans + more)[1..] == s.trans[1..] + more; }
  }

  lemma {:induction false} UndigitsExtends(b: seq<Byte>, more: seq<Byte>)
    ensures Undigits(b).Some? ==>
      Undigits(b + more) == Some((Undigits(b).value.0, Undigits(b).value.1 + more))
  {
    if b != [] {
      assert (b + more)[1..] == b[1..] + more;
      if b[0] >= 0x80 { UndigitsExtends(b[1..], more); }
    }
  }

  lemma VarintExtends(s: PState, more: seq<Byte>)
    ensures ReadVarint64(s).r != Err(EndOfFile) ==> ReadVarint64(Extend(s, more)) == Longer(ReadVarint64(s), more)
    ensures ReadVarint64(s).r.Err? ==> ReadVarint64(s).r == Err(EndOfFile)
  {
    hide Undigits, ToI64;
    UndigitsExtends(s.trans, more);
  }

  lemma IntsExtend(p: Proto, s: PState, more: seq<Byte>)
    ensures ReadI16(p, s).r != Err(EndOfFile) ==> ReadI16(p, Extend(s, more)) == Longer(ReadI16(p, s), more)
    ensures ReadI32(p, s).r != Err(EndOfFile) ==> ReadI32(p, Extend(s, more)) == Longer(ReadI32(p, s), more)
    ensures ReadI64(p, s).r != Err(EndOfFile) ==> ReadI64(p, Extend(s, more)) == Longer(ReadI64(p, s), more)
    ensures ReadDouble(p, s).r != Err(EndOfFile) ==> ReadDouble(p, Extend(s, more)) == Longer(ReadDouble(p, s), more)
  {
    hide ReadVarint64, ReadFull, ToI16, ToI32, ToI64, ToU32, ToU64, UnZigZag, FromBigEndian, FromLittleEndian;
    VarintExtends(s, more);
    FullExtends(s, 2, more);
    FullExtends(s, 4, more);
    FullExtends(s, 8, more);
  }

  lemma LengthExtends(p: Proto, s: PState, more: seq<Byte>)
    ensures ReadLength(p, s).r != Err(EndOfFile) ==> ReadLength(p, Extend(s, more)) == Longer(ReadLength(p, s), more)
  {
    hide ReadVarint64, ReadFull, ToI32, FromBigEndian;
    VarintExtends(s, more);
    FullExtends(s, 4, more);
  }

  lemma StringExtends(p: Proto, s: PState, more: seq<Byte>)
    ensures ReadString(p, s).r != Err(EndOfFile) ==> ReadString(p, Extend(s, more)) == Longer(ReadString(p, s), more)
  {
    hide ReadLength, ReadFull;
    LengthExtends(p, s, more);
    if ReadLength(p, s).r.Ok? { FullExtends(ReadLength(p, s).s, ReadLength(p, s).r.value, more); }
  }

  lemma ScalarExtends(p: Proto, s: PState, t: Byte, more: seq<Byte>)
    ensures ReadScalar(p, s, t).r != Err(EndOfFile) ==>
      ReadScalar(p, Extend(s, more), t) == Longer(ReadScalar(p, s, t), more)
  {
    hide ReadByteDirect, ReadI16, ReadI32, ReadI64, ReadDouble, ReadString;
    ByteExtends(s, more);
    IntsExtend(p, s, more);
    StringExtends(p, s, more);
  }

  // ---------------------------------------------------------------- headers

  lemma HeaderExtends(p: Proto, s: PState, more: seq<Byte>)
    ensures ReadFieldBegin(p, s).h.err != Some(EndOfFile) ==>
      var h := ReadFieldBegin(p, s);
      ReadFieldBegin(p, Extend(s, more)) == Headed(h.h, Extend(h.s, more))
  {
    hide ReadByteDirect, ReadI16, ToI16, TTypeOf;
    ByteExtends(s, more);
    IntsExtend(p, ReadByteDirect(s).s, more);
  }

  lemma ListBeginExtends(p: Proto, s: PState, more: seq<Byte>)
    ensures ReadListBegin(p, s).r != Err(EndOfFile) ==>
      ReadListBegin(p, Extend(s, more)) == Longer(ReadListBegin(p, s), more)
  {
    hide ReadByteDirect, ReadLength, TTypeOf;
    ByteExtends(s, more);
    LengthExtends(p, ReadByteDirect(s).s, more);
  }

  lemma MapBeginExtends(p: Proto, s: PState, more: seq<Byte>)
    ensures ReadMapBegin(p, s).r != Err(EndOfFile) ==>
      ReadMapBegin(p, Extend(s, more)) == Longer(ReadMapBegin(p, s), more)
  {
    hide ReadByteDirect, ReadLength, TTypeOrStop;
    if p.Compact? {
      LengthExtends(p, s, more);
      ByteExtends(ReadLength(p, s).s, more);
    } else {
      ByteExtends(s, more);
      var k := ReadByteDirect(s);
      ByteExtends(k.s, more);
      LengthExtends(p, ReadByteDirect(k.s).s, more);
    }
  }

  // ---------------------------------------------------------------- values

  /** On any bytes: unless reading hits the end of its input, more input changes nothing but what is
      left, whether it succeeds or fails. */
  lemma {:induction false} ReadExtends(p: Proto, s: PState, t: Byte, more: seq<Byte>)
    ensures ReadValue(p, s, t).r != Err(EndOfFile) ==>
      ReadValue(p, Extend(s, more), t) == Longer(ReadValue(p, s, t), more)
    decreases |s.trans|, 1, 0
  {
    if t == STRUCT {
      hide ReadFields;
      FieldsExtend(p, StructBegin(p, s), more);
      BeginsAlike(p, s, more);
      EndsAlike(p, ReadFields(p, StructBegin(p, s)).s, more);
      hide StructBegin, StructEnd;
    } else if t == MAP {
      hide ReadMapBegin, ReadEntries;
      MapBeginExtends(p, s, more);
      var h := ReadMapBegin(p, s);
      if h.r.Ok? { EntriesExtend(p, h.s, h.r.value.keyType, h.r.value.valueType, h.r.value.size, more); }
    } else if t == SET || t == LIST {
      hide ReadListBegin, ReadAll;
      ListBeginExtends(p, s, more);
      var h := ReadListBegin(p, s);
      if h.r.Ok? { AllExtend(p, h.s, h.r.value.elemType, h.r.value.size, more); }
    } else {
      ScalarExtends(p, s, t, more);
    }
  }

  lemma BeginsAlike(p: Proto, s: PState, more: seq<Byte>)
    ensures StructBegin(p, Extend(s, more)) == Extend(StructBegin(p, s), more)
  {}

  lemma EndsAlike(p: Proto, s: PState, more: seq<Byte>)
    ensures StructEnd(p, Extend(s, more)) == Extend(StructEnd(p, s), more)
    ensures FieldEnd(p, Extend(s, more)) == Extend(FieldEnd(p, s), more)
    ensures FieldEnd(p, s).trans == s.trans
  {}

  lemma {:induction false} FieldsExtend(p: Proto, s: PState, more: seq<Byte>)
    ensures ReadFields(p, s).r != Err(EndOfFile) ==>
      ReadFields(p, Extend(s, more)) == Longer(ReadFields(p, s), more)
    decreases |s.trans|, 0, 0
  {
    hide ReadFieldBegin, ReadValue, FieldEnd;
    HeaderExtends(p, s, more);
    var h := ReadFieldBegin(p, s);
    if h.h.err.None? && h.h.typeId != STOP {
      ReadExtends(p, h.s, h.h.typeId, more);
      var v := ReadValue(p, h.s, h.h.typeId);
      EndsAlike(p, v.s, more);
      if v.r.Ok? { FieldsExtend(p, FieldEnd(p, v.s), more); }
    }
  }

  lemma {:induction false} AllExtend(p: Proto, s: PState, t: Byte, n: nat, more: seq<Byte>)
    ensures ReadAll(p, s, t, n).r != Err(EndOfFile) ==>
      ReadAll(p, Extend(s, more), t, n) == Longer(ReadAll(p, s, t, n), more)
    decreases |s.trans|, 2, n
  {
    if n > 0 {
      hide ReadValue, Extend;
      ReadExtends(p, s, t, more);
      if ReadValue(p, s, t).r.Ok? { AllExtend(p, ReadValue(p, s, t).s, t, n - 1, more); }
    }
  }

  lemma {:induction false} EntriesExtend(p: Proto, s: PState, kt: Byte, vt: Byte, n: nat, more: seq<Byte>)
    ensures ReadEntries(p, s, kt, vt, n).r != Err(EndOfFile) ==>
      ReadEntries(p, Extend(s, more), kt, vt, n) == Longer(ReadEntries(p, s, kt, vt, n), more)
    decreases |s.trans|, 2, n
  {
    if n > 0 {
      hide ReadEntry, Extend;
      EntryExtends(p, s, kt, vt, more);
      var e := ReadEntry(p, s, kt, vt);
      if e.r.Ok? { EntriesExtend(p, e.s, kt, vt, n - 1, more); }
    }
  }

  lemma {:induction false} EntryExtends(p: Proto, s: PState, kt: Byte, vt: Byte, more: seq<Byte>)
    ensures ReadEntry(p, s, kt, vt).r != Err(EndOfFile) ==>
      ReadEntry(p, Extend(s, more), kt, vt) == Longer(ReadEntry(p, s, kt, vt), more)
    decreases |s.trans|, 2, 0
  {
    hide ReadValue, Extend;
    ReadExtends(p, s, kt, more);
    var k := ReadValue(p, s, kt);
    if k.r.Ok? { ReadExtends(p, k.s, vt, more); }
  }

  // ---------------------------------------------------------------- encodings cut short

  /** The encoding of any value, cut short anywhere, fails to read with the end of the input. */
  lemma CutShortIsEnd(p: Proto, v: Value, s: PState, more: seq<Byte>)
    requires WellTyped(v) && Clean(s) && Enc(p, v) == s.trans + more && more != []
    ensures ReadValue(p, s, TypeOf(v)).r == Err(EndOfFile)
  {
    hide ReadValue, Enc, WellTyped, Norm, Marks;
    var whole := Extend(s, more);
    assert whole.trans == Enc(p, v) + [];
    ValueBack(p, v, whole, []);
    ReadExtends(p, s, TypeOf(v), more);
  }

  /** So no encoding is the beginning of another of the same type: values delimit themselves. */
  lemma EncodingsDelimit(p: Proto, v: Value, w: Value, rest: seq<Byte>)
    requires WellTyped(v) && WellTyped(w) && TypeOf(v) == TypeOf(w) && Enc(p, v) == Enc(p, w) + rest
    ensures rest == [] && Norm(p, v) == Norm(p, w)
  {
    hide ReadValue, Enc, WellTyped, Norm, Marks;
    var s := PState(Enc(p, v), [], 0, 0, false, false, false, []);
    assert s.trans == Enc(p, v) + [];
    ValueBack(p, v, s, []);
    ValueBack(p, w, s, rest);
  }
}
