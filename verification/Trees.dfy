/** Reading whole values back: the readers that generated code is made of, and the round trip. */
module Trees {
  import opened Options
  import opened Words
  import opened Varint
  import opened Values
  import opened Wire

  // ---------------------------------------------------------------- reading any bytes

  function ReadScalar(p: Proto, s: PState, t: Byte): (st: Step<Value>)
    ensures |st.s.trans| <= |s.trans|
  {
    if t == BOOL then
      var a := ReadBool(p, s);
      match a.r case Ok(b) => Step(Ok(VBool(b)), a.s) case Err(e) => Step(Err(e), a.s)
    else if t == BYTE then
      var a := ReadByte(s);
      match a.r case Ok(n) => Step(Ok(VByte(n)), a.s) case Err(e) => Step(Err(e), a.s)
    else if t == I16T then
      var a := ReadI16(p, s);
      match a.r case Ok(n) => Step(Ok(VI16(n)), a.s) case Err(e) => Step(Err(e), a.s)
    else if t == I32T then
      var a := ReadI32(p, s);
      match a.r case Ok(n) => Step(Ok(VI32(n)), a.s) case Err(e) => Step(Err(e), a.s)
    else if t == I64T then
      var a := ReadI64(p, s);
      match a.r case Ok(n) => Step(Ok(VI64(n)), a.s) case Err(e) => Step(Err(e), a.s)
    else if t == DOUBLE then
      var a := ReadDouble(p, s);
      match a.r case Ok(w) => Step(Ok(VDouble(w)), a.s) case Err(e) => Step(Err(e), a.s)
    else if t == STRING then
      var a := ReadString(p, s);
      match a.r case Ok(b) => Step(Ok(VString(b)), a.s) case Err(e) => Step(Err(e), a.s)
    else Step(Err(InvalidData), s)
  }

  function ReadValue(p: Proto, s: PState, t: Byte): (st: Step<Value>)
    ensures |st.s.trans| <= |s.trans|
    decreases |s.trans|, 1, 0
  {
    if t == STRUCT then
      var fs := ReadFields(p, StructBegin(p, s));
      match fs.r
      case Err(e) => Step(Err(e), fs.s)
      case Ok(fields) => Step(Ok(VStruct(fields)), StructEnd(p, fs.s))
    else if t == MAP then
      var h := ReadMapBegin(p, s);
      match h.r
      case Err(e) => Step(Err(e), h.s)
      case Ok(head) =>
        var es := ReadEntries(p, h.s, head.keyType, head.valueType, head.size);
        match es.r
        case Err(e) => Step(Err(e), es.s)
        case Ok(entries) => Step(Ok(VMap(head.keyType, head.valueType, entries)), es.s)
    else if t == SET || t == LIST then
      var h := ReadListBegin(p, s);
      match h.r
      case Err(e) => Step(Err(e), h.s)
      case Ok(head) =>
        var vs := ReadAll(p, h.s, head.elemType, head.size);
        match vs.r
        case Err(e) => Step(Err(e), vs.s)
        case Ok(elems) =>
          Step(Ok(if t == SET then VSet(head.elemType, elems) else VList(head.elemType, elems)), vs.s)
    else ReadScalar(p, s, t)
  }

  function ReadFields(p: Proto, s: PState): (st: Step<seq<Field>>)
    ensures |st.s.trans| <= |s.trans|
    decreases |s.trans|, 0, 0
  {
    var h := ReadFieldBegin(p, s);
    if h.h.err.Some? then Step(Err(h.h.err.value), h.s)
    else if h.h.typeId == STOP then Step(Ok([]), h.s)
    else
      var v := ReadValue(p, h.s, h.h.typeId);
      match v.r
      case Err(e) => Step(Err(e), v.s)
      case Ok(value) =>
        var more := ReadFields(p, FieldEnd(p, v.s));
        match more.r
        case Err(e) => Step(Err(e), more.s)
        case Ok(fields) => Step(Ok([Field(h.h.id, value)] + fields), more.s)
  }

  function ReadAll(p: Proto, s: PState, t: Byte, n: nat): (st: Step<seq<Value>>)
    ensures |st.s.trans| <= |s.trans|
    decreases |s.trans|, 2, n
  {
    if n == 0 then Step(Ok([]), s)
    else
      var v := ReadValue(p, s, t);
      match v.r
      case Err(e) => Step(Err(e), v.s)
      case Ok(value) =>
        var more := ReadAll(p, v.s, t, n - 1);
        match more.r case Err(e) => Step(Err(e), more.s) case Ok(vs) => Step(Ok([value] + vs), more.s)
  }

  function ReadEntries(p: Proto, s: PState, kt: Byte, vt: Byte, n: nat): (st: Step<seq<Entry>>)
    ensures |st.s.trans| <= |s.trans|
    decreases |s.trans|, 2, n
  {
    if n == 0 then Step(Ok([]), s)
    else
      var e := ReadEntry(p, s, kt, vt);
      match e.r
      case Err(err) => Step(Err(err), e.s)
      case Ok(entry) =>
        var more := ReadEntries(p, e.s, kt, vt, n - 1);
        match more.r case Err(err) => Step(Err(err), more.s) case Ok(es) => Step(Ok([entry] + es), more.s)
  }

  function ReadEntry(p: Proto, s: PState, kt: Byte, vt: Byte): (st: Step<Entry>)
    ensures |st.s.trans| <= |s.trans|
    decreases |s.trans|, 2, 0
  {
    var k := ReadValue(p, s, kt);
    match k.r
    case Err(e) => Step(Err(e), k.s)
    case Ok(key) =>
      var v := ReadValue(p, k.s, vt);
      match v.r case Err(e) => Step(Err(e), v.s) case Ok(value) => Step(Ok(Entry(key, value)), v.s)
  }

  // ---------------------------------------------------------------- what comes back

  /** The compact wire has no room for the types of an empty map. */
  function Norm(p: Proto, v: Value): Value
    decreases v, 1
  {
    match v
    case VStruct(fields) => VStruct(NormFields(p, fields))
    case VMap(kt, vt, entries) =>
      if p.Compact? && entries == [] then VMap(STOP, STOP, []) else VMap(kt, vt, NormEntries(p, entries))
    case VSet(t, members) => VSet(t, NormAll(p, members))
    case VList(t, elems) => VList(t, NormAll(p, elems))
    case _ => v
  }

  function NormFields(p: Proto, fields: seq<Field>): seq<Field>
    decreases fields, 0
  {
    if fields == [] then [] else [NormField(p, fields[0])] + NormFields(p, fields[1..])
  }

  function NormField(p: Proto, f: Field): Field
    decreases f, 0
  {
    Field(f.id, Norm(p, f.value))
  }

  function NormAll(p: Proto, vs: seq<Value>): seq<Value>
    decreases vs, 0
  {
    if vs == [] then [] else [Norm(p, vs[0])] + NormAll(p, vs[1..])
  }

  function NormEntries(p: Proto, entries: seq<Entry>): seq<Entry>
    decreases entries, 0
  {
    if entries == [] then [] else [NormEntry(p, entries[0])] + NormEntries(p, entries[1..])
  }

  function NormEntry(p: Proto, e: Entry): Entry
    decreases e, 0
  {
    Entry(Norm(p, e.key), Norm(p, e.value))
  }

  // ---------------------------------------------------------------- the field-id history

  /** The marks that a value leaves under the given stack and last id, for writer and reader alike:
      a struct pushes the id it interrupts and gives it back, and the bool flags are clear. */
  function Marks(p: Proto, v: Value, stack: seq<int>, last: int): seq<Mark>
    decreases v, 1
  {
    match v
    case VStruct(fields) =>
      if p.Binary? then []
      else [Mark(stack + [last], 0, true)] + FieldMarks(p, fields, stack + [last]) + [Mark(stack, last, true)]
    case VMap(_, _, entries) => EntryMarks(p, entries, stack, last)
    case VSet(_, members) => AllMarks(p, members, stack, last)
    case VList(_, elems) => AllMarks(p, elems, stack, last)
    case _ => []
  }

  function FieldMarks(p: Proto, fields: seq<Field>, stack: seq<int>): seq<Mark>
    decreases fields, 0
  {
    if fields == [] then [] else OneFieldMarks(p, fields[0], stack) + FieldMarks(p, fields[1..], stack)
  }

  function OneFieldMarks(p: Proto, f: Field, stack: seq<int>): seq<Mark>
    decreases f, 0
  {
    Marks(p, f.value, stack, f.id) + [Mark(stack, f.id, true)]
  }

  function AllMarks(p: Proto, vs: seq<Value>, stack: seq<int>, last: int): seq<Mark>
    decreases vs, 0
  {
    if vs == [] then [] else Marks(p, vs[0], stack, last) + AllMarks(p, vs[1..], stack, last)
  }

  function EntryMarks(p: Proto, entries: seq<Entry>, stack: seq<int>, last: int): seq<Mark>
    decreases entries, 0
  {
    if entries == [] then [] else OneEntryMarks(p, entries[0], stack, last) + EntryMarks(p, entries[1..], stack, last)
  }

  function OneEntryMarks(p: Proto, e: Entry, stack: seq<int>, last: int): seq<Mark>
    decreases e, 0
  {
    Marks(p, e.key, stack, last) + Marks(p, e.value, stack, last)
  }

  // ---------------------------------------------------------------- primitives and headers

  predicate Clean(s: PState) { !s.booleanFieldPending && !s.boolValueIsNotNull }

  lemma ReadFullOf(s: PState, b: seq<Byte>, rest: seq<Byte>)
    requires s.trans == b + rest
    ensures ReadFull(s, |b|) == Step(Ok(b), s.(trans := rest))
  {
    assert s.trans[..|b|] == b && s.trans[|b|..] == rest;
  }

  lemma ReadByteOf(s: PState, b: Byte, rest: seq<Byte>)
    requires s.trans == [b] + rest
    ensures ReadByteDirect(s) == Step(Ok(b), s.(trans := rest))
  {
    assert s.trans[1..] == rest;
  }

  lemma ReadVarintOf(s: PState, u: U64, rest: seq<Byte>)
    requires s.trans == Digits(u) + rest
    ensures ReadVarint64(s) == Step(Ok(ToI64(u)), s.(trans := rest))
    ensures ReadVarint32(s) == Step(Ok(ToI32(u)), s.(trans := rest))
  {
    hide Digits, Undigits, ToI32, ToI64;
    UndigitsOfDigits(u, rest);
    TruncateTwice(u);
  }

  /** A varint read within ten bytes is one that ends within ten; the reader itself sets no limit. */
  lemma VarintWithinTenIff(s: PState)
    requires ReadVarint64(s).r.Ok?
    ensures |s.trans| - |ReadVarint64(s).s.trans| <= 10 <==> EndsWithin(s.trans, 10)
  {
    hide Undigits, EndsWithin;
    ConsumedWithinIff(s.trans, 10);
  }

  /** Eleven bytes read as one varint. */
  lemma ElevenByteVarint(s: PState, rest: seq<Byte>)
    requires s.trans == [0x80, 0x80, 0x80, 0x80, 0x80, 0x80, 0x80, 0x80, 0x80, 0x80, 0] + rest
    ensures ReadVarint64(s) == Step(Ok(0), s.(trans := rest))
  {
    hide Undigits;
    TenContinued();
    AnyLengthIsRead(10, rest);
    assert s.trans == Continued(10) + [0] + rest;
    SignedOfBits(0);
  }

  lemma TenContinued()
    ensures Continued(10) == [0x80, 0x80, 0x80, 0x80, 0x80, 0x80, 0x80, 0x80, 0x80, 0x80]
  {
    ContinuedBytes(10);
  }

  lemma {:induction false} ContinuedBytes(k: nat)
    ensures forall i :: 0 <= i < k ==> Continued(k)[i] == 0x80
  {
    if k > 0 { ContinuedBytes(k - 1); }
  }

  lemma ReadBigEndianOf(s: PState, n: nat, u: nat, rest: seq<Byte>)
    requires u < Pow2(8 * n) && s.trans == BigEndian(n, u) + rest
    ensures ReadFull(s, n).r.Ok? && ReadFull(s, n).s == s.(trans := rest)
    ensures FromBigEndian(ReadFull(s, n).r.value) == u
  {
    hide *;
    ReadFullOf(s, BigEndian(n, u), rest);
    BigEndianRoundTrip(n, u);
  }

  lemma ReadI16Of(p: Proto, s: PState, n: I16, rest: seq<Byte>)
    requires s.trans == EncInt(p, 2, n) + rest
    ensures ReadI16(p, s) == Step(Ok(n), s.(trans := rest))
  {
    hide Digits, ReadFull, ReadI32, BigEndian, FromBigEndian, Pow2, ToI16;
    ByteWidths();
    SignedOfBits(n);
    match p
    case Compact => ReadI32Of(p, s, n, rest);
    case Binary => ReadBigEndianOf(s, 2, n % Pow2(8 * 2), rest);
  }

  lemma ReadI32Of(p: Proto, s: PState, n: I32, rest: seq<Byte>)
    requires s.trans == EncInt(p, 4, n) + rest
    ensures ReadI32(p, s) == Step(Ok(n), s.(trans := rest))
  {
    hide Digits, ReadFull, ReadVarint32, BigEndian, FromBigEndian, Pow2, ToI32, ToU32, UnZigZag;
    ByteWidths();
    SignedOfBits(n);
    match p
    case Compact => ReadVarintOf(s, ZigZag(n), rest); ZigZagInverse(n, 0); BitsOfSigned(ZigZag(n));
    case Binary => ReadBigEndianOf(s, 4, n % Pow2(8 * 4), rest);
  }

  lemma ReadI64Of(p: Proto, s: PState, n: I64, rest: seq<Byte>)
    requires s.trans == EncInt(p, 8, n) + rest
    ensures ReadI64(p, s) == Step(Ok(n), s.(trans := rest))
  {
    hide Digits, ReadFull, ReadVarint64, BigEndian, FromBigEndian, Pow2, ToI64, ToU64, UnZigZag;
    ByteWidths();
    SignedOfBits(n);
    match p
    case Compact => ReadVarintOf(s, ZigZag(n), rest); ZigZagInverse(n, 0); BitsOfSigned(ZigZag(n));
    case Binary => ReadBigEndianOf(s, 8, n % Pow2(8 * 8), rest);
  }

  /** A size comes back as its conversion to int32, or is refused when that is negative. */
  lemma ReadAnyLengthOf(p: Proto, s: PState, n: nat, rest: seq<Byte>)
    requires s.trans == EncLength(p, n) + rest
    ensures ReadLength(p, s) ==
      Step(if ToI32(n) < 0 then Err(InvalidData) else Ok(ToI32(n)), s.(trans := rest))
  {
    hide Digits, ReadFull, ReadVarint32, BigEndian, FromBigEndian, Pow2, ToI32, ToU32;
    ByteWidths();
    SignedOfUnsigned(n);
    match p
    case Compact => ReadVarintOf(s, ToU32(n), rest);
    case Binary => ReadBigEndianOf(s, 4, ToU32(n), rest);
  }

  lemma SignedOfUnsigned(n: int)
    ensures ToI32(ToU32(n)) == ToI32(n)
  {}

  lemma ReadLengthOf(p: Proto, s: PState, n: nat, rest: seq<Byte>)
    requires n <= MAX_SIZE && s.trans == EncLength(p, n) + rest
    ensures ReadLength(p, s) == Step(Ok(n), s.(trans := rest))
  {
    hide EncLength, ReadLength, ToI32;
    SignedOfBits(n);
    ReadAnyLengthOf(p, s, n, rest);
  }

  lemma ReadDoubleOf(p: Proto, s: PState, w: U64, rest: seq<Byte>)
    requires match p case Compact => s.trans == LittleEndian(8, w) + rest
                     case Binary => s.trans == BigEndian(8, w) + rest
    ensures ReadDouble(p, s) == Step(Ok(w), s.(trans := rest))
  {
    hide ReadFull, BigEndian, FromBigEndian, LittleEndian, FromLittleEndian, Pow2, ToU64;
    ByteWidths();
    BitsOfSigned(w);
    match p
    case Compact => ReadFullOf(s, LittleEndian(8, w), rest); LittleEndianRoundTrip(8, w);
    case Binary => ReadBigEndianOf(s, 8, w, rest);
  }

  lemma ReadStringOf(p: Proto, s: PState, b: seq<Byte>, rest: seq<Byte>)
    requires |b| <= MAX_SIZE && s.trans == EncLength(p, |b|) + b + rest
    ensures ReadString(p, s) == Step(Ok(b), s.(trans := rest))
  {
    hide EncLength, ReadLength, ReadFull;
    assert s.trans == EncLength(p, |b|) + (b + rest);
    ReadLengthOf(p, s, |b|, b + rest);
    ReadFullOf(s.(trans := b + rest), b, rest);
  }

  lemma ReadAnyListBeginOf(p: Proto, s: PState, t: Byte, n: nat, rest: seq<Byte>)
    requires IsType(t) && s.trans == EncListHeader(p, t, n) + rest
    ensures ReadListBegin(p, s) ==
      Step(if ToI32(n) < 0 then Err(InvalidData) else Ok(ListHead(t, ToI32(n))), s.(trans := rest))
  {
    hide EncLength, CompactType, TTypeOf, ReadByteDirect, ReadLength, ToI32;
    var head := EncListHeader(p, t, n);
    var tail := head[1..] + rest;
    assert s.trans == [head[0]] + tail;
    ReadByteOf(s, head[0], tail);
    if p.Binary? || n > 14 {
      if p.Compact? { Nibbles(15, CompactType(t)); }
      assert tail == EncLength(p, n) + rest;
      ReadAnyLengthOf(p, s.(trans := tail), n, rest);
    } else {
      Nibbles(n, CompactType(t));
      SignedOfBits(n);
      assert tail == rest;
    }
  }

  lemma ReadListBeginOf(p: Proto, s: PState, t: Byte, n: nat, rest: seq<Byte>)
    requires IsType(t) && n <= MAX_SIZE && s.trans == EncListHeader(p, t, n) + rest
    ensures ReadListBegin(p, s) == Step(Ok(ListHead(t, n)), s.(trans := rest))
  {
    hide EncListHeader, ReadListBegin, ToI32;
    SignedOfBits(n);
    ReadAnyListBeginOf(p, s, t, n, rest);
  }

  /** A collection header gives back its type and size exactly when the size is from 0 to 2^31 - 1. */
  lemma ListSizeSurvivesIff(p: Proto, s: PState, t: Byte, n: int, rest: seq<Byte>)
    requires IsType(t) && s.trans == EncListHeader(p, t, n) + rest
    ensures ReadListBegin(p, s).r.Ok? && ReadListBegin(p, s).r.value.elemType == t
         && ReadListBegin(p, s).r.value.size == n
      <==> 0 <= n <= MAX_SIZE
  {
    hide EncListHeader, ReadListBegin;
    if n >= 0 { ReadAnyListBeginOf(p, s, t, n, rest); }
  }

  lemma ReadMapBeginOf(p: Proto, s: PState, kt: Byte, vt: Byte, n: nat, rest: seq<Byte>)
    requires IsType(kt) && IsType(vt) && n <= MAX_SIZE && s.trans == EncMapHeader(p, kt, vt, n) + rest
    ensures ReadMapBegin(p, s) ==
      Step(Ok(if p.Compact? && n == 0 then MapHead(STOP, STOP, 0) else MapHead(kt, vt, n)), s.(trans := rest))
  {
    match p
    case Compact => CompactMapBeginOf(s, kt, vt, n, rest);
    case Binary => BinaryMapBeginOf(s, kt, vt, n, rest);
  }

  lemma CompactMapBeginOf(s: PState, kt: Byte, vt: Byte, n: nat, rest: seq<Byte>)
    requires IsType(kt) && IsType(vt) && n <= MAX_SIZE && s.trans == EncMapHeader(Compact, kt, vt, n) + rest
    ensures CompactMapBegin(s) ==
      Step(Ok(if n == 0 then MapHead(STOP, STOP, 0) else MapHead(kt, vt, n)), s.(trans := rest))
  {
    hide CompactType, TTypeOf, ReadByteDirect, ReadLength;
    if n == 0 {
      assert s.trans == EncLength(Compact, 0) + rest;
      ReadLengthOf(Compact, s, 0, rest);
      Nibbles(0, 0);
      StopCode();
    } else {
      hide EncLength;
      var types := CompactType(kt) * 0x10 + CompactType(vt);
      assert s.trans == EncLength(Compact, n) + ([types] + rest);
      ReadLengthOf(Compact, s, n, [types] + rest);
      ReadByteOf(s.(trans := [types] + rest), types, rest);
      Nibbles(CompactType(kt), CompactType(vt));
    }
  }

  lemma StopCode()
    ensures TTypeOf(0) == Some(STOP)
  {}

  lemma BinaryMapBeginOf(s: PState, kt: Byte, vt: Byte, n: nat, rest: seq<Byte>)
    requires n <= MAX_SIZE && s.trans == EncMapHeader(Binary, kt, vt, n) + rest
    ensures BinaryMapBegin(s) == Step(Ok(MapHead(kt, vt, n)), s.(trans := rest))
  {
    hide EncLength, ReadByteDirect, ReadLength;
    var size := EncLength(Binary, n) + rest;
    assert s.trans == [kt] + ([vt] + size);
    ReadByteOf(s, kt, [vt] + size);
    ReadByteOf(s.(trans := [vt] + size), vt, size);
    ReadLengthOf(Binary, s.(trans := size), n, rest);
  }

  /** A compact field header gives back its id and type code, by delta or in full. */
  lemma CompactHeaderOf(s: PState, id: I16, code: Byte, rest: seq<Byte>)
    requires 1 <= code <= 12 && -0x8000 <= s.lastFieldId < 0x8000
    requires s.trans == CompactFieldHeader(s.lastFieldId, id, code) + rest
    ensures ReadFieldBegin(Compact, s) == Headed(FieldHead(TTypeOf(code).value, id, None),
      if code <= 2 then s.(trans := rest, lastFieldId := id, boolValue := code == 1, boolValueIsNotNull := true)
      else s.(trans := rest, lastFieldId := id))
  {
    hide Digits, ReadByteDirect, CompactFieldBegin;
    var head := CompactFieldHeader(s.lastFieldId, id, code);
    var tail := head[1..] + rest;
    assert s.trans == [head[0]] + tail;
    ReadByteOf(s, head[0], tail);
    if s.lastFieldId < id <= s.lastFieldId + 15 {
      Nibbles(id - s.lastFieldId, code);
      DeltaHeaderOf(s.(trans := tail), id - s.lastFieldId, code);
      assert tail == rest;
    } else {
      Nibbles(0, code);
      FullHeaderOf(s.(trans := tail), id, code, rest);
    }
  }

  lemma DeltaHeaderOf(s: PState, delta: nat, code: Byte)
    requires 1 <= code <= 12 && 1 <= delta <= 15 && -0x8000 <= s.lastFieldId && s.lastFieldId + delta < 0x8000
    requires delta * 0x10 + code < 0x100
    ensures CompactFieldBegin(delta * 0x10 + code, s)
        == Headed(FieldHead(TTypeOf(code).value, s.lastFieldId + delta, None),
      if code <= 2 then s.(lastFieldId := s.lastFieldId + delta, boolValue := code == 1, boolValueIsNotNull := true)
      else s.(lastFieldId := s.lastFieldId + delta))
  {
    hide ToI16, ReadI16;
    Nibbles(delta, code);
    SignedOfBits(s.lastFieldId);
    SignedOfBits(s.lastFieldId + delta);
  }

  lemma FullHeaderOf(s: PState, id: I16, code: Byte, rest: seq<Byte>)
    requires 1 <= code <= 12 && s.trans == Digits(ZigZag(id)) + rest
    ensures CompactFieldBegin(code, s) == Headed(FieldHead(TTypeOf(code).value, id, None),
      if code <= 2 then s.(trans := rest, lastFieldId := id, boolValue := code == 1, boolValueIsNotNull := true)
      else s.(trans := rest, lastFieldId := id))
  {
    hide Digits, ReadI16;
    Nibbles(0, code);
    ReadI16Of(Compact, s, id, rest);
  }

  /** The long form of a field header is read after any last id, also where the short one would do. */
  lemma LongHeaderOf(s: PState, id: I16, code: Byte, rest: seq<Byte>)
    requires 1 <= code <= 12 && s.trans == [code] + Digits(ZigZag(id)) + rest
    ensures ReadFieldBegin(Compact, s).h == FieldHead(TTypeOf(code).value, id, None)
    ensures ReadFieldBegin(Compact, s).s.trans == rest && ReadFieldBegin(Compact, s).s.lastFieldId == id
    ensures ReadFieldBegin(Compact, s).s.boolValueIsNotNull == (code <= 2 || s.boolValueIsNotNull)
  {
    hide Digits, ReadByteDirect, CompactFieldBegin;
    var tail := Digits(ZigZag(id)) + rest;
    assert s.trans == [code] + tail;
    ReadByteOf(s, code, tail);
    FullHeaderOf(s.(trans := tail), id, code, rest);
  }

  /** So is the long form of a list header, for every size. */
  lemma LongListOf(s: PState, t: Byte, n: nat, rest: seq<Byte>)
    requires IsType(t) && n <= MAX_SIZE && s.trans == [0xF0 + CompactType(t)] + EncLength(Compact, n) + rest
    ensures ReadListBegin(Compact, s) == Step(Ok(ListHead(t, n)), s.(trans := rest))
  {
    hide EncLength, CompactType, TTypeOf, ReadByteDirect, ReadLength;
    var tail := EncLength(Compact, n) + rest;
    assert s.trans == [0xF0 + CompactType(t)] + tail;
    ReadByteOf(s, 0xF0 + CompactType(t), tail);
    Nibbles(15, CompactType(t));
    ReadLengthOf(Compact, s.(trans := tail), n, rest);
  }

  /** A byte reads as true if and only if it is 1, in both protocols. */
  lemma BoolByteOf(p: Proto, s: PState, b: Byte, rest: seq<Byte>)
    requires !s.boolValueIsNotNull && s.trans == [b] + rest
    ensures ReadBool(p, s) == Step(Ok(b == 1), s.(trans := rest))
  {
    hide ReadByteDirect;
    ReadByteOf(s, b, rest);
  }

  /** An unknown element type is an error in a compact list, and passes for STOP in a compact map. */
  lemma UnknownCodesOf(s: PState, n: nat, code: Byte, rest: seq<Byte>)
    requires 1 <= n <= 14 && 13 <= code <= 15
    ensures s.trans == [n * 0x10 + code] + rest ==>
      ReadListBegin(Compact, s) == Step(Err(UnknownProtocol), s.(trans := rest))
    ensures s.trans == [n] + [code * 0x10 + code] + rest ==>
      ReadMapBegin(Compact, s) == Step(Ok(MapHead(STOP, STOP, n)), s.(trans := rest))
  {
    if s.trans == [n * 0x10 + code] + rest {
      hide ReadByteDirect;
      ReadByteOf(s, n * 0x10 + code, rest);
      Nibbles(n, code);
    }
    if s.trans == [n] + [code * 0x10 + code] + rest { UnknownMapCode(s, n, code, rest); }
  }

  lemma UnknownMapCode(s: PState, n: nat, code: Byte, rest: seq<Byte>)
    requires 1 <= n <= 14 && 13 <= code <= 15 && s.trans == [n] + [code * 0x10 + code] + rest
    ensures CompactMapBegin(s) == Step(Ok(MapHead(STOP, STOP, n)), s.(trans := rest))
  {
    hide ReadByteDirect, ReadLength;
    var types := code * 0x10 + code;
    assert EncLength(Compact, n) == [n];
    assert s.trans == EncLength(Compact, n) + ([types] + rest);
    ReadLengthOf(Compact, s, n, [types] + rest);
    ReadByteOf(s.(trans := [types] + rest), types, rest);
    Nibbles(code, code);
  }

  lemma BinaryHeaderOf(s: PState, t: Byte, id: I16, rest: seq<Byte>)
    requires IsType(t) && s.trans == [t] + BigEndian(2, id % 0x1_0000) + rest
    ensures ReadFieldBegin(Binary, s) == Headed(FieldHead(t, id, None), s.(trans := rest))
  {
    hide BigEndian, ReadByteDirect, ReadI16, Pow2;
    ByteWidths();
    var tail := BigEndian(2, id % 0x1_0000) + rest;
    assert s.trans == [t] + tail;
    ReadByteOf(s, t, tail);
    ReadI16Of(Binary, s.(trans := tail), id, rest);
  }

  lemma StopOf(p: Proto, s: PState, rest: seq<Byte>)
    requires s.trans == [STOP] + rest
    ensures ReadFieldBegin(p, s) == Headed(FieldHead(STOP, 0, None), s.(trans := rest))
  {
    ReadByteOf(s, STOP, rest);
  }

  /** A message header comes back, its type reduced to three bits. */
  lemma ReadMessageOf(s: PState, name: seq<Byte>, typeId: I32, seqId: I32, rest: seq<Byte>)
    requires |name| <= MAX_SIZE && s.trans == EncMessage(name, typeId, seqId) + rest
    ensures ReadMessage(s) == Step(Ok(Message(name, typeId % 8, seqId)), s.(trans := rest))
    ensures ReadMessage(s).r == Ok(Message(name, typeId, seqId)) <==> 0 <= typeId < 8
  {
    hide ReadByteDirect, ReadVarint32, ReadString, Digits, EncLength, ToU32;
    var versionAndType := COMPACT_VERSION + typeId % 8 * 0x20;
    var text := EncLength(Compact, |name|) + name + rest;
    var number := Digits(ToU32(seqId)) + text;
    assert s.trans == [COMPACT_PROTOCOL_ID] + ([versionAndType] + number);
    ReadByteOf(s, COMPACT_PROTOCOL_ID, [versionAndType] + number);
    ReadByteOf(s.(trans := [versionAndType] + number), versionAndType, number);
    ReadVarintOf(s.(trans := number), ToU32(seqId), text);
    SignedOfUnsigned(seqId);
    SignedOfBits(seqId);
    ReadStringOf(Compact, s.(trans := text), name, rest);
  }
}
