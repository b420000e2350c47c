/** Thrift types and the trees of values that generated code writes and reads. */
module Values {
  import opened Words

  const STOP: Byte := 0
  const BOOL: Byte := 2
  const BYTE: Byte := 3
  const DOUBLE: Byte := 4
  const I16T: Byte := 6
  const I32T: Byte := 8
  const I64T: Byte := 10
  const STRING: Byte := 11
  const STRUCT: Byte := 12
  const MAP: Byte := 13
  const SET: Byte := 14
  const LIST: Byte := 15

  datatype Field = Field(id: I16, value: Value)

  datatype Entry = Entry(key: Value, value: Value)

  /** Doubles are opaque 64-bit words, strings are bytes. */
  datatype Value =
    | VBool(b: bool)
    | VByte(i8: I8)
    | VI16(i16: I16)
    | VI32(i32: I32)
    | VI64(i64: I64)
    | VDouble(word: U64)
    | VString(bytes: seq<Byte>)
    | VStruct(fields: seq<Field>)
    | VMap(keyType: Byte, valueType: Byte, entries: seq<Entry>)
    | VSet(setType: Byte, members: seq<Value>)
    | VList(elemType: Byte, elems: seq<Value>)

  function TypeOf(v: Value): (t: Byte)
    ensures IsType(t)
  {
    match v
    case VBool(_) => BOOL
    case VByte(_) => BYTE
    case VI16(_) => I16T
    case VI32(_) => I32T
    case VI64(_) => I64T
    case VDouble(_) => DOUBLE
    case VString(_) => STRING
    case VStruct(_) => STRUCT
    case VMap(_, _, _) => MAP
    case VSet(_, _) => SET
    case VList(_, _) => LIST
  }

  predicate IsType(t: Byte) {
    t in {BOOL, BYTE, DOUBLE, I16T, I32T, I64T, STRING, STRUCT, MAP, SET, LIST}
  }

  predicate IsScalar(v: Value) { !v.VStruct? && !v.VMap? && !v.VSet? && !v.VList? }

  /** The greatest length that survives the writers' conversion of a size to int32. */
  const MAX_SIZE := 0x7fff_ffff

  predicate WellTyped(v: Value)
    decreases v, 1
  {
    match v
    case VString(bytes) => |bytes| <= MAX_SIZE
    case VStruct(fields) => WellTypedFields(fields)
    case VMap(kt, vt, entries) =>
      IsType(kt) && IsType(vt) && |entries| <= MAX_SIZE && WellTypedEntries(kt, vt, entries)
    case VSet(t, members) => IsType(t) && |members| <= MAX_SIZE && WellTypedAll(t, members)
    case VList(t, elems) => IsType(t) && |elems| <= MAX_SIZE && WellTypedAll(t, elems)
    case _ => true
  }

  predicate WellTypedFields(fields: seq<Field>)
    decreases fields, 0
  {
    fields == [] || (WellTypedField(fields[0]) && WellTypedFields(fields[1..]))
  }

  predicate WellTypedField(f: Field)
    decreases f, 0
  {
    WellTyped(f.value)
  }

  predicate WellTypedAll(t: Byte, vs: seq<Value>)
    decreases vs, 0
  {
    vs == [] || (TypeOf(vs[0]) == t && WellTyped(vs[0]) && WellTypedAll(t, vs[1..]))
  }

  predicate WellTypedEntries(kt: Byte, vt: Byte, entries: seq<Entry>)
    decreases entries, 0
  {
    entries == [] || (WellTypedEntry(kt, vt, entries[0]) && WellTypedEntries(kt, vt, entries[1..]))
  }

  predicate WellTypedEntry(kt: Byte, vt: Byte, e: Entry)
    decreases e, 0
  {
    TypeOf(e.key) == kt && WellTyped(e.key) && TypeOf(e.value) == vt && WellTyped(e.value)
  }
}
