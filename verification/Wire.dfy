/** What the compact and the binary protocol put on the wire, and what their readers make of any
    bytes at all.  The state is that of a protocol object over a memory buffer. */
module Wire {
  import opened Options
  import opened Words
  import opened Varint
  import opened Values

  datatype Proto = Compact | Binary

  datatype Error = EndOfFile | InvalidData | UnknownProtocol | DepthLimit | BadVersion

  datatype Result<+T> = Ok(value: T) | Err(error: Error)

  /** A point of the run at which the field-id state is observed: after a struct begins, after each
      field, after a struct ends. */
  datatype Mark = Mark(lastField: seq<int>, lastFieldId: int, boolsClear: bool)

  /** trans is the memory buffer: writes append, reads take from the front. */
  datatype PState = PState(
    trans: seq<Byte>,
    lastField: seq<int>, lastFieldId: int,
    booleanFieldId: I16, booleanFieldPending: bool,
    boolValue: bool, boolValueIsNotNull: bool,
    marks: seq<Mark>)
  {
    function Put(bytes: seq<Byte>): PState { this.(trans := trans + bytes) }

    function Marked(): PState {
      this.(marks := marks + [Mark(lastField, lastFieldId, !booleanFieldPending && !boolValueIsNotNull)])
    }

    /** Nothing but the unread bytes differs. */
    predicate SameFields(s: PState) { s == this.(trans := s.trans) }
  }

  datatype Step<+T> = Step(r: Result<T>, s: PState)

  // ---------------------------------------------------------------- type codes

  /** ttypeToCompactType; a key that is not in the Go map yields zero. */
  function CompactType(t: Byte): (c: Byte)
    ensures c <= 12
    ensures IsType(t) ==> 1 <= c && TTypeOf(c) == Some(t)
  {
    if t == BOOL then 1
    else if t == BYTE then 3
    else if t == I16T then 4
    else if t == I32T then 5
    else if t == I64T then 6
    else if t == DOUBLE then 7
    else if t == STRING then 8
    else if t == LIST then 9
    else if t == SET then 10
    else if t == MAP then 11
    else if t == STRUCT then 12
    else 0
  }

  /** getTType on a four-bit code. */
  function TTypeOf(c: Byte): Option<Byte> {
    if c == 0 then Some(STOP)
    else if c == 1 || c == 2 then Some(BOOL)
    else if c == 3 then Some(BYTE)
    else if c == 4 then Some(I16T)
    else if c == 5 then Some(I32T)
    else if c == 6 then Some(I64T)
    else if c == 7 then Some(DOUBLE)
    else if c == 8 then Some(STRING)
    else if c == 9 then Some(LIST)
    else if c == 10 then Some(SET)
    else if c == 11 then Some(MAP)
    else if c == 12 then Some(STRUCT)
    else None
  }

  /** getTType with its error dropped. */
  function TTypeOrStop(c: Byte): Byte {
    match TTypeOf(c) case Some(t) => t case None => STOP
  }

  // ---------------------------------------------------------------- encodings

  function EncInt(p: Proto, width: nat, n: int): seq<Byte> {
    match p
    case Compact => Digits(ZigZag(n))
    case Binary => BigEndian(width, n % Pow2(8 * width))
  }

  /** A size goes through a conversion to int32. */
  function EncLength(p: Proto, n: int): seq<Byte> {
    match p
    case Compact => Digits(ToU32(n))
    case Binary => BigEndian(4, ToU32(n))
  }

  function EncBool(p: Proto, b: bool): Byte {
    if b then 1 else match p case Compact => 2 case Binary => 0
  }

  /** code is the compact type code: a bool field carries its value there. */
  function CompactFieldHeader(last: int, id: I16, code: Byte): seq<Byte>
    requires code < 0x10
  {
    if last < id <= last + 15 then [(id - last) * 0x10 + code] else [code] + Digits(ZigZag(id))
  }

  function EncField(p: Proto, last: int, f: Field): seq<Byte>
    decreases f, 0
  {
    match p
    case Compact =>
      if f.value.VBool? then CompactFieldHeader(last, f.id, EncBool(p, f.value.b))
      else CompactFieldHeader(last, f.id, CompactType(TypeOf(f.value))) + Enc(p, f.value)
    case Binary => [TypeOf(f.value)] + BigEndian(2, f.id % 0x1_0000) + Enc(p, f.value)
  }

  /** A negative size passes for a short one, and leaves its low four bits. */
  function EncListHeader(p: Proto, t: Byte, n: int): seq<Byte> {
    match p
    case Compact =>
      if n <= 14 then [n % 0x10 * 0x10 + CompactType(t)] else [0xf0 + CompactType(t)] + EncLength(p, n)
    case Binary => [t] + EncLength(p, n)
  }

  function EncMapHeader(p: Proto, kt: Byte, vt: Byte, n: int): seq<Byte> {
    match p
    case Compact =>
      if n == 0 then [0] else EncLength(p, n) + [CompactType(kt) * 0x10 + CompactType(vt)]
    case Binary => [kt, vt] + EncLength(p, n)
  }

  /** The bytes of a value that is not a compact bool field. */
  function Enc(p: Proto, v: Value): seq<Byte>
    decreases v, 1
  {
    match v
    case VBool(b) => [EncBool(p, b)]
    case VByte(n) => [ToByte(n)]
    case VI16(n) => EncInt(p, 2, n)
    case VI32(n) => EncInt(p, 4, n)
    case VI64(n) => EncInt(p, 8, n)
    case VDouble(w) => (match p case Compact => LittleEndian(8, w) case Binary => BigEndian(8, w))
    case VString(b) => EncLength(p, |b|) + b
    case VStruct(fields) => EncFields(p, 0, fields)
    case VMap(kt, vt, entries) => EncMapHeader(p, kt, vt, |entries|) + EncEntries(p, entries)
    case VSet(t, members) => EncListHeader(p, t, |members|) + EncAll(p, members)
    case VList(t, elems) => EncListHeader(p, t, |elems|) + EncAll(p, elems)
  }

  /** Fields, with the id that precedes them, and the stop byte. */
  function EncFields(p: Proto, last: int, fields: seq<Field>): seq<Byte>
    decreases fields, 0
  {
    if fields == [] then [STOP]
    else EncField(p, last, fields[0]) + EncFields(p, fields[0].id, fields[1..])
  }

  function EncAll(p: Proto, vs: seq<Value>): seq<Byte>
    decreases vs, 0
  {
    if vs == [] then [] else Enc(p, vs[0]) + EncAll(p, vs[1..])
  }

  function EncEntries(p: Proto, entries: seq<Entry>): seq<Byte>
    decreases entries, 0
  {
    if entries == [] then []
    else EncEntry(p, entries[0]) + EncEntries(p, entries[1..])
  }

  function EncEntry(p: Proto, e: Entry): seq<Byte>
    decreases e, 0
  {
    Enc(p, e.key) + Enc(p, e.value)
  }

  // ---------------------------------------------------------------- primitive writers

  /** The id and value of a compact bool field go out together, so its header waits. */
  function WriteFieldBegin(p: Proto, s: PState, t: Byte, id: I16): PState {
    match p
    case Compact =>
      if t == BOOL then s.(booleanFieldId := id, booleanFieldPending := true)
      else s.(lastFieldId := id).Put(CompactFieldHeader(s.lastFieldId, id, CompactType(t)))
    case Binary => s.Put([t] + BigEndian(2, id % 0x1_0000))
  }

  function WriteBool(p: Proto, s: PState, b: bool): PState {
    if p.Compact? && s.booleanFieldPending then
      s.(lastFieldId := s.booleanFieldId, booleanFieldPending := false)
        .Put(CompactFieldHeader(s.lastFieldId, s.booleanFieldId, EncBool(p, b)))
    else s.Put([EncBool(p, b)])
  }

  // ---------------------------------------------------------------- primitive readers

  /** io.ReadFull: all n bytes, or an error that uses up what there was. */
  function ReadFull(s: PState, n: nat): (st: Step<seq<Byte>>)
    ensures s.SameFields(st.s) && |st.s.trans| <= |s.trans|
  {
    if n <= |s.trans| then Step(Ok(s.trans[..n]), s.(trans := s.trans[n..]))
    else Step(Err(EndOfFile), s.(trans := []))
  }

  function ReadByteDirect(s: PState): (st: Step<Byte>)
    ensures s.SameFields(st.s) && |st.s.trans| <= |s.trans|
    ensures st.r.Ok? ==> |st.s.trans| < |s.trans|
  {
    if s.trans == [] then Step(Err(EndOfFile), s) else Step(Ok(s.trans[0]), s.(trans := s.trans[1..]))
  }

  function ReadVarint64(s: PState): (st: Step<I64>)
    ensures s.SameFields(st.s) && |st.s.trans| <= |s.trans|
    ensures st.r.Ok? ==> |st.s.trans| < |s.trans|
  {
    match Undigits(s.trans)
    case None => Step(Err(EndOfFile), s.(trans := []))
    case Some((u, rest)) => Step(Ok(ToI64(u)), s.(trans := rest))
  }

  /** readVarint32 truncates what readVarint64 found. */
  function ReadVarint32(s: PState): (st: Step<I32>)
    ensures s.SameFields(st.s) && |st.s.trans| <= |s.trans|
    ensures st.r.Ok? ==> |st.s.trans| < |s.trans|
  {
    var st := ReadVarint64(s);
    match st.r case Ok(v) => Step(Ok(ToI32(v)), st.s) case Err(e) => Step(Err(e), st.s)
  }

  function ReadByte(s: PState): (st: Step<I8>)
    ensures s.SameFields(st.s) && |st.s.trans| <= |s.trans|
  {
    var st := ReadByteDirect(s);
    match st.r case Ok(b) => Step(Ok(ToI8(b)), st.s) case Err(e) => Step(Err(e), st.s)
  }

  function ReadI16(p: Proto, s: PState): (st: Step<I16>)
    ensures s.SameFields(st.s) && |st.s.trans| <= |s.trans|
  {
    match p
    case Compact =>
      var st := ReadI32(p, s);
      (match st.r case Ok(v) => Step(Ok(ToI16(v)), st.s) case Err(e) => Step(Err(e), st.s))
    case Binary =>
      var st := ReadFull(s, 2);
      (match st.r case Ok(b) => Step(Ok(ToI16(FromBigEndian(b))), st.s) case Err(e) => Step(Err(e), st.s))
  }

  function ReadI32(p: Proto, s: PState): (st: Step<I32>)
    ensures s.SameFields(st.s) && |st.s.trans| <= |s.trans|
    ensures st.r.Ok? ==> |st.s.trans| < |s.trans|
  {
    match p
    case Compact =>
      var st := ReadVarint32(s);
      (match st.r case Ok(v) => Step(Ok(UnZigZag(ToU32(v))), st.s) case Err(e) => Step(Err(e), st.s))
    case Binary =>
      var st := ReadFull(s, 4);
      (match st.r case Ok(b) => Step(Ok(ToI32(FromBigEndian(b))), st.s) case Err(e) => Step(Err(e), st.s))
  }

  function ReadI64(p: Proto, s: PState): (st: Step<I64>)
    ensures s.SameFields(st.s) && |st.s.trans| <= |s.trans|
  {
    match p
    case Compact =>
      var st := ReadVarint64(s);
      (match st.r case Ok(v) => Step(Ok(UnZigZag(ToU64(v))), st.s) case Err(e) => Step(Err(e), st.s))
    case Binary =>
      var st := ReadFull(s, 8);
      (match st.r case Ok(b) => Step(Ok(ToI64(FromBigEndian(b))), st.s) case Err(e) => Step(Err(e), st.s))
  }

  function ReadDouble(p: Proto, s: PState): (st: Step<U64>)
    ensures s.SameFields(st.s) && |st.s.trans| <= |s.trans|
  {
    var st := ReadFull(s, 8);
    match st.r
    case Err(e) => Step(Err(e), st.s)
    case Ok(b) =>
      Step(Ok(ToU64(match p case Compact => FromLittleEndian(b) case Binary => FromBigEndian(b))), st.s)
  }

  /** The size that precedes a string, or a collection on the binary wire. */
  function ReadLength(p: Proto, s: PState): (st: Step<nat>)
    ensures s.SameFields(st.s) && |st.s.trans| <= |s.trans|
    ensures st.r.Ok? ==> |st.s.trans| < |s.trans|
  {
    var st := match p case Compact => ReadVarint32(s) case Binary => ReadI32(p, s);
    match st.r
    case Err(e) => Step(Err(e), st.s)
    case Ok(n) => if n < 0 then Step(Err(InvalidData), st.s) else Step(Ok(n), st.s)
  }

  function ReadString(p: Proto, s: PState): (st: Step<seq<Byte>>)
    ensures s.SameFields(st.s) && |st.s.trans| <= |s.trans|
  {
    var st := ReadLength(p, s);
    match st.r case Ok(n) => ReadFull(st.s, n) case Err(e) => Step(Err(e), st.s)
  }

  /** A pending field bool is used up; otherwise a byte is read. */
  function ReadBool(p: Proto, s: PState): (st: Step<bool>)
    ensures |st.s.trans| <= |s.trans| && st.s.lastField == s.lastField
  {
    if p.Compact? && s.boolValueIsNotNull then
      Step(Ok(s.boolValue), s.(boolValueIsNotNull := false))
    else
      var st := ReadByteDirect(s);
      match st.r case Ok(b) => Step(Ok(b == 1), st.s) case Err(e) => Step(Err(e), st.s)
  }

  // ---------------------------------------------------------------- structs and headers

  function StructBegin(p: Proto, s: PState): PState {
    match p
    case Compact => s.(lastField := s.lastField + [s.lastFieldId], lastFieldId := 0).Marked()
    case Binary => s
  }

  /** Go panics on an empty stack; the methods require that it is not. */
  function StructEnd(p: Proto, s: PState): PState {
    if p.Compact? && s.lastField != [] then
      var top := |s.lastField| - 1;
      s.(lastField := s.lastField[..top], lastFieldId := s.lastField[top]).Marked()
    else s
  }

  function FieldEnd(p: Proto, s: PState): PState {
    match p case Compact => s.Marked() case Binary => s
  }

  /** ReadFieldBegin returns a type even beside an error, and Skip looks at nothing else. */
  datatype FieldHead = FieldHead(typeId: Byte, id: I16, err: Option<Error>)

  datatype Headed<+T> = Headed(h: T, s: PState)

  function ReadFieldBegin(p: Proto, s: PState): (st: Headed<FieldHead>)
    ensures |st.s.trans| <= |s.trans| && st.s.lastField == s.lastField
    ensures st.h.typeId != STOP ==> |st.s.trans| < |s.trans|
    ensures st.h.err.None? && s.trans != [] ==> |st.s.trans| < |s.trans|
  {
    var a := ReadByteDirect(s);
    match a.r
    case Err(e) => Headed(FieldHead(STOP, 0, Some(e)), a.s)
    case Ok(t) => match p
      case Compact => if t % 0x10 == STOP then Headed(FieldHead(STOP, 0, None), a.s) else CompactFieldBegin(t, a.s)
      case Binary => if t == STOP then Headed(FieldHead(STOP, 0, None), a.s) else BinaryFieldBegin(t, a.s)
  }

  function CompactFieldBegin(t: Byte, s: PState): (st: Headed<FieldHead>)
    ensures |st.s.trans| <= |s.trans| && st.s.lastField == s.lastField
  {
    var id := if t / 0x10 == 0 then ReadI16(Compact, s) else Step(Ok(ToI16(ToI16(s.lastFieldId) + t / 0x10)), s);
    match id.r
    case Err(e) => Headed(FieldHead(STOP, 0, Some(e)), id.s)
    case Ok(i) => match TTypeOf(t % 0x10)
      case None => Headed(FieldHead(STOP, i, Some(UnknownProtocol)), id.s)
      case Some(typeId) =>
        var s' := if t % 0x10 == 1 || t % 0x10 == 2
                  then id.s.(boolValue := t % 0x10 == 1, boolValueIsNotNull := true) else id.s;
        Headed(FieldHead(typeId, i, None), s'.(lastFieldId := i))
  }

  function BinaryFieldBegin(t: Byte, s: PState): (st: Headed<FieldHead>)
    ensures |st.s.trans| <= |s.trans| && st.s.lastField == s.lastField
  {
    var id := ReadI16(Binary, s);
    match id.r
    case Err(e) => Headed(FieldHead(t, 0, Some(e)), id.s)
    case Ok(i) => Headed(FieldHead(t, i, None), id.s)
  }

  datatype ListHead = ListHead(elemType: Byte, size: nat)

  function ReadListBegin(p: Proto, s: PState): (st: Step<ListHead>)
    ensures s.SameFields(st.s) && |st.s.trans| <= |s.trans|
    ensures st.r.Ok? ==> |st.s.trans| < |s.trans|
  {
    var a := ReadByteDirect(s);
    match a.r
    case Err(e) => Step(Err(e), a.s)
    case Ok(b) =>
      var n := if p.Compact? && b / 0x10 != 15 then Step(Ok(b / 0x10), a.s) else ReadLength(p, a.s);
      match n.r
      case Err(e) => Step(Err(e), n.s)
      case Ok(size) => match p
        case Compact => (match TTypeOf(b % 0x10)
          case None => Step(Err(UnknownProtocol), n.s)
          case Some(t) => Step(Ok(ListHead(t, size)), n.s))
        case Binary => Step(Ok(ListHead(b, size)), n.s)
  }

  datatype MapHead = MapHead(keyType: Byte, valueType: Byte, size: nat)

  function ReadMapBegin(p: Proto, s: PState): (st: Step<MapHead>)
    ensures s.SameFields(st.s) && |st.s.trans| <= |s.trans|
    ensures st.r.Ok? ==> |st.s.trans| < |s.trans|
  {
    match p case Compact => CompactMapBegin(s) case Binary => BinaryMapBegin(s)
  }

  /** No type byte follows a zero size, and unknown type codes pass as STOP. */
  function CompactMapBegin(s: PState): (st: Step<MapHead>)
    ensures s.SameFields(st.s) && |st.s.trans| <= |s.trans|
    ensures st.r.Ok? ==> |st.s.trans| < |s.trans|
  {
    var n := ReadLength(Compact, s);
    match n.r
    case Err(e) => Step(Err(e), n.s)
    case Ok(size) =>
      var b := if size == 0 then Step(Ok(0), n.s) else ReadByteDirect(n.s);
      match b.r
      case Err(e) => Step(Err(e), b.s)
      case Ok(types) => Step(Ok(MapHead(TTypeOrStop(types / 0x10), TTypeOrStop(types % 0x10), size)), b.s)
  }

  function BinaryMapBegin(s: PState): (st: Step<MapHead>)
    ensures s.SameFields(st.s) && |st.s.trans| <= |s.trans|
    ensures st.r.Ok? ==> |st.s.trans| < |s.trans|
  {
    var k := ReadByteDirect(s);
    match k.r
    case Err(e) => Step(Err(e), k.s)
    case Ok(kt) =>
      var v := ReadByteDirect(k.s);
      match v.r
      case Err(e) => Step(Err(e), v.s)
      case Ok(vt) =>
        var n := ReadLength(Binary, v.s);
        match n.r case Err(e) => Step(Err(e), n.s) case Ok(size) => Step(Ok(MapHead(kt, vt, size)), n.s)
  }

  // ---------------------------------------------------------------- compact messages

  const COMPACT_PROTOCOL_ID: Byte := 0x82
  const COMPACT_VERSION: Byte := 1

  /** Three bits of the message type fit beside the version; the sequence number is not zigzagged. */
  function EncMessage(name: seq<Byte>, typeId: I32, seqId: I32): seq<Byte> {
    [COMPACT_PROTOCOL_ID, COMPACT_VERSION + typeId % 8 * 0x20] + Digits(ToU32(seqId))
        + EncLength(Compact, |name|) + name
  }

  datatype Message = Message(name: seq<Byte>, typeId: I32, seqId: I32)

  function ReadMessage(s: PState): Step<Message> {
    var id := ReadByteDirect(s);
    match id.r
    case Err(e) => Step(Err(e), id.s)
    case Ok(protocolId) =>
      if protocolId != COMPACT_PROTOCOL_ID then Step(Err(BadVersion), id.s)
      else
        var vt := ReadByteDirect(id.s);
        match vt.r
        case Err(e) => Step(Err(e), vt.s)
        case Ok(versionAndType) =>
          if versionAndType % 0x20 != COMPACT_VERSION then Step(Err(BadVersion), vt.s)
          else
            var n := ReadVarint32(vt.s);
            match n.r
            case Err(e) => Step(Err(e), n.s)
            case Ok(seqId) =>
              var name := ReadString(Compact, n.s);
              match name.r
              case Err(e) => Step(Err(e), name.s)
              case Ok(b) => Step(Ok(Message(b, versionAndType / 0x20, seqId)), name.s)
  }
}
