/** TCompactProtocol over a memory buffer, method by method. */
module CompactProtocol {
  import opened Options
  import opened Words
  import opened Varint
  import opened Values
  import opened Wire

  /** Where the reading loop is: acc holds the bits read, and what is unread continues them. */
  ghost predicate ReadSoFar(start: seq<Byte>, now: seq<Byte>, acc: nat, shift: nat) {
    match Undigits(now)
    case None => Undigits(start).None?
    case Some((high, rest)) => Undigits(start) == Some((acc + Pow2(shift) * high, rest))
  }

  lemma StartOfVarint()
    ensures Pow2(0) == 1 && forall start: seq<Byte> :: ReadSoFar(start, start, 0, 0)
  {}

  lemma UndigitsTurn(now: seq<Byte>)
    ensures Undigits(now) ==
      if now == [] then None
      else if now[0] < 0x80 then Some((now[0], now[1..]))
      else match Undigits(now[1..])
        case None => None
        case Some((u, rest)) => Some((now[0] - 0x80 + 0x80 * u, rest))
  {}

  lemma JoinDigits(acc: nat, digit: nat, shift: nat, high: nat)
    ensures acc + Pow2(shift) * (digit + 0x80 * high) == acc + digit * Pow2(shift) + Pow2(shift + 7) * high
  {
    hide Pow2;
    Pow2Add(shift, 7);
    Pow2Widths();
    assert Pow2(shift) * (digit + 0x80 * high) == digit * Pow2(shift) + (Pow2(shift) * 0x80) * high;
  }

  /** One turn of the reading loop puts seven more bits in place. */
  lemma ReadTurnBits(b: Byte, acc: nat, shift: nat, result: I64)
    requires acc < Pow2(shift) && ToU64(result) == ToU64(acc)
    ensures 0 <= b % 0x80 * Pow2(shift)
    ensures ToI64(Or(ToU64(result), ShiftLeft64(And(b, 0x7f), shift))) == ToI64(acc + b % 0x80 * Pow2(shift))
    ensures ToU64(ToI64(acc + b % 0x80 * Pow2(shift))) == ToU64(acc + b % 0x80 * Pow2(shift))
    ensures acc + b % 0x80 * Pow2(shift) < Pow2(shift + 7)
  {
    hide And, Or, ToU64, ToI64, ShiftLeft64, Pow2;
    ByteMasks(b);
    ReadStep(acc, b % 0x80, shift);
    SignedOfUnsigned64(acc + b % 0x80 * Pow2(shift));
    BitsOfSigned(acc + b % 0x80 * Pow2(shift));
  }

  lemma SignedOfUnsigned64(n: int)
    ensures ToI64(ToU64(n)) == ToI64(n)
  {}

  /** Either the varint ends with this byte, or it goes on. */
  lemma ReadTurnDigits(start: seq<Byte>, now: seq<Byte>, acc: nat, shift: nat)
    requires now != [] && ReadSoFar(start, now, acc, shift)
    ensures 0 <= now[0] % 0x80 * Pow2(shift)
    ensures var acc' := acc + now[0] % 0x80 * Pow2(shift);
      if now[0] < 0x80 then Undigits(start) == Some((acc', now[1..]))
      else ReadSoFar(start, now[1..], acc', shift + 7)
  {
    hide Pow2, Undigits;
    UndigitsTurn(now);
    var digit := now[0] % 0x80;
    assert Pow2(shift) * digit == digit * Pow2(shift);
    if now[0] >= 0x80 && Undigits(now[1..]).Some? {
      JoinDigits(acc, digit, shift, Undigits(now[1..]).value.0);
    }
  }

  class TCompactProtocol {
    var trans: seq<Byte>
    var lastField: seq<int>
    var lastFieldId: int
    var booleanFieldId: I16
    var booleanFieldPending: bool
    var boolValue: bool
    var boolValueIsNotNull: bool
    const buffer: array<Byte>
    ghost var marks: seq<Mark>

    ghost predicate Valid() { buffer.Length == 64 }

    ghost function State(): PState
      reads this
    {
      PState(trans, lastField, lastFieldId, booleanFieldId, booleanFieldPending, boolValue, boolValueIsNotNull, marks)
    }

    constructor (bytes: seq<Byte>)
      ensures Valid() && fresh(buffer)
      ensures State() == PState(bytes, [], 0, 0, false, false, false, [])
    {
      trans, lastField, lastFieldId := bytes, [], 0;
      booleanFieldId, booleanFieldPending, boolValue, boolValueIsNotNull := 0, false, false, false;
      buffer := new Byte[64](_ => 0);
      marks := [];
    }

    // -------------------------------------------------------------- writing

    method WriteByteDirect(b: Byte)
      modifies this`trans
      ensures State() == old(State()).Put([b])
    {
      trans := trans + [b];
    }

    /** At most five bytes go through the scratch buffer. */
    method WriteVarint32(n: I32) returns (written: nat)
      requires Valid()
      modifies this`trans, buffer
      ensures State() == old(State()).Put(Digits(ToU32(n)))
      ensures written == |Digits(ToU32(n))| <= 5
    {
      hide And, Or, ToByte, ToU32, ToI32, Digits;
      var m: I32, idx := n, 0;
      ghost var digits := Digits(ToU32(n));
      DigitsBounds(ToU32(n));
      while true
        invariant idx < |digits| <= 5
        invariant buffer[..idx] + Digits(ToU32(m)) == digits
        invariant trans == old(trans)
        decreases ToU32(m)
      {
        WriteStep32(m);
        DigitsStep(ToU32(m));
        assert |buffer[..idx]| + |Digits(ToU32(m))| == |digits|;
        if And(ToU32(m), 0xffff_ff80) == 0 {
          buffer[idx] := ToByte(m);
          idx := idx + 1;
          break;
        } else {
          buffer[idx] := ToByte(Or(And(ToU32(m), 0x7f), 0x80));
          idx := idx + 1;
          var u := ToU32(m);
          m := ToI32(u / 0x80);
        }
      }
      assert buffer[..idx] == digits;
      trans := trans + buffer[..idx];
      written := idx;
    }

    /** At most ten bytes go through the scratch buffer. */
    method WriteVarint64(n: I64) returns (written: nat)
      requires Valid()
      modifies this`trans, buffer
      ensures State() == old(State()).Put(Digits(ToU64(n)))
      ensures written == |Digits(ToU64(n))| <= 10
    {
      hide And, Or, ToByte, ToU64, ToI64, Digits;
      var m: I64, idx := n, 0;
      ghost var digits := Digits(ToU64(n));
      DigitsBounds(ToU64(n));
      while true
        invariant idx < |digits| <= 10
        invariant buffer[..idx] + Digits(ToU64(m)) == digits
        invariant trans == old(trans)
        decreases ToU64(m)
      {
        WriteStep64(m);
        DigitsStep(ToU64(m));
        assert |buffer[..idx]| + |Digits(ToU64(m))| == |digits|;
        if And(ToU64(m), 0xffff_ffff_ffff_ff80) == 0 {
          buffer[idx] := ToByte(m);
          idx := idx + 1;
          break;
        } else {
          buffer[idx] := ToByte(Or(And(ToU64(m), 0x7f), 0x80));
          idx := idx + 1;
          var u := ToU64(m);
          m := ToI64(u / 0x80);
        }
      }
      assert buffer[..idx] == digits;
      trans := trans + buffer[..idx];
      written := idx;
    }

    method WriteMessageBegin(name: seq<Byte>, typeId: I32, seqId: I32)
      requires Valid()
      modifies this`trans, buffer
      ensures State() == old(State()).Put(EncMessage(name, typeId, seqId))
    {
      hide And, Or, ToByte, Digits, EncLength;
      WriteByteDirect(COMPACT_PROTOCOL_ID);
      VersionAndType(typeId);
      WriteByteDirect(Or(And(COMPACT_VERSION, 0x1f), And(ToByte(ToByte(typeId) * 0x20), 0xe0)));
      var _ := WriteVarint32(seqId);
      WriteString(name);
      assert trans == old(trans) + EncMessage(name, typeId, seqId);
    }

    method ReadMessageBegin() returns (r: Result<Message>)
      modifies this`trans
      ensures Step(r, State()) == ReadMessage(old(State()))
    {
      hide And, Wire.ReadByteDirect, Wire.ReadVarint32, Wire.ReadString;
      var protocolId := ReadByteDirect();
      if protocolId.Err? {
        return Err(protocolId.error);
      }
      if protocolId.value != COMPACT_PROTOCOL_ID {
        return Err(BadVersion);
      }
      var versionAndType := ReadByteDirect();
      if versionAndType.Err? {
        return Err(versionAndType.error);
      }
      ByteMasks(versionAndType.value);
      ThreeBits(versionAndType.value / 0x20);
      var version := And(versionAndType.value, 0x1f);
      var typeId := And(versionAndType.value / 0x20, 0x07);
      if version != COMPACT_VERSION {
        return Err(BadVersion);
      }
      var seqId := ReadVarint32();
      if seqId.Err? {
        return Err(seqId.error);
      }
      var name := ReadString();
      if name.Err? {
        return Err(name.error);
      }
      r := Ok(Message(name.value, typeId, seqId.value));
    }

    method WriteStructBegin()
      modifies this
      ensures State() == StructBegin(Compact, old(State()))
    {
      lastField := lastField + [lastFieldId];
      lastFieldId := 0;
      marks := State().Marked().marks;
    }

    method WriteStructEnd()
      requires lastField != []
      modifies this
      ensures State() == StructEnd(Compact, old(State()))
    {
      lastFieldId := lastField[|lastField| - 1];
      lastField := lastField[..|lastField| - 1];
      marks := State().Marked().marks;
    }

    method WriteFieldBegin(typeId: Byte, id: I16)
      requires Valid()
      modifies this, buffer
      ensures State() == Wire.WriteFieldBegin(Compact, old(State()), typeId, id)
    {
      if typeId == BOOL {
        booleanFieldId, booleanFieldPending := id, true;
      } else {
        WriteFieldBeginInternal(typeId, id, 0xff);
      }
    }

    method WriteFieldBeginInternal(typeId: Byte, id: I16, typeOverride: Byte)
      requires Valid() && (typeOverride < 0x10 || typeOverride == 0xff)
      modifies this, buffer
      ensures State() == old(State()).(lastFieldId := id)
        .Put(CompactFieldHeader(old(lastFieldId), id, if typeOverride == 0xff then CompactType(typeId)
            else typeOverride))
    {
      hide Or, ToByte;
      var typeToWrite := if typeOverride == 0xff then CompactType(typeId) else typeOverride;
      var fieldId: int := id;
      if fieldId > lastFieldId && fieldId - lastFieldId <= 15 {
        OrNibbles(fieldId - lastFieldId, typeToWrite);
        WriteByteDirect(ToByte(Or(ToByte((fieldId - lastFieldId) * 0x10), typeToWrite)));
      } else {
        WriteByteDirect(typeToWrite);
        WriteI16(id);
      }
      lastFieldId := fieldId;
    }

    method WriteFieldEnd()
      modifies this`marks
      ensures State() == FieldEnd(Compact, old(State()))
    {
      marks := State().Marked().marks;
    }

    method WriteFieldStop()
      modifies this`trans
      ensures State() == old(State()).Put([STOP])
    {
      WriteByteDirect(STOP);
    }

    method WriteMapBegin(keyType: Byte, valueType: Byte, size: int)
      requires Valid()
      modifies this`trans, buffer
      ensures State() == old(State()).Put(EncMapHeader(Compact, keyType, valueType, size))
    {
      if size == 0 {
        WriteByteDirect(0);
        return;
      }
      BitsOfSigned(size);
      var _ := WriteVarint32(ToI32(size));
      OrNibbles(CompactType(keyType), CompactType(valueType));
      WriteByteDirect(ToByte(Or(CompactType(keyType) * 0x10, CompactType(valueType))));
      assert trans == old(trans) + EncMapHeader(Compact, keyType, valueType, size);
    }

    method WriteListBegin(elemType: Byte, size: int)
      requires Valid()
      modifies this`trans, buffer
      ensures State() == old(State()).Put(EncListHeader(Compact, elemType, size))
    {
      WriteCollectionBegin(elemType, size);
    }

    method WriteSetBegin(elemType: Byte, size: int)
      requires Valid()
      modifies this`trans, buffer
      ensures State() == old(State()).Put(EncListHeader(Compact, elemType, size))
    {
      WriteCollectionBegin(elemType, size);
    }

    method WriteCollectionBegin(elemType: Byte, size: int)
      requires Valid()
      modifies this`trans, buffer
      ensures State() == old(State()).Put(EncListHeader(Compact, elemType, size))
    {
      hide Or, ToByte, CompactType;
      if size <= 14 {
        LowNibble(size);
        OrNibbles(size % 0x10, CompactType(elemType));
        WriteByteDirect(Or(ToByte(size * 0x10), CompactType(elemType)));
        return;
      }
      OrNibbles(15, CompactType(elemType));
      WriteByteDirect(Or(0xf0, CompactType(elemType)));
      BitsOfSigned(size);
      var _ := WriteVarint32(ToI32(size));
      assert trans == old(trans) + EncListHeader(Compact, elemType, size);
    }

    method WriteBool(value: bool)
      requires Valid()
      modifies this, buffer
      ensures State() == Wire.WriteBool(Compact, old(State()), value)
    {
      var v: Byte := 2;
      if value { v := 1; }
      if booleanFieldPending {
        WriteFieldBeginInternal(BOOL, booleanFieldId, v);
        booleanFieldPending := false;
        return;
      }
      WriteByteDirect(v);
    }

    method WriteByte(value: I8)
      modifies this`trans
      ensures State() == old(State()).Put([ToByte(value)])
    {
      WriteByteDirect(ToByte(value));
    }

    method WriteI16(value: I16)
      requires Valid()
      modifies this`trans, buffer
      ensures State() == old(State()).Put(EncInt(Compact, 2, value))
    {
      EncodeIsZigZag32(value);
      var _ := WriteVarint32(Int32ToZigZag(value));
    }

    method WriteI32(value: I32)
      requires Valid()
      modifies this`trans, buffer
      ensures State() == old(State()).Put(EncInt(Compact, 4, value))
    {
      EncodeIsZigZag32(value);
      var _ := WriteVarint32(Int32ToZigZag(value));
    }

    method WriteI64(value: I64)
      requires Valid()
      modifies this`trans, buffer
      ensures State() == old(State()).Put(EncInt(Compact, 8, value))
    {
      EncodeIsZigZag64(value);
      var _ := WriteVarint64(Int64ToZigZag(value));
    }

    method WriteDouble(word: U64)
      requires Valid()
      modifies this`trans, buffer
      ensures State() == old(State()).Put(LittleEndian(8, word))
    {
      var bytes := LittleEndian(8, word);
      forall i | 0 <= i < 8 { buffer[i] := bytes[i]; }
      assert buffer[0..8] == bytes;
      trans := trans + buffer[0..8];
    }

    method WriteString(value: seq<Byte>)
      requires Valid()
      modifies this`trans, buffer
      ensures State() == old(State()).Put(EncLength(Compact, |value|) + value)
    {
      BitsOfSigned(|value|);
      var _ := WriteVarint32(ToI32(|value|));
      trans := trans + value;
      assert trans == old(trans) + (EncLength(Compact, |value|) + value);
    }

    // -------------------------------------------------------------- reading

    method ReadByteDirect() returns (r: Result<Byte>)
      modifies this`trans
      ensures Step(r, State()) == Wire.ReadByteDirect(old(State()))
    {
      if trans == [] {
        return Err(EndOfFile);
      }
      r := Ok(trans[0]);
      trans := trans[1..];
    }

    /** However long the run of continuation bytes, the accumulator holds its value modulo 2^64. */
    method ReadVarint64() returns (r: Result<I64>)
      modifies this`trans
      ensures Step(r, State()) == Wire.ReadVarint64(old(State()))
    {
      hide And, Or, ToU64, ToI64, ShiftLeft64, Pow2, Undigits;
      var shift: nat, result: I64 := 0, 0;
      ghost var acc: nat := 0;
      StartOfVarint();
      while true
        invariant acc < Pow2(shift) && ToU64(result) == ToU64(acc)
        invariant ReadSoFar(old(trans), trans, acc, shift)
        decreases |trans|
      {
        ghost var before := trans;
        var b := ReadByteDirect();
        if b.Err? {
          UndigitsTurn(before);
          return Err(b.error);
        }
        ByteMasks(b.value);
        ReadTurnBits(b.value, acc, shift, result);
        ReadTurnDigits(old(trans), before, acc, shift);
        result := ToI64(Or(ToU64(result), ShiftLeft64(And(b.value, 0x7f), shift)));
        acc := acc + b.value % 0x80 * Pow2(shift);
        if And(b.value, 0x80) != 0x80 {
          break;
        }
        shift := shift + 7;
      }
      r := Ok(result);
    }

    method ReadVarint32() returns (r: Result<I32>)
      modifies this`trans
      ensures Step(r, State()) == Wire.ReadVarint32(old(State()))
    {
      var v := ReadVarint64();
      r := match v case Ok(n) => Ok(ToI32(n)) case Err(e) => Err(e);
    }

    method ReadStructBegin()
      modifies this
      ensures State() == StructBegin(Compact, old(State()))
    {
      lastField := lastField + [lastFieldId];
      lastFieldId := 0;
      marks := State().Marked().marks;
    }

    method ReadStructEnd()
      requires lastField != []
      modifies this
      ensures State() == StructEnd(Compact, old(State()))
    {
      lastFieldId := lastField[|lastField| - 1];
      lastField := lastField[..|lastField| - 1];
      marks := State().Marked().marks;
    }

    method ReadFieldBegin() returns (typeId: Byte, id: I16, err: Option<Error>)
      modifies this
      ensures Headed(FieldHead(typeId, id, err), State()) == Wire.ReadFieldBegin(Compact, old(State()))
    {
      hide And, ToI16, TTypeOf, Wire.ReadByteDirect, Wire.ReadI16;
      var t := ReadByteDirect();
      if t.Err? {
        return STOP, 0, Some(t.error);
      }
      ByteMasks(t.value);
      if And(t.value, 0x0f) == STOP {
        return STOP, 0, None;
      }
      var modifier: I16 := And(t.value, 0xf0) / 0x10;
      if modifier == 0 {
        var i := ReadI16();
        if i.Err? {
          return STOP, 0, Some(i.error);
        }
        id := i.value;
      } else {
        id := ToI16(ToI16(lastFieldId) + modifier);
      }
      var tt := TTypeOf(And(t.value, 0x0f));
      if tt.None? {
        return STOP, id, Some(UnknownProtocol);
      }
      if IsBoolType(t.value) {
        boolValue := And(t.value, 0x0f) == 1;
        boolValueIsNotNull := true;
      }
      lastFieldId := id;
      return tt.value, id, None;
    }

    static predicate IsBoolType(b: Byte) {
      And(b, 0x0f) == 1 || And(b, 0x0f) == 2
    }

    method ReadFieldEnd()
      modifies this`marks
      ensures State() == FieldEnd(Compact, old(State()))
    {
      marks := State().Marked().marks;
    }

    method ReadMapBegin() returns (r: Result<MapHead>)
      modifies this`trans
      ensures Step(r, State()) == Wire.ReadMapBegin(Compact, old(State()))
    {
      var size32 := ReadVarint32();
      if size32.Err? {
        return Err(size32.error);
      }
      if size32.value < 0 {
        return Err(InvalidData);
      }
      var keyAndValueType: Byte := STOP;
      if size32.value != 0 {
        var b := ReadByteDirect();
        if b.Err? {
          return Err(b.error);
        }
        keyAndValueType := b.value;
      }
      ByteMasks(keyAndValueType);
      r := Ok(MapHead(TTypeOrStop(keyAndValueType / 0x10), TTypeOrStop(And(keyAndValueType, 0x0f)), size32.value));
    }

    method ReadListBegin() returns (r: Result<ListHead>)
      modifies this`trans
      ensures Step(r, State()) == Wire.ReadListBegin(Compact, old(State()))
    {
      var sizeAndType := ReadByteDirect();
      if sizeAndType.Err? {
        return Err(sizeAndType.error);
      }
      ByteMasks(sizeAndType.value);
      var size: int := sizeAndType.value / 0x10;
      if size == 15 {
        var size2 := ReadVarint32();
        if size2.Err? {
          return Err(size2.error);
        }
        if size2.value < 0 {
          return Err(InvalidData);
        }
        size := size2.value;
      }
      var elemType := TTypeOf(And(sizeAndType.value, 0x0f));
      if elemType.None? {
        return Err(UnknownProtocol);
      }
      r := Ok(ListHead(elemType.value, size));
    }

    method ReadSetBegin() returns (r: Result<ListHead>)
      modifies this`trans
      ensures Step(r, State()) == Wire.ReadListBegin(Compact, old(State()))
    {
      r := ReadListBegin();
    }

    method ReadBool() returns (r: Result<bool>)
      modifies this
      ensures Step(r, State()) == Wire.ReadBool(Compact, old(State()))
    {
      if boolValueIsNotNull {
        boolValueIsNotNull := false;
        return Ok(boolValue);
      }
      var v := ReadByteDirect();
      r := match v case Ok(b) => Ok(b == 1) case Err(e) => Err(e);
    }

    method ReadByte() returns (r: Result<I8>)
      modifies this`trans
      ensures Step(r, State()) == Wire.ReadByte(old(State()))
    {
      var v := ReadByteDirect();
      r := match v case Ok(b) => Ok(ToI8(b)) case Err(e) => Err(e);
    }

    method ReadI16() returns (r: Result<I16>)
      modifies this`trans
      ensures Step(r, State()) == Wire.ReadI16(Compact, old(State()))
    {
      var v := ReadI32();
      r := match v case Ok(n) => Ok(ToI16(n)) case Err(e) => Err(e);
    }

    method ReadI32() returns (r: Result<I32>)
      modifies this`trans
      ensures Step(r, State()) == Wire.ReadI32(Compact, old(State()))
    {
      var v := ReadVarint32();
      if v.Err? {
        return Err(v.error);
      }
      DecodeIsUnZigZag32(v.value);
      r := Ok(ZigZagToInt32(v.value));
    }

    method ReadI64() returns (r: Result<I64>)
      modifies this`trans
      ensures Step(r, State()) == Wire.ReadI64(Compact, old(State()))
    {
      var v := ReadVarint64();
      if v.Err? {
        return Err(v.error);
      }
      DecodeIsUnZigZag64(v.value);
      r := Ok(ZigZagToInt64(v.value));
    }

    /** io.ReadFull over the memory buffer. */
    method ReadFull(n: nat) returns (r: Result<seq<Byte>>)
      modifies this`trans
      ensures Step(r, State()) == Wire.ReadFull(old(State()), n)
    {
      if n <= |trans| {
        r := Ok(trans[..n]);
        trans := trans[n..];
      } else {
        r := Err(EndOfFile);
        trans := [];
      }
    }

    method ReadDouble() returns (r: Result<U64>)
      modifies this`trans
      ensures Step(r, State()) == Wire.ReadDouble(Compact, old(State()))
    {
      var longBits := ReadFull(8);
      if longBits.Err? {
        return Err(longBits.error);
      }
      r := Ok(ToU64(FromLittleEndian(longBits.value)));
    }

    method ReadString() returns (r: Result<seq<Byte>>)
      modifies this`trans
      ensures Step(r, State()) == Wire.ReadString(Compact, old(State()))
    {
      var length := ReadVarint32();
      if length.Err? {
        return Err(length.error);
      }
      if length.value < 0 {
        return Err(InvalidData);
      }
      if length.value == 0 {
        return Ok([]);
      }
      r := ReadFull(length.value);
    }
  }

  /** A type code joined to four high bits. */
  lemma OrNibbles(high: nat, low: nat)
    requires high < 0x10 && low < 0x10
    ensures Or(high * 0x10, low) == high * 0x10 + low < 0x100
    ensures ToByte(high * 0x10 + low) == high * 0x10 + low && ToByte(high * 0x10) == high * 0x10
  {
    hide Or;
    Pow2Widths();
    OrDisjoint(low, high, 4);
    OrSym(high * 0x10, low);
  }

  lemma LowNibble(n: int)
    ensures ToByte(n * 0x10) == n % 0x10 * 0x10
  {
  }

  lemma ThreeBits(b: nat)
    requires b < 8
    ensures And(b, 0x07) == b
  {
    AndLow(b, 3, 0, b);
    assert Pow2(3) == 8;
  }

  /** The version and the three low bits of the type share a byte. */
  lemma VersionAndType(typeId: I32)
    ensures And(COMPACT_VERSION, 0x1f) == COMPACT_VERSION
    ensures And(ToByte(ToByte(typeId) * 0x20), 0xe0) == typeId % 8 * 0x20
    ensures Or(COMPACT_VERSION, typeId % 8 * 0x20) == COMPACT_VERSION + typeId % 8 * 0x20
  {
    hide And, Or, ToByte;
    ByteMasks(COMPACT_VERSION);
    TypeBits(typeId);
    ByteMasks(ToByte(ToByte(typeId) * 0x20));
    Pow2Widths();
    OrDisjoint(COMPACT_VERSION, typeId % 8, 5);
  }

  lemma TypeBits(typeId: I32)
    ensures ToByte(ToByte(typeId) * 0x20) == typeId % 8 * 0x20
  {
    var r: nat := ToByte(typeId);
    assert typeId == typeId / 0x100 * 0x20 * 8 + r / 8 * 8 + r % 8;
    assert typeId % 8 == r % 8;
    assert r * 0x20 == r / 8 * 0x100 + r % 8 * 0x20;
  }
}
