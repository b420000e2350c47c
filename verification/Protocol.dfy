/** The protocol interface: dispatch to one of the two implementations, and Skip over either of them. */
module Protocol {
  import opened Options
  import opened Words
  import opened Values
  import opened Wire
  import opened CompactProtocol
  import opened BinaryProtocol
  import Skipping

  datatype TProtocol = CompactP(c: TCompactProtocol) | BinaryP(b: TBinaryProtocol) {

    function Kind(): Proto { match this case CompactP(_) => Compact case BinaryP(_) => Binary }

    ghost function Repr(): set<object> {
      match this case CompactP(c) => {c, c.buffer} case BinaryP(b) => {b, b.buffer}
    }

    ghost predicate Valid() {
      match this case CompactP(c) => c.Valid() case BinaryP(b) => b.Valid()
    }

    ghost function State(): PState
      reads Repr()
    {
      match this case CompactP(c) => c.State() case BinaryP(b) => b.State()
    }

    // -------------------------------------------------------------- dispatch: writing

    method WriteStructBegin()
      requires Valid()
      modifies Repr()
      ensures State() == StructBegin(Kind(), old(State()))
    {
      match this case CompactP(c) => c.WriteStructBegin(); case BinaryP(_) =>
    }

    method WriteStructEnd()
      requires Valid() && (Kind().Compact? ==> State().lastField != [])
      modifies Repr()
      ensures State() == StructEnd(Kind(), old(State()))
    {
      match this case CompactP(c) => c.WriteStructEnd(); case BinaryP(_) =>
    }

    method WriteFieldBegin(typeId: Byte, id: I16)
      requires Valid()
      modifies Repr()
      ensures State() == Wire.WriteFieldBegin(Kind(), old(State()), typeId, id)
    {
      match this case CompactP(c) => c.WriteFieldBegin(typeId, id); case BinaryP(b) => b.WriteFieldBegin(typeId, id);
    }

    method WriteFieldEnd()
      requires Valid()
      modifies Repr()
      ensures State() == FieldEnd(Kind(), old(State()))
    {
      match this case CompactP(c) => c.WriteFieldEnd(); case BinaryP(_) =>
    }

    method WriteFieldStop()
      requires Valid()
      modifies Repr()
      ensures State() == old(State()).Put([STOP])
    {
      match this case CompactP(c) => c.WriteFieldStop(); case BinaryP(b) => b.WriteFieldStop();
    }

    method WriteMapBegin(keyType: Byte, valueType: Byte, size: int)
      requires Valid()
      modifies Repr()
      ensures State() == old(State()).Put(EncMapHeader(Kind(), keyType, valueType, size))
    {
      match this
      case CompactP(c) => c.WriteMapBegin(keyType, valueType, size);
      case BinaryP(b) => b.WriteMapBegin(keyType, valueType, size);
    }

    method WriteListBegin(elemType: Byte, size: int)
      requires Valid()
      modifies Repr()
      ensures State() == old(State()).Put(EncListHeader(Kind(), elemType, size))
    {
      match this
      case CompactP(c) => c.WriteListBegin(elemType, size);
      case BinaryP(b) => b.WriteListBegin(elemType, size);
    }

    method WriteBool(value: bool)
      requires Valid()
      modifies Repr()
      ensures State() == Wire.WriteBool(Kind(), old(State()), value)
    {
      match this case CompactP(c) => c.WriteBool(value); case BinaryP(b) => b.WriteBool(value);
    }

    /** The writers of the other scalar types. */
    method WriteScalar(v: Value)
      requires Valid() && IsScalar(v) && !v.VBool?
      modifies Repr()
      ensures State() == old(State()).Put(Enc(Kind(), v))
    {
      match this
      case CompactP(c) => {
        match v
        case VByte(n) => c.WriteByte(n);
        case VI16(n) => c.WriteI16(n);
        case VI32(n) => c.WriteI32(n);
        case VI64(n) => c.WriteI64(n);
        case VDouble(w) => c.WriteDouble(w);
        case VString(s) => c.WriteString(s);
      }
      case BinaryP(b) => {
        match v
        case VByte(n) => b.WriteByte(n);
        case VI16(n) => b.WriteI16(n);
        case VI32(n) => b.WriteI32(n);
        case VI64(n) => b.WriteI64(n);
        case VDouble(w) => b.WriteDouble(w);
        case VString(s) => b.WriteString(s);
      }
    }

    // -------------------------------------------------------------- dispatch: reading

    method ReadStructBegin()
      requires Valid()
      modifies Repr()
      ensures State() == StructBegin(Kind(), old(State()))
    {
      match this case CompactP(c) => c.ReadStructBegin(); case BinaryP(_) =>
    }

    method ReadStructEnd()
      requires Valid() && (Kind().Compact? ==> State().lastField != [])
      modifies Repr()
      ensures State() == StructEnd(Kind(), old(State()))
    {
      match this case CompactP(c) => c.ReadStructEnd(); case BinaryP(_) =>
    }

    method ReadFieldBegin() returns (typeId: Byte, id: I16, err: Option<Error>)
      requires Valid()
      modifies Repr()
      ensures var h := Wire.ReadFieldBegin(Kind(), old(State()));
        && State() == h.s && typeId == h.h.typeId && err == h.h.err
        && (err.None? ==> id == h.h.id)
    {
      match this
      case CompactP(c) => typeId, id, err := c.ReadFieldBegin();
      case BinaryP(b) => typeId, id, err := b.ReadFieldBegin();
    }

    method ReadFieldEnd()
      requires Valid()
      modifies Repr()
      ensures State() == FieldEnd(Kind(), old(State()))
    {
      match this case CompactP(c) => c.ReadFieldEnd(); case BinaryP(_) =>
    }

    method ReadMapBegin() returns (r: Result<MapHead>)
      requires Valid()
      modifies Repr()
      ensures Step(r, State()) == Wire.ReadMapBegin(Kind(), old(State()))
    {
      match this case CompactP(c) => r := c.ReadMapBegin(); case BinaryP(b) => r := b.ReadMapBegin();
    }

    method ReadListBegin() returns (r: Result<ListHead>)
      requires Valid()
      modifies Repr()
      ensures Step(r, State()) == Wire.ReadListBegin(Kind(), old(State()))
    {
      match this case CompactP(c) => r := c.ReadListBegin(); case BinaryP(b) => r := b.ReadListBegin();
    }

    method ReadBool() returns (r: Result<bool>)
      requires Valid()
      modifies Repr()
      ensures Step(r, State()) == Wire.ReadBool(Kind(), old(State()))
    {
      match this case CompactP(c) => r := c.ReadBool(); case BinaryP(b) => r := b.ReadBool();
    }

    method ReadByte() returns (r: Result<I8>)
      requires Valid()
      modifies Repr()
      ensures Step(r, State()) == Wire.ReadByte(old(State()))
    {
      match this case CompactP(c) => r := c.ReadByte(); case BinaryP(b) => r := b.ReadByte();
    }

    method ReadI16() returns (r: Result<I16>)
      requires Valid()
      modifies Repr()
      ensures Step(r, State()) == Wire.ReadI16(Kind(), old(State()))
    {
      match this case CompactP(c) => r := c.ReadI16(); case BinaryP(b) => r := b.ReadI16();
    }

    method ReadI32() returns (r: Result<I32>)
      requires Valid()
      modifies Repr()
      ensures Step(r, State()) == Wire.ReadI32(Kind(), old(State()))
    {
      match this case CompactP(c) => r := c.ReadI32(); case BinaryP(b) => r := b.ReadI32();
    }

    method ReadI64() returns (r: Result<I64>)
      requires Valid()
      modifies Repr()
      ensures Step(r, State()) == Wire.ReadI64(Kind(), old(State()))
    {
      match this case CompactP(c) => r := c.ReadI64(); case BinaryP(b) => r := b.ReadI64();
    }

    method ReadDouble() returns (r: Result<U64>)
      requires Valid()
      modifies Repr()
      ensures Step(r, State()) == Wire.ReadDouble(Kind(), old(State()))
    {
      match this case CompactP(c) => r := c.ReadDouble(); case BinaryP(b) => r := b.ReadDouble();
    }

    method ReadString() returns (r: Result<seq<Byte>>)
      requires Valid()
      modifies Repr()
      ensures Step(r, State()) == Wire.ReadString(Kind(), old(State()))
    {
      match this case CompactP(c) => r := c.ReadString(); case BinaryP(b) => r := b.ReadString();
    }

    // -------------------------------------------------------------- Skip

    method SkipDefaultDepth(fieldType: Byte, ghost budget: nat) returns (r: Result<()>)
      requires Valid() && |State().trans| < budget
      modifies Repr()
      ensures Step(r, State()) == Skipping.Skip(Kind(), old(State()), fieldType, Skipping.DEFAULT_RECURSION_DEPTH)
      decreases budget, 2
    {
      r := Skip(fieldType, Skipping.DEFAULT_RECURSION_DEPTH, budget);
    }

    /** Terminates on every input although map values restart the depth and errors are dropped: each
        nested call is given one less of a budget that starts above the unread length, so calls nest
        no deeper than there are bytes.  The field stack is never popped empty. */
    method Skip(fieldType: Byte, maxDepth: int, ghost budget: nat) returns (r: Result<()>)
      requires Valid() && |State().trans| < budget
      modifies Repr()
      ensures Step(r, State()) == Skipping.Skip(Kind(), old(State()), fieldType, maxDepth)
      decreases budget, 1
    {
      if maxDepth <= 0 {
        return Err(DepthLimit);
      }
      if fieldType == STOP {
        r := Ok(());
      } else if fieldType == STRUCT {
        r := SkipStruct(maxDepth, budget);
      } else if fieldType == MAP {
        r := SkipMap(maxDepth, budget);
      } else if fieldType == SET || fieldType == LIST {
        r := SkipList(maxDepth, budget);
      } else {
        r := SkipScalar(fieldType);
      }
    }

    method SkipScalar(fieldType: Byte) returns (r: Result<()>)
      requires Valid()
      modifies Repr()
      ensures Step(r, State()) == Skipping.SkipScalar(Kind(), old(State()), fieldType)
    {
      hide Wire.ReadBool, Wire.ReadByte, Wire.ReadI16, Wire.ReadI32, Wire.ReadI64, Wire.ReadDouble, Wire.ReadString;
      if fieldType == BOOL {
        var a := ReadBool();
        r := match a case Ok(_) => Ok(()) case Err(e) => Err(e);
      } else if fieldType == BYTE {
        var a := ReadByte();
        r := match a case Ok(_) => Ok(()) case Err(e) => Err(e);
      } else if fieldType == I16T {
        var a := ReadI16();
        r := match a case Ok(_) => Ok(()) case Err(e) => Err(e);
      } else if fieldType == I32T {
        var a := ReadI32();
        r := match a case Ok(_) => Ok(()) case Err(e) => Err(e);
      } else if fieldType == I64T {
        var a := ReadI64();
        r := match a case Ok(_) => Ok(()) case Err(e) => Err(e);
      } else if fieldType == DOUBLE {
        var a := ReadDouble();
        r := match a case Ok(_) => Ok(()) case Err(e) => Err(e);
      } else if fieldType == STRING {
        var a := ReadString();
        r := match a case Ok(_) => Ok(()) case Err(e) => Err(e);
      } else {
        r := Err(InvalidData);
      }
    }

    method SkipStruct(maxDepth: int, ghost budget: nat) returns (r: Result<()>)
      requires Valid() && |State().trans| < budget && maxDepth > 0
      modifies Repr()
      ensures Step(r, State()) == Skipping.Skip(Kind(), old(State()), STRUCT, maxDepth)
      decreases budget, 0
    {
      hide Wire.ReadFieldBegin;
      ReadStructBegin();
      ghost var s0 := State();
      while true
        invariant |State().trans| <= |s0.trans| < budget
        invariant Skipping.SkipFields(Kind(), State(), maxDepth) == Skipping.SkipFields(Kind(), s0, maxDepth)
        decreases |State().trans|
      {
        var typeId, _, _ := ReadFieldBegin();
        if typeId == STOP {
          break;
        }
        var v := Skip(typeId, maxDepth - 1, budget - 1);
        if v.Err? {
          return v;
        }
        ReadFieldEnd();
      }
      ReadStructEnd();
      r := Ok(());
    }

    method SkipMap(maxDepth: int, ghost budget: nat) returns (r: Result<()>)
      requires Valid() && |State().trans| < budget && maxDepth > 0
      modifies Repr()
      ensures Step(r, State()) == Skipping.Skip(Kind(), old(State()), MAP, maxDepth)
      decreases budget, 0
    {
      hide Wire.ReadMapBegin, Skipping.Skip, Skipping.SkipEntries;
      Skipping.SkipMapTurn(Kind(), State(), maxDepth);
      var h := ReadMapBegin();
      if h.Err? {
        return Err(h.error);
      }
      var MapHead(keyType, valueType, size) := h.value;
      ghost var s1 := State();
      for i := 0 to size
        invariant |State().trans| <= |s1.trans|
        invariant Skipping.SkipEntries(Kind(), State(), keyType, valueType, size - i, maxDepth)
          == Skipping.SkipEntries(Kind(), s1, keyType, valueType, size, maxDepth)
      {
        Skipping.SkipEntriesTurn(Kind(), State(), keyType, valueType, size - i, maxDepth);
        var k := Skip(keyType, maxDepth - 1, budget - 1);
        if k.Err? {
          return k;
        }
        var _ := SkipDefaultDepth(valueType, budget - 1);
      }
      Skipping.SkipEntriesTurn(Kind(), State(), keyType, valueType, 0, maxDepth);
      r := Ok(());
    }

    method SkipList(maxDepth: int, ghost budget: nat) returns (r: Result<()>)
      requires Valid() && |State().trans| < budget && maxDepth > 0
      modifies Repr()
      ensures Step(r, State()) == Skipping.Skip(Kind(), old(State()), LIST, maxDepth)
      decreases budget, 0
    {
      hide Wire.ReadListBegin;
      var h := ReadListBegin();
      if h.Err? {
        return Err(h.error);
      }
      var ListHead(elemType, size) := h.value;
      ghost var s1 := State();
      for i := 0 to size
        invariant |State().trans| <= |s1.trans|
        invariant Skipping.SkipAll(Kind(), State(), elemType, size - i, maxDepth)
          == Skipping.SkipAll(Kind(), s1, elemType, size, maxDepth)
      {
        var v := Skip(elemType, maxDepth - 1, budget - 1);
        if v.Err? {
          return v;
        }
      }
      r := Ok(());
    }
  }
}
