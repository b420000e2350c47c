/** TBinaryProtocol over a memory buffer: fixed-width integers through the scratch buffer, and
    strings read in chunks. */
module BinaryProtocol {
  import opened Options
  import opened Words
  import opened Values
  import opened Wire

  const READ_LIMIT := 32768

  class TBinaryProtocol {
    var trans: seq<Byte>
    const buffer: array<Byte>

    ghost predicate Valid() { buffer.Length == 64 }

    /** The binary protocol keeps no field state. */
    ghost function State(): PState
      reads this
    {
      PState(trans, [], 0, 0, false, false, false, [])
    }

    constructor (bytes: seq<Byte>)
      ensures Valid() && fresh(buffer)
      ensures State() == PState(bytes, [], 0, 0, false, false, false, [])
    {
      trans := bytes;
      buffer := new Byte[64](_ => 0);
    }

    // -------------------------------------------------------------- writing

    /** encoding/binary into the scratch buffer, then out. */
    method WriteBigEndian(n: nat, u: nat)
      requires Valid() && n <= 8
      modifies this`trans, buffer
      ensures State() == old(State()).Put(BigEndian(n, u))
    {
      var bytes := BigEndian(n, u);
      forall i | 0 <= i < n { buffer[i] := bytes[i]; }
      assert buffer[0..n] == bytes;
      trans := trans + buffer[0..n];
    }

    method WriteFieldBegin(typeId: Byte, id: I16)
      requires Valid()
      modifies this`trans, buffer
      ensures State() == Wire.WriteFieldBegin(Binary, old(State()), typeId, id)
    {
      hide BigEndian;
      WriteRawByte(typeId);
      WriteBigEndian(2, id % 0x1_0000);
      assert trans == old(trans) + ([typeId] + BigEndian(2, id % 0x1_0000));
    }

    method WriteFieldStop()
      modifies this`trans
      ensures State() == old(State()).Put([STOP])
    {
      WriteRawByte(STOP);
    }

    method WriteMapBegin(keyType: Byte, valueType: Byte, size: int)
      requires Valid()
      modifies this`trans, buffer
      ensures State() == old(State()).Put(EncMapHeader(Binary, keyType, valueType, size))
    {
      hide BigEndian;
      WriteRawByte(keyType);
      WriteRawByte(valueType);
      BitsOfSigned(size);
      WriteI32(ToI32(size));
      assert trans == old(trans) + EncMapHeader(Binary, keyType, valueType, size);
    }

    method WriteListBegin(elemType: Byte, size: int)
      requires Valid()
      modifies this`trans, buffer
      ensures State() == old(State()).Put(EncListHeader(Binary, elemType, size))
    {
      hide BigEndian;
      WriteRawByte(elemType);
      BitsOfSigned(size);
      WriteI32(ToI32(size));
      assert trans == old(trans) + EncListHeader(Binary, elemType, size);
    }

    method WriteBool(value: bool)
      modifies this`trans
      ensures State() == Wire.WriteBool(Binary, old(State()), value)
    {
      if value {
        WriteRawByte(1);
      } else {
        WriteRawByte(0);
      }
    }

    method WriteRawByte(b: Byte)
      modifies this`trans
      ensures State() == old(State()).Put([b])
    {
      trans := trans + [b];
    }

    method WriteByte(value: I8)
      modifies this`trans
      ensures State() == old(State()).Put([ToByte(value)])
    {
      WriteRawByte(ToByte(value));
    }

    method WriteI16(value: I16)
      requires Valid()
      modifies this`trans, buffer
      ensures State() == old(State()).Put(EncInt(Binary, 2, value))
    {
      hide BigEndian, Pow2;
      ByteWidths();
      WriteBigEndian(2, value % 0x1_0000);
    }

    method WriteI32(value: I32)
      requires Valid()
      modifies this`trans, buffer
      ensures State() == old(State()).Put(EncInt(Binary, 4, value))
      ensures State() == old(State()).Put(BigEndian(4, ToU32(value)))
    {
      hide BigEndian, Pow2;
      ByteWidths();
      WriteBigEndian(4, ToU32(value));
    }

    method WriteI64(value: I64)
      requires Valid()
      modifies this`trans, buffer
      ensures State() == old(State()).Put(EncInt(Binary, 8, value))
      ensures State() == old(State()).Put(BigEndian(8, ToU64(value)))
    {
      hide BigEndian, Pow2;
      ByteWidths();
      WriteBigEndian(8, ToU64(value));
    }

    method WriteDouble(word: U64)
      requires Valid()
      modifies this`trans, buffer
      ensures State() == old(State()).Put(BigEndian(8, word))
    {
      BitsOfSigned(word);
      WriteI64(ToI64(word));
    }

    method WriteString(value: seq<Byte>)
      requires Valid()
      modifies this`trans, buffer
      ensures State() == old(State()).Put(EncLength(Binary, |value|) + value)
    {
      hide BigEndian;
      BitsOfSigned(|value|);
      WriteI32(ToI32(|value|));
      trans := trans + value;
      assert trans == old(trans) + (EncLength(Binary, |value|) + value);
    }

    // -------------------------------------------------------------- reading

    /** io.ReadFull into the first n bytes of b, which may be the scratch buffer. */
    method ReadFullInto(b: array<Byte>, n: nat) returns (err: Option<Error>)
      requires n <= b.Length
      modifies this`trans, b
      ensures State() == ReadFull(old(State()), n).s
      ensures err.None? <==> n <= |old(trans)|
      ensures err.None? ==> b[..n] == old(trans[..n])
      ensures err.Some? ==> err.value == EndOfFile
    {
      var got := if n <= |trans| then n else |trans|;
      var source := trans;
      forall i | 0 <= i < got { b[i] := source[i]; }
      trans := trans[got..];
      err := if got == n then None else Some(EndOfFile);
      if err.None? { assert b[..n] == source[..n]; }
    }

    method ReadFieldBegin() returns (typeId: Byte, id: I16, err: Option<Error>)
      requires Valid()
      modifies this`trans, buffer
      ensures var h := Wire.ReadFieldBegin(Binary, old(State()));
        && State() == h.s && typeId == h.h.typeId && err == h.h.err
        && (err.None? ==> id == h.h.id)
    {
      var t := ReadByte();
      if t.Err? {
        return STOP, 0, Some(t.error);
      }
      typeId := ToByte(t.value);
      id, err := 0, None;
      if t.value != STOP {
        var i := ReadI16();
        if i.Ok? { id := i.value; } else { err := Some(i.error); }
      }
    }

    method ReadMapBegin() returns (r: Result<MapHead>)
      requires Valid()
      modifies this`trans, buffer
      ensures Step(r, State()) == Wire.ReadMapBegin(Binary, old(State()))
    {
      var k := ReadByte();
      if k.Err? {
        return Err(k.error);
      }
      ghost var second := trans;
      var v := ReadByte();
      if v.Err? {
        return Err(v.error);
      }
      var size32 := ReadI32();
      if size32.Err? {
        return Err(size32.error);
      }
      if size32.value < 0 {
        return Err(InvalidData);
      }
      r := Ok(MapHead(ToByte(k.value), ToByte(v.value), size32.value));
    }

    method ReadListBegin() returns (r: Result<ListHead>)
      requires Valid()
      modifies this`trans, buffer
      ensures Step(r, State()) == Wire.ReadListBegin(Binary, old(State()))
    {
      var b := ReadByte();
      if b.Err? {
        return Err(b.error);
      }
      var size32 := ReadI32();
      if size32.Err? {
        return Err(size32.error);
      }
      if size32.value < 0 {
        return Err(InvalidData);
      }
      r := Ok(ListHead(ToByte(b.value), size32.value));
    }

    method ReadBool() returns (r: Result<bool>)
      modifies this`trans
      ensures Step(r, State()) == Wire.ReadBool(Binary, old(State()))
    {
      var b := ReadByte();
      if b.Err? {
        return Err(b.error);
      }
      r := Ok(b.value == 1);
    }

    method ReadByte() returns (r: Result<I8>)
      modifies this`trans
      ensures Step(r, State()) == Wire.ReadByte(old(State()))
    {
      if trans == [] {
        return Err(EndOfFile);
      }
      r := Ok(ToI8(trans[0]));
      trans := trans[1..];
    }

    method ReadI16() returns (r: Result<I16>)
      requires Valid()
      modifies this`trans, buffer
      ensures Step(r, State()) == Wire.ReadI16(Binary, old(State()))
    {
      var err := ReadFullInto(buffer, 2);
      r := if err.None? then Ok(ToI16(FromBigEndian(buffer[..2]))) else Err(err.value);
    }

    method ReadI32() returns (r: Result<I32>)
      requires Valid()
      modifies this`trans, buffer
      ensures Step(r, State()) == Wire.ReadI32(Binary, old(State()))
    {
      var err := ReadFullInto(buffer, 4);
      r := if err.None? then Ok(ToI32(FromBigEndian(buffer[..4]))) else Err(err.value);
    }

    method ReadI64() returns (r: Result<I64>)
      requires Valid()
      modifies this`trans, buffer
      ensures Step(r, State()) == Wire.ReadI64(Binary, old(State()))
    {
      var err := ReadFullInto(buffer, 8);
      r := if err.None? then Ok(ToI64(FromBigEndian(buffer[..8]))) else Err(err.value);
    }

    method ReadDouble() returns (r: Result<U64>)
      requires Valid()
      modifies this`trans, buffer
      ensures Step(r, State()) == Wire.ReadDouble(Binary, old(State()))
    {
      var err := ReadFullInto(buffer, 8);
      r := if err.None? then Ok(ToU64(FromBigEndian(buffer[..8]))) else Err(err.value);
    }

    method ReadString() returns (r: Result<seq<Byte>>)
      requires Valid()
      modifies this`trans, buffer
      ensures Step(r, State()) == Wire.ReadString(Binary, old(State()))
    {
      var size := ReadI32();
      if size.Err? {
        return Err(size.error);
      }
      if size.value < 0 {
        return Err(InvalidData);
      }
      r := ReadStringBody(size.value);
    }

    /** Whatever the size, exactly the first size bytes are returned and consumed: the scratch
        buffer, one buffer of the size, or one buffer of READ_LIMIT refilled as often as needed.
        The slice b[..len] is never longer than its array. */
    method ReadStringBody(size: I32) returns (r: Result<seq<Byte>>)
      requires Valid()
      modifies this`trans, buffer
      ensures size < 0 ==> r == Ok([]) && State() == old(State())
      ensures size >= 0 ==> Step(r, State()) == ReadFull(old(State()), size)
    {
      if size < 0 {
        return Ok([]);
      }
      var b: array<Byte>, len: nat;
      if size <= buffer.Length {
        b, len := buffer, size;
      } else if size < READ_LIMIT {
        b := new Byte[size](_ => 0);
        len := size;
      } else {
        b := new Byte[READ_LIMIT](_ => 0);
        len := READ_LIMIT;
      }
      var buf: seq<Byte>, left: int, e: Option<Error> := [], size, None;
      ghost var all := trans;
      while left > 0
        invariant b == buffer || fresh(b)
        invariant len <= b.Length && b.Length <= READ_LIMIT
        invariant left > 0 ==> len == if left < READ_LIMIT then left else READ_LIMIT
        invariant e.None? && |buf| <= |all| && buf == all[..|buf|] && trans == all[|buf|..]
        invariant if left > 0 then |buf| + left == size else |buf| == size
        decreases left
      {
        e := ReadFullInto(b, len);
        buf := buf + b[..len];
        if e.Some? {
          break;
        }
        left := left - READ_LIMIT;
        if left < READ_LIMIT && left > 0 {
          len := left;
        }
      }
      r := if e.None? then Ok(buf) else Err(e.value);
    }
  }
}
