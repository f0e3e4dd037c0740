/**
  Big-endian numbers, and the bounded writer and reader of src/base.
 */
module DataStreams {
  import opened Machine

  function BE16(v: u16): seq<byte> {
    [v / 256, v % 256]
  }

  function BE32(v: u32): seq<byte> {
    BE16(v / U16) + BE16(v % U16)
  }

  function FromBE16(bytes: seq<byte>): u16
    requires |bytes| == 2
  {
    (bytes[0] as int) * 256 + bytes[1] as int
  }

  function FromBE32(bytes: seq<byte>): u32
    requires |bytes| == 4
  {
    FromBE16(bytes[..2]) * U16 + FromBE16(bytes[2..])
  }

  // Network byte order: the most significant byte first.

  lemma Bytes16(v: u16)
    ensures var b := BE16(v); |b| == 2 && Big16(b[0], b[1]) == v
  {
  }

  lemma Bytes32(v: u32)
    ensures var b := BE32(v); |b| == 4 && Big32(b[0], b[1], b[2], b[3]) == v
  {
    Bytes16(v / U16);
    Bytes16(v % U16);
  }

  lemma Value16(b: seq<byte>)
    requires |b| == 2
    ensures FromBE16(b) == Big16(b[0], b[1])
  {
  }

  lemma Value32(b: seq<byte>)
    requires |b| == 4
    ensures FromBE32(b) == Big32(b[0], b[1], b[2], b[3])
  {
    Value16(b[..2]);
    Value16(b[2..]);
  }

  /** As htonl has it. */
  lemma NetworkOrder()
    ensures BE16(0x0102) == [1, 2] && BE32(0x0102_0304) == [1, 2, 3, 4] && BE32(1) == [0, 0, 0, 1]
  {
  }

  lemma RoundTrip16(v: u16)
    ensures FromBE16(BE16(v)) == v
  {
  }

  lemma RoundTrip32(v: u32)
    ensures FromBE32(BE32(v)) == v
  {
    assert BE32(v)[..2] == BE16(v / U16) && BE32(v)[2..] == BE16(v % U16);
    RoundTrip16(v / U16);
    RoundTrip16(v % U16);
  }

  class DataWriter {
    const buffer: array<byte>
    var length: nat

    ghost predicate Valid()
      reads this
    {
      length <= buffer.Length
    }

    ghost function Written(): seq<byte>
      requires Valid()
      reads this, buffer
    {
      buffer[..length]
    }

    constructor (capacity: nat)
      ensures Valid() && fresh(buffer) && buffer.Length == capacity && Written() == []
    {
      buffer := new byte[capacity];
      length := 0;
    }

    /** writeBytes: all of the data or, when it does not fit, none of it. */
    method WriteBytes(data: seq<byte>) returns (ok: bool)
      requires Valid()
      modifies this, buffer
      ensures Valid()
      ensures ok <==> |old(Written())| + |data| <= buffer.Length
      ensures Written() == if ok then old(Written()) + data else old(Written())
    {
      if length + |data| > buffer.Length {
        return false;
      }
      forall i | 0 <= i < |data| {
        buffer[length + i] := data[i];
      }
      length := length + |data|;
      return true;
    }

    method WriteUInt8(value: byte) returns (ok: bool)
      requires Valid()
      modifies this, buffer
      ensures Valid()
      ensures ok <==> |old(Written())| + 1 <= buffer.Length
      ensures Written() == if ok then old(Written()) + [value] else old(Written())
    {
      ok := WriteBytes([value]);
    }

    method WriteUInt16(value: u16) returns (ok: bool)
      requires Valid()
      modifies this, buffer
      ensures Valid()
      ensures ok <==> |old(Written())| + 2 <= buffer.Length
      ensures Written() == if ok then old(Written()) + BE16(value) else old(Written())
    {
      ok := WriteBytes(BE16(value));
    }

    method WriteUInt32(value: u32) returns (ok: bool)
      requires Valid()
      modifies this, buffer
      ensures Valid()
      ensures ok <==> |old(Written())| + 4 <= buffer.Length
      ensures Written() == if ok then old(Written()) + BE32(value) else old(Written())
    {
      ok := WriteBytes(BE32(value));
    }
  }

  class DataReader {
    const buffer: seq<byte>
    var pos: nat

    ghost predicate Valid()
      reads this
    {
      pos <= |buffer|
    }

    constructor (bytes: seq<byte>)
      ensures Valid() && buffer == bytes && pos == 0
    {
      buffer := bytes;
      pos := 0;
    }

    /** readBytes: exactly n bytes or, when there are not so many, none. */
    method ReadBytes(n: nat) returns (ok: bool, bytes: seq<byte>)
      requires Valid()
      modifies this
      ensures Valid()
      ensures ok <==> old(pos) + n <= |buffer|
      ensures ok ==> pos == old(pos) + n && bytes == buffer[old(pos)..pos]
      ensures !ok ==> pos == old(pos)
    {
      if pos + n > |buffer| {
        return false, [];
      }
      bytes := buffer[pos..pos + n];
      pos := pos + n;
      ok := true;
    }

    /** A refused read leaves the result as it was. */
    method ReadUInt8(before: byte) returns (ok: bool, value: byte)
      requires Valid()
      modifies this
      ensures Valid()
      ensures ok <==> old(pos) + 1 <= |buffer|
      ensures ok ==> pos == old(pos) + 1 && value == buffer[old(pos)]
      ensures !ok ==> pos == old(pos) && value == before
    {
      var bytes;
      value := before;
      ok, bytes := ReadBytes(1);
      if ok {
        value := bytes[0];
      }
    }

    method ReadUInt16(before: u16) returns (ok: bool, value: u16)
      requires Valid()
      modifies this
      ensures Valid()
      ensures ok <==> old(pos) + 2 <= |buffer|
      ensures ok ==> pos == old(pos) + 2 && value == FromBE16(buffer[old(pos)..pos])
      ensures !ok ==> pos == old(pos) && value == before
    {
      var bytes;
      value := before;
      ok, bytes := ReadBytes(2);
      if ok {
        value := FromBE16(bytes);
      }
    }

    method ReadUInt32(before: u32) returns (ok: bool, value: u32)
      requires Valid()
      modifies this
      ensures Valid()
      ensures ok <==> old(pos) + 4 <= |buffer|
      ensures ok ==> pos == old(pos) + 4 && value == FromBE32(buffer[old(pos)..pos])
      ensures !ok ==> pos == old(pos) && value == before
    {
      var bytes;
      value := before;
      ok, bytes := ReadBytes(4);
      if ok {
        value := FromBE32(bytes);
      }
    }
  }
}
