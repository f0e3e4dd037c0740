/**
  The ring buffer of src/base/ring_buffer.cpp, updated in place.
 */
module RingBuffers {
  import opened Machine
  import opened Rings

  /** memcpy(to + at, from, |from|) */
  method CopyTo(to: array<byte>, at: nat, from: seq<byte>)
    requires at + |from| <= to.Length
    modifies to
    ensures to[..] == Splice(old(to[..]), at, from)
  {
    forall i | 0 <= i < |from| {
      to[at + i] := from[i];
    }
  }

  class RingBuffer {
    const data: array<byte>
    var begin: nat
    var end: nat
    ghost var contents: seq<byte>     // the queued bytes, oldest first

    ghost function Value(): Ring
      reads this, data
    {
      Ring(data[..], begin, end)
    }

    ghost predicate Valid()
      reads this, data
    {
      Value().Valid() && contents == Value().Contents()
    }

    constructor (size: nat)
      requires size > 0
      ensures Valid() && fresh(data) && data.Length == size && contents == []
    {
      data := new byte[size];
      begin, end, contents := 0, 0, [];
    }

    predicate IsEmpty()
      reads this
    {
      begin == end
    }

    predicate IsFull()
      reads this
    {
      begin + data.Length == end
    }

    function Remaining(): int
      reads this
    {
      end - begin
    }

    /** The copying common to both forms of `write`. */
    method CopyIn(bytes: seq<byte>)
      requires Valid() && !IsFull() && |bytes| <= Value().Free()
      modifies data
      ensures data[..] == Copied(old(Value()), bytes)
    {
      if end >= data.Length {
        CopyTo(data, end - data.Length, bytes);
      } else if end + |bytes| >= data.Length {
        var first := data.Length - end;
        CopyTo(data, end, bytes[..first]);
        CopyTo(data, 0, bytes[first..]);
      } else {
        CopyTo(data, end, bytes);
      }
    }

    /** `write` as written: in the first branch `end` does not advance. */
    method WriteAsWritten(bytes: seq<byte>) returns (n: nat)
      requires Valid()
      modifies this`end, this`contents, data
      ensures Valid()
      ensures Value() == Rings.WriteAsWritten(old(Value()), bytes)
      ensures n == Taken(old(Value()), bytes)
    {
      if IsFull() {
        return 0;
      }
      n := Min(|bytes|, data.Length - (end - begin));
      var stuck := end >= data.Length;
      CopyIn(bytes[..n]);
      if !stuck {
        end := end + n;
      }
      assert Value() == Rings.WriteAsWritten(old(Value()), bytes);
      contents := Value().Contents();
    }

    /** `write` as intended: a bounded queue takes what fits. */
    method Write(bytes: seq<byte>) returns (n: nat)
      requires Valid()
      modifies this`end, this`contents, data
      ensures Valid()
      ensures n == Min(|bytes|, data.Length - |old(contents)|)
      ensures contents == old(contents) + bytes[..n]
    {
      WriteIsFifo(Value(), bytes);
      if IsFull() {
        return 0;
      }
      n := Min(|bytes|, data.Length - (end - begin));
      CopyIn(bytes[..n]);
      end := end + n;
      contents := contents + bytes[..n];
      assert Value() == Rings.Write(old(Value()), bytes);
    }

    /** The copying common to `read` and `read_offset`. */
    method CopyOut(from: nat, length: nat) returns (bytes: seq<byte>)
      requires Valid() && from + length <= end
      ensures bytes == Piece(Value(), from, length)
    {
      if from < data.Length {
        if from + length >= data.Length {
          var first := data.Length - from;
          bytes := data[from..] + data[..length - first];
        } else {
          bytes := data[from..from + length];
        }
      } else {
        bytes := data[from - data.Length..from - data.Length + length];
      }
    }

    /** `read_offset`; size_t holds `end`. */
    method ReadOffset(offset: u64, length: nat) returns (r: OffsetRead)
      requires Valid() && end < U64
      ensures r == ReadAt(Value(), offset, length)
      ensures offset <= |contents| ==> r == Bytes(contents[offset..offset + Min(length, |contents| - offset)])
      ensures |contents| < offset && begin + offset < U64 && length > 0 ==> r == Outside
    {
      ReadAtMeaning(Value(), offset, length);
      var from := Plus64(begin, offset);
      var n := Min(length, Minus64(end, from));
      if n == 0 {
        return Bytes([]);
      }
      if from + n > end {
        return Outside;
      }
      var bytes := CopyOut(from, n);
      return Bytes(bytes);
    }

    method Consume(length: nat) returns (n: nat)
      requires Valid()
      modifies this
      ensures Valid()
      ensures n == Min(length, |old(contents)|)
      ensures contents == old(contents)[n..]
    {
      ConsumeIsFifo(Value(), length);
      n := Min(length, end - begin);
      if begin + n >= data.Length {
        begin, end := begin + n - data.Length, end - data.Length;
      } else {
        begin := begin + n;
      }
      contents := contents[n..];
      assert Value() == Rings.Consume(old(Value()), length);
    }

    method Read(length: nat) returns (bytes: seq<byte>)
      requires Valid()
      modifies this
      ensures Valid()
      ensures bytes == old(contents)[..Min(length, |old(contents)|)]
      ensures contents == old(contents)[|bytes|..]
    {
      if IsEmpty() {
        return [];
      }
      var n := Min(length, end - begin);
      PieceIsSlice(Value(), begin, n);
      bytes := CopyOut(begin, n);
      var m := Consume(n);
    }
  }
}
