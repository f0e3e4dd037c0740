/**
  The ring buffer as a value: the effect of each operation on the byte array and
  the two indices, the queue it stands for, and where the code departs from it.
 */
module Rings {
  import opened Machine

  datatype Ring = Ring(data: seq<byte>, begin: nat, end: nat) {
    function Size(): nat { |data| }
    predicate Full() { begin + Size() == end }
    function Remaining(): int { end - begin }
    function Free(): int { Size() - Remaining() }

    ghost predicate Valid() {
      begin < Size() && begin <= end <= begin + Size()
    }

    /** The queued bytes, oldest first. */
    function Contents(): seq<byte>
      requires Valid()
    {
      if end <= Size() then data[begin..end] else data[begin..] + data[..end - Size()]
    }
  }

  /** memcpy of all of `bytes` to position `at`. */
  function Splice(data: seq<byte>, at: nat, bytes: seq<byte>): seq<byte>
    requires at + |bytes| <= |data|
  {
    data[..at] + bytes + data[at + |bytes|..]
  }

  // --------------------------------------------------------------- operations

  /** How many bytes `write` takes. */
  function Taken(r: Ring, bytes: seq<byte>): nat
    requires r.Valid()
  {
    Min(|bytes|, r.Free())
  }

  /** The array after copying to the free space that starts at `end`, around the corner if need be. */
  function Copied(r: Ring, bytes: seq<byte>): seq<byte>
    requires r.Valid() && !r.Full() && |bytes| <= r.Free()
  {
    if r.end >= r.Size() then Splice(r.data, r.end - r.Size(), bytes)
    else if r.end + |bytes| >= r.Size() then
      var first := r.Size() - r.end;
      Splice(Splice(r.data, r.end, bytes[..first]), 0, bytes[first..])
    else Splice(r.data, r.end, bytes)
  }

  /** `write` as intended: `end` advances in every branch. */
  function Write(r: Ring, bytes: seq<byte>): Ring
    requires r.Valid()
  {
    if r.Full() then r
    else
      var n := Taken(r, bytes);
      Ring(Copied(r, bytes[..n]), r.begin, r.end + n)
  }

  /** `write` as written: `end` stays when it is at or past the array's end. */
  function WriteAsWritten(r: Ring, bytes: seq<byte>): Ring
    requires r.Valid()
  {
    if !r.Full() && r.end >= r.Size() then r.(data := Copied(r, bytes[..Taken(r, bytes)]))
    else Write(r, bytes)
  }

  /** `consume`, and the indices after `read`. */
  function Consume(r: Ring, length: nat): Ring
    requires r.Valid()
  {
    var n := Min(length, r.Remaining());
    if r.begin + n >= r.Size() then Ring(r.data, r.begin + n - r.Size(), r.end - r.Size())
    else r.(begin := r.begin + n)
  }

  // ---------------------------------------------------------- FIFO refinement

  /** Position p of the endless tape that `begin` and `end` count on, in the array. */
  function Slot(size: nat, p: nat): nat {
    if p < size then p else p - size
  }

  lemma ContentsLength(r: Ring)
    requires r.Valid()
    ensures |r.Contents()| == r.Remaining()
  {
  }

  lemma ContentsAt(r: Ring, k: nat)
    requires r.Valid() && k < r.Remaining()
    ensures |r.Contents()| == r.Remaining()
    ensures r.Contents()[k] == r.data[Slot(r.Size(), r.begin + k)]
  {
  }

  lemma CopiedLength(r: Ring, bytes: seq<byte>)
    requires r.Valid() && !r.Full() && |bytes| <= r.Free()
    ensures |Copied(r, bytes)| == r.Size()
  {
  }

  /** Copying changes exactly the free slots it fills. */
  lemma CopiedAt(r: Ring, bytes: seq<byte>, k: nat)
    requires r.Valid() && !r.Full() && |bytes| <= r.Free() && k < r.Remaining() + |bytes|
    ensures |Copied(r, bytes)| == r.Size()
    ensures Copied(r, bytes)[Slot(r.Size(), r.begin + k)] ==
            if k < r.Remaining() then r.data[Slot(r.Size(), r.begin + k)] else bytes[k - r.Remaining()]
  {
    var c, size := Copied(r, bytes), r.Size();
    if r.end < size && r.end + |bytes| >= size {
      var first := size - r.end;
      var d := Splice(r.data, r.end, bytes[..first]);
      assert c == bytes[first..] + d[|bytes| - first..];
    }
  }

  /** A queue that agrees slot by slot is the contents. */
  lemma ContentsAre(r: Ring, q: seq<byte>)
    requires r.Valid() && |q| == r.Remaining()
    requires forall k :: 0 <= k < |q| ==> q[k] == r.data[Slot(r.Size(), r.begin + k)]
    ensures r.Contents() == q
  {
    ContentsLength(r);
    forall k | 0 <= k < |q| ensures r.Contents()[k] == q[k] {
      ContentsAt(r, k);
    }
  }

  /** A queued byte stays, a copied byte joins behind. */
  lemma CopiedByte(r: Ring, bytes: seq<byte>, q: seq<byte>, k: nat)
    requires r.Valid() && !r.Full() && |bytes| <= r.Free() && q == r.Contents() + bytes && k < |q|
    ensures |q| == r.Remaining() + |bytes| && |Copied(r, bytes)| == r.Size()
    ensures q[k] == Copied(r, bytes)[Slot(r.Size(), r.begin + k)]
  {
    ContentsLength(r);
    CopiedAt(r, bytes, k);
    if k < r.Remaining() { ContentsAt(r, k); }
  }

  lemma CopiedIsFifo(r: Ring, bytes: seq<byte>)
    requires r.Valid() && !r.Full() && |bytes| <= r.Free()
    ensures |Copied(r, bytes)| == r.Size()
    ensures Ring(Copied(r, bytes), r.begin, r.end + |bytes|).Contents() == r.Contents() + bytes
  {
    var c, q := Copied(r, bytes), r.Contents() + bytes;
    ContentsLength(r);
    CopiedLength(r, bytes);
    forall k | 0 <= k < |q| ensures q[k] == c[Slot(r.Size(), r.begin + k)] {
      CopiedByte(r, bytes, q, k);
    }
    ContentsAre(Ring(c, r.begin, r.end + |bytes|), q);
  }

  lemma WriteIsFifo(r: Ring, bytes: seq<byte>)
    requires r.Valid()
    ensures var w := Write(r, bytes);
            && w.Valid() && w.Size() == r.Size()
            && Taken(r, bytes) == Min(|bytes|, r.Size() - |r.Contents()|)
            && w.Contents() == r.Contents() + bytes[..Taken(r, bytes)]
  {
    if !r.Full() { CopiedIsFifo(r, bytes[..Taken(r, bytes)]); }
  }

  /** The bytes that stay keep their slots, whether or not the indices go around. */
  lemma ConsumeAt(r: Ring, length: nat, k: nat)
    requires r.Valid() && length <= r.Remaining() && k < r.Remaining() - length
    ensures var c := Consume(r, length); c.data[Slot(c.Size(), c.begin + k)] == r.Contents()[length + k]
  {
    ContentsAt(r, length + k);
  }

  lemma ConsumeValid(r: Ring, length: nat)
    requires r.Valid()
    ensures var c := Consume(r, length);
            && c.Valid() && c.Size() == r.Size() && c.Remaining() == r.Remaining() - Min(length, r.Remaining())
            && c == Consume(r, Min(length, r.Remaining()))
  {
  }

  lemma ConsumeIsFifo(r: Ring, length: nat)
    requires r.Valid()
    ensures var c := Consume(r, length);
            && c.Valid() && c.Size() == r.Size()
            && c.Contents() == r.Contents()[Min(length, |r.Contents()|)..]
  {
    var c, n := Consume(r, length), Min(length, r.Remaining());
    ContentsLength(r);
    ConsumeValid(r, length);
    var q := r.Contents()[n..];
    forall k | 0 <= k < |q| ensures q[k] == c.data[Slot(c.Size(), c.begin + k)] {
      ConsumeAt(r, n, k);
    }
    ContentsAre(c, q);
  }

  /** The bytes `read` and `read_offset` copy out, in at most two pieces of the array. */
  function Piece(r: Ring, from: nat, length: nat): seq<byte>
    requires r.Valid() && from + length <= r.end
  {
    if from >= r.Size() then r.data[from - r.Size()..from - r.Size() + length]
    else if from + length >= r.Size() then r.data[from..] + r.data[..length - (r.Size() - from)]
    else r.data[from..from + length]
  }

  lemma PieceAt(r: Ring, from: nat, length: nat, k: nat)
    requires r.Valid() && r.begin <= from && from + length <= r.end && k < length
    ensures |Piece(r, from, length)| == length
    ensures Piece(r, from, length)[k] == r.data[Slot(r.Size(), from + k)]
  {
  }

  lemma PieceIsSlice(r: Ring, from: nat, length: nat)
    requires r.Valid() && r.begin <= from && from + length <= r.end
    ensures |r.Contents()| == r.Remaining()
    ensures Piece(r, from, length) == r.Contents()[from - r.begin..from - r.begin + length]
  {
    ContentsLength(r);
    var q := r.Contents()[from - r.begin..from - r.begin + length];
    var p := Piece(r, from, length);
    assert |p| == length;
    forall k | 0 <= k < length ensures p[k] == q[k] {
      PieceAt(r, from, length, k);
      ContentsAt(r, from - r.begin + k);
    }
  }

  /** Outside: the DCHECK fails or, when its own sum wraps, the copy leaves the array. */
  datatype OffsetRead = Bytes(bytes: seq<byte>) | Outside

  /** `read_offset`; its index arithmetic is modulo 2^64. */
  function ReadAt(r: Ring, offset: u64, length: nat): OffsetRead
    requires r.Valid() && r.end < U64
  {
    var from := Plus64(r.begin, offset);
    var n := Min(length, Minus64(r.end, from));
    if n == 0 then Bytes([])
    else if from + n <= r.end then Bytes(Piece(r, from, n))
    else Outside
  }

  lemma ReadPiece(r: Ring, offset: u64, length: nat)
    requires r.Valid() && r.end < U64 && offset <= r.Remaining()
    ensures ReadAt(r, offset, length) == Bytes(Piece(r, r.begin + offset, Min(length, r.Remaining() - offset)))
  {
  }

  lemma ReadInside(r: Ring, offset: u64, length: nat)
    requires r.Valid() && r.end < U64 && offset <= r.Remaining()
    ensures |r.Contents()| == r.Remaining()
    ensures ReadAt(r, offset, length) ==
            Bytes(r.Contents()[offset..offset + Min(length, r.Remaining() - offset)])
  {
    ReadPiece(r, offset, length);
    PieceIsSlice(r, r.begin + offset, Min(length, r.Remaining() - offset));
  }

  lemma ReadOutside(r: Ring, offset: u64, length: nat)
    requires r.Valid() && r.end < U64 && offset > r.Remaining() && length > 0
    ensures r.begin + offset < U64 ==> ReadAt(r, offset, length) == Outside
    ensures r.begin + offset >= U64 ==>
              var from := r.begin + offset - U64;
              from < r.begin && ReadAt(r, offset, length) == Bytes(Piece(r, from, Min(length, r.end - from)))
  {
  }

  /**
    A non-empty `read_offset` returns queued bytes exactly for offsets up to the queue's
    length; beyond it the read is outside, until the offset wraps and reads what lies
    before the queue.
   */
  lemma ReadAtMeaning(r: Ring, offset: u64, length: nat)
    requires r.Valid() && r.end < U64
    ensures var q := r.Contents();
            && (offset <= |q| ==>
                  ReadAt(r, offset, length) == Bytes(q[offset..offset + Min(length, |q| - offset)]))
            && (|q| < offset && r.begin + offset < U64 && length > 0 ==> ReadAt(r, offset, length) == Outside)
            && (r.begin + offset >= U64 && length > 0 ==>
                  var from := r.begin + offset - U64;
                  from < r.begin && ReadAt(r, offset, length) == Bytes(Piece(r, from, Min(length, r.end - from))))
  {
    ContentsLength(r);
    if offset <= r.Remaining() {
      ReadInside(r, offset, length);
    } else if length > 0 {
      ReadOutside(r, offset, length);
    }
  }

  /** An offset just below 2^64: the byte before the queue, which was consumed. */
  lemma ReadBeforeQueue()
    ensures var r := Ring([1, 2], 1, 2); r.Contents() == [2] && ReadAt(r, U64 - 1, 1) == Bytes([1])
  {
  }

  // ------------------------------------------------------------------ the gap

  datatype Op = Put(bytes: seq<byte>) | Take(length: nat)

  /** The bounded queue the buffer should be. */
  function QueueStep(q: seq<byte>, capacity: nat, op: Op): seq<byte>
    requires |q| <= capacity
  {
    match op
    case Put(bytes) => q + bytes[..Min(|bytes|, capacity - |q|)]
    case Take(length) => q[Min(length, |q|)..]
  }

  function QueueRun(q: seq<byte>, capacity: nat, ops: seq<Op>): seq<byte>
    requires |q| <= capacity
    decreases |ops|
  {
    if ops == [] then q else QueueRun(QueueStep(q, capacity, ops[0]), capacity, ops[1..])
  }

  /** One operation of the code as written. */
  function CodeStep(r: Ring, op: Op): (t: Ring)
    requires r.Valid()
    ensures t.Valid() && t.Size() == r.Size()
  {
    match op
    case Put(bytes) => WriteAsWritten(r, bytes)
    case Take(length) => Consume(r, length)
  }

  function CodeRun(r: Ring, ops: seq<Op>): (t: Ring)
    requires r.Valid()
    ensures t.Valid() && t.Size() == r.Size()
    decreases |ops|
  {
    if ops == [] then r else CodeRun(CodeStep(r, ops[0]), ops[1..])
  }

  /** A non-empty write that finds room and `end` at or past the array's end. */
  predicate Gap(r: Ring, op: Op) {
    op.Put? && op.bytes != [] && !r.Full() && r.end >= r.Size()
  }

  /** Some operation of the run meets the gap. */
  predicate MeetsGap(r: Ring, ops: seq<Op>)
    requires r.Valid()
    decreases |ops|
  {
    ops != [] && (Gap(r, ops[0]) || MeetsGap(CodeStep(r, ops[0]), ops[1..]))
  }

  /** The code is the queue after every prefix of the run. */
  predicate RefinesThroughout(r: Ring, q: seq<byte>, ops: seq<Op>)
    requires r.Valid() && |q| <= r.Size()
    decreases |ops|
  {
    && r.Contents() == q
    && (ops != [] ==> RefinesThroughout(CodeStep(r, ops[0]), QueueStep(q, r.Size(), ops[0]), ops[1..]))
  }

  /** One step agrees with the queue exactly when it does not meet the gap. */
  lemma StepRefinesIffNoGap(r: Ring, op: Op)
    requires r.Valid()
    ensures CodeStep(r, op).Contents() == QueueStep(r.Contents(), r.Size(), op) <==> !Gap(r, op)
  {
    match op
    case Put(bytes) =>
      if !r.Full() && r.end >= r.Size() {
        StuckWrite(r, bytes);
        ContentsLength(r);
      } else {
        WriteIsFifo(r, bytes);
      }
    case Take(length) => ConsumeIsFifo(r, length);
  }

  /** With `end` at or past the array's end the write as written queues nothing. */
  lemma StuckWrite(r: Ring, bytes: seq<byte>)
    requires r.Valid() && !r.Full() && r.end >= r.Size()
    ensures WriteAsWritten(r, bytes).Contents() == r.Contents()
  {
    var w := WriteAsWritten(r, bytes);
    forall k | 0 <= k < r.Remaining() ensures w.Contents()[k] == r.Contents()[k] {
      CopiedAt(r, bytes[..Taken(r, bytes)], k);
      ContentsAt(w, k);
      ContentsAt(r, k);
    }
  }

  /** Its bytes are copied all the same, to the free slots behind the queue and nowhere else. */
  lemma StuckBytes(r: Ring, bytes: seq<byte>)
    requires r.Valid() && !r.Full() && r.end >= r.Size()
    ensures var w, n, at := WriteAsWritten(r, bytes), Taken(r, bytes), r.end - r.Size();
            && w.begin == r.begin && w.end == r.end && |w.data| == |r.data| && at + n <= r.begin
            && w.data[at..at + n] == bytes[..n]
            && w.data[..at] == r.data[..at] && w.data[at + n..] == r.data[at + n..]
  {
  }

  /** The write as written is the intended one exactly when it does not meet the gap. */
  lemma AsWrittenIffNoGap(r: Ring, bytes: seq<byte>)
    requires r.Valid()
    ensures WriteAsWritten(r, bytes) == Write(r, bytes) <==> !Gap(r, Put(bytes))
  {
  }

  /** How much the write as written queues, against what it says it took. */
  lemma QueuedAsWritten(r: Ring, bytes: seq<byte>)
    requires r.Valid()
    ensures Taken(r, bytes) <= r.Size() && (Gap(r, Put(bytes)) ==> Taken(r, bytes) > 0)
    ensures |WriteAsWritten(r, bytes).Contents()| ==
            |r.Contents()| + (if Gap(r, Put(bytes)) then 0 else Taken(r, bytes))
  {
    if Gap(r, Put(bytes)) {
      StuckWrite(r, bytes);
    } else {
      AsWrittenIffNoGap(r, bytes);
      WriteIsFifo(r, bytes);
    }
  }

  /** A run of the code is the bounded FIFO queue throughout exactly when it never meets the gap. */
  lemma {:induction false} RunRefinesIffNoGap(r: Ring, ops: seq<Op>)
    requires r.Valid()
    ensures RefinesThroughout(r, r.Contents(), ops) <==> !MeetsGap(r, ops)
    decreases |ops|
  {
    if ops != [] {
      StepRefinesIffNoGap(r, ops[0]);
      if !Gap(r, ops[0]) { RunRefinesIffNoGap(CodeStep(r, ops[0]), ops[1..]); }
    }
  }

  /** From an empty buffer the gap can be met exactly when the buffer has at least two bytes. */
  lemma GapReachableIffTwoBytes(r: Ring)
    requires r.Valid() && r.begin == 0 && r.end == 0
    ensures r.Size() >= 2 ==> exists ops :: MeetsGap(r, ops)
    ensures r.Size() < 2 ==> forall ops :: !MeetsGap(r, ops)
  {
    if r.Size() >= 2 {
      var ops := FillTakePut(r);
      assert MeetsGap(r, ops);
    } else {
      forall ops ensures !MeetsGap(r, ops) { OneByteHasNoGap(r, ops); }
    }
  }

  /** Fill the buffer, take one byte, write one byte. */
  lemma FillTakePut(r: Ring) returns (ops: seq<Op>)
    requires r.Valid() && r.begin == 0 && r.end == 0 && r.Size() >= 2
    ensures MeetsGap(r, ops)
  {
    var fill := Put(r.data);
    var r1 := CodeStep(r, fill);
    var r2 := CodeStep(r1, Take(1));
    assert r1.end == r.Size() && r2.begin == 1 && r2.end == r.Size();
    ops := [fill, Take(1), Put([0])];
    assert ops[1..] == [Take(1), Put([0])] && ops[1..][1..] == [Put([0])];
    assert MeetsGap(r2, ops[1..][1..]);
    assert MeetsGap(r1, ops[1..]);
  }

  lemma {:induction false} OneByteHasNoGap(r: Ring, ops: seq<Op>)
    requires r.Valid() && r.Size() == 1
    ensures !MeetsGap(r, ops)
    decreases |ops|
  {
    if ops != [] { OneByteHasNoGap(CodeStep(r, ops[0]), ops[1..]); }
  }
}
