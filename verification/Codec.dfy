/**
  Writing a segment with its checksum, and parsing it back (section 3.1 of RFC 793).
 */
module Codec {
  import opened Machine
  import opened Segments
  import opened DataStreams
  import opened Checksums

  const PROTOCOL_TCP: u16 := 6

  /** The header without options, around a given checksum field. */
  function Header(g: Segment, checksum: u16): seq<byte> {
    BE16(g.source.port) + BE16(g.destination.port) + BE32(g.sequence) + BE32(g.acknowledgment)
    + [0x50, g.flags] + BE16(g.window) + BE16(checksum) + BE16(0)
  }

  /** tcp_length, a 16-bit number. */
  function TcpLength(g: Segment): u16 {
    (|g.data| + HEADER_LENGTH) % U16
  }

  lemma TcpLengthExact(g: Segment)
    requires HEADER_LENGTH + |g.data| < U16
    ensures TcpLength(g) == HEADER_LENGTH + |g.data|
  {
  }

  /** The plain sum of the words of the 96-bit pseudo header. */
  function PseudoSum(g: Segment, length: u16): nat {
    AddressSum(g.source.ip) + AddressSum(g.destination.ip) + PROTOCOL_TCP + length
  }

  /** The data that fits behind the header; the writer takes all or nothing. */
  function Body(g: Segment, capacity: nat): seq<byte> {
    if HEADER_LENGTH + |g.data| <= capacity then g.data else []
  }

  /** What the code puts in the checksum field. */
  function ChecksumOf(g: Segment, capacity: nat): u16 {
    MOD - Residue(WordSum(Header(g, 0) + Body(g, capacity)) + PseudoSum(g, TcpLength(g)))
  }

  function Encoded(g: Segment, capacity: nat): seq<byte> {
    Header(g, ChecksumOf(g, capacity)) + Body(g, capacity)
  }

  // ------------------------------------------------------------------ checksum

  lemma HeaderLength(g: Segment, checksum: u16)
    ensures |Header(g, checksum)| == HEADER_LENGTH
  {
  }

  /** The checksum field is a word of its own. */
  lemma HeaderSum(g: Segment, checksum: u16, body: seq<byte>)
    ensures WordSum(Header(g, checksum) + body) == WordSum(Header(g, 0) + body) + checksum
  {
    var front := BE16(g.source.port) + BE16(g.destination.port) + BE32(g.sequence) + BE32(g.acknowledgment)
                 + [0x50, g.flags] + BE16(g.window);
    FieldSum(front, checksum, BE16(0) + body);
    FieldSum(front, 0, BE16(0) + body);
    assert Header(g, checksum) + body == front + BE16(checksum) + (BE16(0) + body);
    assert Header(g, 0) + body == front + BE16(0) + (BE16(0) + body);
  }

  lemma FieldSum(front: seq<byte>, field: u16, back: seq<byte>)
    requires |front| % 2 == 0
    ensures WordSum(front + BE16(field) + back) == WordSum(front) + field + WordSum(back)
  {
    assert front + BE16(field) + back == front + (BE16(field) + back);
    WordSumConcat(front, BE16(field) + back);
    WordSumConcat(BE16(field), back);
  }

  /**
    For every segment that fits, odd or even, the end-around-carry sum of the pseudo header
    and of the bytes written, checksum included, is all ones.
   */
  lemma ChecksumVerifies(g: Segment, capacity: nat)
    requires HEADER_LENGTH + |g.data| <= capacity && HEADER_LENGTH + |g.data| < U16
    ensures var bytes := Encoded(g, capacity);
            Residue(WordSum(bytes) + PseudoSum(g, |bytes|)) == 0xffff
  {
    var c := ChecksumOf(g, capacity);
    var length := |Encoded(g, capacity)|;
    HeaderLength(g, c);
    TcpLengthExact(g);
    var n := WordSum(Header(g, 0) + g.data) + PseudoSum(g, length);
    assert c == MOD - Residue(n);
    HeaderSum(g, c, g.data);
    ComplementCompletes(n);
  }

  /** The twelve bytes of the pseudo header: addresses, zero, protocol 6, TCP length (section 3.1 of RFC 793). */
  ghost predicate IsPseudoHeader(b: seq<byte>, g: Segment, length: u16) {
    && |b| == 12
    && Big32(b[0], b[1], b[2], b[3]) == g.source.ip
    && Big32(b[4], b[5], b[6], b[7]) == g.destination.ip
    && b[8] == 0 && b[9] == 6 && Big16(b[10], b[11]) == length
  }

  lemma PseudoHeaderSum(b: seq<byte>, g: Segment, length: u16)
    requires IsPseudoHeader(b, g, length)
    ensures WordSum(b) == PseudoSum(g, length)
  {
    AddressHalves(g.source.ip, Big16(b[0], b[1]), Big16(b[2], b[3]));
    AddressHalves(g.destination.ip, Big16(b[4], b[5]), Big16(b[6], b[7]));
    WordSumIsWeighted(b);
    SixWords(b);
  }

  lemma AddressHalves(ip: u32, high: nat, low: nat)
    requires ip == high * 0x1_0000 + low && low < 0x1_0000
    ensures AddressSum(ip) == high + low
  {
  }

  lemma SixWords(b: seq<byte>)
    requires |b| == 12
    ensures Weighted(b, 12) == Big16(b[0], b[1]) + Big16(b[2], b[3]) + Big16(b[4], b[5])
                             + Big16(b[6], b[7]) + Big16(b[8], b[9]) + Big16(b[10], b[11])
  {
    assert Weighted(b, 1) == Weighted(b, 0) + Big16(b[0], 0);
    assert Weighted(b, 2) == Big16(b[0], b[1]);
    assert Weighted(b, 4) == Weighted(b, 2) + Big16(b[2], b[3]);
    assert Weighted(b, 6) == Weighted(b, 4) + Big16(b[4], b[5]);
    assert Weighted(b, 8) == Weighted(b, 6) + Big16(b[6], b[7]);
    assert Weighted(b, 10) == Weighted(b, 8) + Big16(b[8], b[9]);
  }

  /** The receiver's test of the checksum: pseudo header and segment, as bytes, add up to all ones. */
  lemma ChecksumOverBytes(g: Segment, capacity: nat, pseudo: seq<byte>)
    requires HEADER_LENGTH + |g.data| <= capacity && HEADER_LENGTH + |g.data| < U16
    requires IsPseudoHeader(pseudo, g, HEADER_LENGTH + |g.data|)
    ensures Residue(WordSum(pseudo + Encoded(g, capacity))) == 0xffff
  {
    ChecksumVerifies(g, capacity);
    HeaderLength(g, ChecksumOf(g, capacity));
    PseudoHeaderSum(pseudo, g, HEADER_LENGTH + |g.data|);
    WordSumConcat(pseudo, Encoded(g, capacity));
  }

  // --------------------------------------------------------------------- parse

  datatype Parsed = Ok(segment: Segment) | Malformed

  /** The data offset as the code reads it: the whole byte shifted right by two. */
  function DataOffset(b: byte): nat {
    b / 4
  }

  /**
    `parse` on the bytes of a packet.  Fewer than 16 bytes fail its DCHECK, and a data
    offset beyond the end leaves the buffer: both are Malformed.
   */
  function Parse(source: u32, destination: u32, bytes: seq<byte>): Parsed {
    if |bytes| < 16 || DataOffset(bytes[12]) > |bytes| then Malformed
    else
      Ok(Segment(SocketAddress(source, FromBE16(bytes[0..2])), SocketAddress(destination, FromBE16(bytes[2..4])),
                 FromBE32(bytes[4..8]), FromBE32(bytes[8..12]), bytes[13], FromBE16(bytes[14..16]),
                 bytes[DataOffset(bytes[12])..]))
  }

  /**
    The data returned starts where the header's offset field says, four times its upper
    half, exactly when the two upper reserved bits are zero.
   */
  lemma DataOffsetIff(source: u32, destination: u32, bytes: seq<byte>)
    requires |bytes| >= 16
    ensures var p, start := Parse(source, destination, bytes), 4 * (bytes[12] / 16);
            if start > |bytes| then p == Malformed
            else p.Ok? && p.segment.data == bytes[start..] <==> (bytes[12] % 16) / 4 == 0
  {
    var b := bytes[12];
    assert DataOffset(b) == 4 * (b / 16) + (b % 16) / 4;
  }

  /** A header of 20 bytes with the lowest upper reserved bit set: the first data byte is taken for a header byte. */
  lemma DataByteLost(source: u32, destination: u32)
    ensures var bytes := seq(20, i => if i == 12 then 0x54 else 0) + [7, 8];
            4 * (bytes[12] / 16) == 20 &&
            Parse(source, destination, bytes).Ok? && Parse(source, destination, bytes).segment.data == [8]
  {
  }

  lemma HeaderFields(g: Segment, checksum: u16, body: seq<byte>)
    ensures var b := Header(g, checksum) + body;
            && |b| == HEADER_LENGTH + |body|
            && b[0..2] == BE16(g.source.port) && b[2..4] == BE16(g.destination.port)
            && b[4..8] == BE32(g.sequence) && b[8..12] == BE32(g.acknowledgment)
            && b[12] == 0x50 && b[13] == g.flags && b[14..16] == BE16(g.window)
            && b[18] == 0 && b[19] == 0 && b[20..] == body
  {
  }

  /** The header as the numbers at its offsets (section 3.1 of RFC 793). */
  ghost predicate HasHeader(b: seq<byte>, g: Segment) {
    && |b| >= HEADER_LENGTH
    && Big16(b[0], b[1]) == g.source.port && Big16(b[2], b[3]) == g.destination.port
    && Big32(b[4], b[5], b[6], b[7]) == g.sequence
    && Big32(b[8], b[9], b[10], b[11]) == g.acknowledgment
    && b[12] == 5 * 16 && b[13] == g.flags && Big16(b[14], b[15]) == g.window
    && b[18] == 0 && b[19] == 0
  }

  /** What is written has that header, and the data behind it, all or nothing. */
  lemma HeaderNumbers(g: Segment, capacity: nat)
    ensures var b := Encoded(g, capacity);
            HasHeader(b, g) && b[20..] == if HEADER_LENGTH + |g.data| <= capacity then g.data else []
  {
    HeaderFields(g, ChecksumOf(g, capacity), Body(g, capacity));
    Bytes16(g.source.port);
    Bytes16(g.destination.port);
    Bytes32(g.sequence);
    Bytes32(g.acknowledgment);
    Bytes16(g.window);
    var b := Encoded(g, capacity);
    assert b[4] == b[4..8][0] && b[5] == b[4..8][1] && b[6] == b[4..8][2] && b[7] == b[4..8][3];
    assert b[8] == b[8..12][0] && b[9] == b[8..12][1] && b[10] == b[8..12][2] && b[11] == b[8..12][3];
  }

  /** What is parsed are the numbers at those offsets, of any bytes. */
  lemma ParsedNumbers(source: u32, destination: u32, b: seq<byte>)
    requires Parse(source, destination, b).Ok?
    ensures var g := Parse(source, destination, b).segment;
            && g.source.ip == source && g.destination.ip == destination
            && g.source.port == Big16(b[0], b[1]) && g.destination.port == Big16(b[2], b[3])
            && g.sequence == Big32(b[4], b[5], b[6], b[7])
            && g.acknowledgment == Big32(b[8], b[9], b[10], b[11])
            && g.flags == b[13] && g.window == Big16(b[14], b[15])
  {
    Value16(b[0..2]);
    Value16(b[2..4]);
    Value32(b[4..8]);
    Value32(b[8..12]);
    Value16(b[14..16]);
  }

  /**
    Parsing what was written, with the same addresses, gives the segment back exactly when
    the writer had room for all of it.
   */
  lemma RoundTripIff(g: Segment, capacity: nat)
    requires capacity >= HEADER_LENGTH
    ensures Parse(g.source.ip, g.destination.ip, Encoded(g, capacity)) == Ok(g)
            <==> HEADER_LENGTH + |g.data| <= capacity
  {
    HeaderFields(g, ChecksumOf(g, capacity), Body(g, capacity));
    RoundTrip16(g.source.port);
    RoundTrip16(g.destination.port);
    RoundTrip32(g.sequence);
    RoundTrip32(g.acknowledgment);
    RoundTrip16(g.window);
  }

  // ------------------------------------------------------------------- methods

  /** Lines 12-15: ports and numbers. */
  method WriteNumbers(g: Segment, writer: DataWriter)
    requires writer.Valid() && writer.Written() == [] && writer.buffer.Length >= HEADER_LENGTH
    modifies writer, writer.buffer
    ensures writer.Valid()
    ensures writer.Written() ==
            BE16(g.source.port) + BE16(g.destination.port) + BE32(g.sequence) + BE32(g.acknowledgment)
  {
    var ok := writer.WriteUInt16(g.source.port);
    ok := writer.WriteUInt16(g.destination.port);
    ok := writer.WriteUInt32(g.sequence);
    ok := writer.WriteUInt32(g.acknowledgment);
  }

  /** Lines 16-24: the rest of the header, with a zero checksum field. */
  method WriteControl(g: Segment, writer: DataWriter)
    requires writer.Valid() && |writer.Written()| == 12 && writer.buffer.Length >= HEADER_LENGTH
    modifies writer, writer.buffer
    ensures writer.Valid()
    ensures writer.Written() == old(writer.Written()) + [0x50, g.flags] + BE16(g.window) + BE16(0) + BE16(0)
  {
    var ok := writer.WriteUInt8(0x50);
    ok := writer.WriteUInt8(g.flags);
    assert writer.Written() == old(writer.Written()) + [0x50, g.flags];
    ok := writer.WriteUInt16(g.window);
    ok := writer.WriteUInt16(0);
    ok := writer.WriteUInt16(0);
  }

  /** Lines 12-25: header, then the data if it fits. */
  method WriteFields(g: Segment, writer: DataWriter)
    requires writer.Valid() && writer.Written() == [] && writer.buffer.Length >= HEADER_LENGTH
    modifies writer, writer.buffer
    ensures writer.Valid() && writer.Written() == Header(g, 0) + Body(g, writer.buffer.Length)
  {
    WriteNumbers(g, writer);
    WriteControl(g, writer);
    assert writer.Written() == Header(g, 0);
    var ok := writer.WriteBytes(g.data);
  }

  /** Lines 27-34: the checksum over the bytes written and the pseudo header. */
  method SumSegment(g: Segment, bytes: seq<byte>) returns (cs: seq<byte>)
    ensures cs == BE16(MOD - Residue(WordSum(bytes) + PseudoSum(g, TcpLength(g))))
  {
    var checksum := new Checksum(bytes);
    checksum.AddIPAddress(g.source.ip);
    checksum.AddIPAddress(g.destination.ip);
    checksum.AddHostUInt16(PROTOCOL_TCP);
    checksum.AddHostUInt16((|g.data| + HEADER_LENGTH) % U16);
    ResidueAdd4(WordSum(bytes), AddressSum(g.source.ip), AddressSum(g.destination.ip), PROTOCOL_TCP, TcpLength(g));
    cs := checksum.WriteTo();
  }

  /** Writing a checksum over the zero field. */
  lemma HeaderPatched(g: Segment, body: seq<byte>, cs: u16)
    ensures (Header(g, 0) + body)[16 := cs / 256][17 := cs % 256] == Header(g, cs) + body
  {
  }

  /** writeSegmentTo on a fresh writer; its result is always false. */
  method WriteSegmentTo(g: Segment, writer: DataWriter) returns (ok: bool)
    requires writer.Valid() && writer.Written() == [] && writer.buffer.Length >= HEADER_LENGTH
    modifies writer, writer.buffer
    ensures writer.Valid() && writer.Written() == Encoded(g, writer.buffer.Length)
    ensures !ok
  {
    WriteFields(g, writer);
    HeaderLength(g, 0);
    ghost var before := writer.Written();
    var cs := SumSegment(g, writer.buffer[..writer.length]);
    writer.buffer[16], writer.buffer[17] := cs[0], cs[1];
    HeaderPatched(g, Body(g, writer.buffer.Length), ChecksumOf(g, writer.buffer.Length));
    assert writer.Written() == before[16 := cs[0]][17 := cs[1]];
    return false;
  }

  /** parse */
  method ParseSegment(source: u32, destination: u32, bytes: seq<byte>) returns (r: Parsed)
    ensures r == Parse(source, destination, bytes)
  {
    var reader := new DataReader(bytes);
    var ok, sourcePort := reader.ReadUInt16(0);
    var destinationPort, sequence, acknowledgment, offset, flags, window;
    ok, destinationPort := reader.ReadUInt16(0);
    ok, sequence := reader.ReadUInt32(0);
    ok, acknowledgment := reader.ReadUInt32(0);
    ok, offset := reader.ReadUInt8(0);
    offset := offset / 4;
    ok, flags := reader.ReadUInt8(0);
    ok, window := reader.ReadUInt16(0);
    if !ok || offset > |bytes| {
      return Malformed;
    }
    r := Ok(Segment(SocketAddress(source, sourcePort), SocketAddress(destination, destinationPort),
                    sequence, acknowledgment, flags, window, bytes[offset..]));
  }
}
