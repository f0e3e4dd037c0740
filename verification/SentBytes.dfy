/**
  From the sender's packets to bytes and back: what `sendSegment` hands to the IP layer.
 */
module SentBytes {
  import opened Machine
  import opened SenderModel
  import opened SenderTheorems
  import opened Segments
  import opened Checksums
  import opened Codec
  import opened Handlers

  /** The buffer `sendSegment` fills. */
  function Bytes(c: Connection, p: Packet): seq<byte> {
    Encoded(OnWire(c, p), MAX_PACKET)
  }

  /**
    Every packet of every run fits the 1480-byte buffer, carries a checksum that verifies,
    and is parsed back to the segment the sender meant.
   */
  lemma SentBytesAreSound(s: Sender, c: Connection, p: Packet)
    requires Reachable(s) && p in s.log
    ensures |Bytes(c, p)| <= MAX_PACKET
    ensures Residue(WordSum(Bytes(c, p)) + PseudoSum(OnWire(c, p), |Bytes(c, p)|)) == 0xffff
    ensures Parse(c.local.ip, c.remote.ip, Bytes(c, p)) == Ok(OnWire(c, p))
  {
    var g := OnWire(c, p);
    if p.Data? { TruthfulSegments(s, p); }
    assert |g.data| <= MSS;
    HeaderLength(g, ChecksumOf(g, MAX_PACKET));
    ChecksumVerifies(g, MAX_PACKET);
    RoundTripIff(g, MAX_PACKET);
  }

  /** The bytes of a packet of a run: number, flags and data where any TCP expects them. */
  lemma SentBytesMean(s: Sender, c: Connection, p: Packet)
    requires Reachable(s) && p in s.log
    ensures var b := Bytes(c, p);
            && HasHeader(b, OnWire(c, p))
            && Big32(b[4], b[5], b[6], b[7]) ==
               (if p.Syn? then c.initial else (c.initial + 1 + p.offset) % U32)
            && ((b[13] / 2) % 2 == 1 <==> p.Syn?) && (b[13] % 2 == 1 <==> p.Data? && p.fin)
            && ((b[13] / 16) % 2 == 1 <==> p.Data? || p.acks)
            && ((b[13] / 16) % 2 == 1 ==>
                  Big32(b[8], b[9], b[10], b[11]) == p.ackno)
            && (p.Syn? ==> b[20..] == [])
            && (p.Data? ==> p.offset + |p.data| <= |s.stream| && b[20..] == s.stream[p.offset..p.offset + |p.data|])
  {
    if p.Data? { TruthfulSegments(s, p); }
    assert |OnWire(c, p).data| <= MSS;
    WireMeaning(c, p);
    HeaderNumbers(OnWire(c, p), MAX_PACKET);
  }
}
