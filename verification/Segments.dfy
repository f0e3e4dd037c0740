/**
  TCP segments as values, and the segments a sender's packets travel in.
 */
module Segments {
  import opened Machine
  import opened SenderModel

  const FIN: byte := 0x01
  const SYN: byte := 0x02
  const ACK: byte := 0x10

  /** An IPv4 address and a port. */
  datatype SocketAddress = SocketAddress(ip: u32, port: u16)

  datatype Segment = Segment(
    source: SocketAddress,
    destination: SocketAddress,
    sequence: u32,
    acknowledgment: u32,
    flags: byte,
    window: u16,
    data: seq<byte>
  )

  predicate IsFin(g: Segment) { g.flags % 2 == 1 }
  predicate IsSyn(g: Segment) { (g.flags / 2) % 2 == 1 }

  /** The fixed parts of a connection, seen from the sender. */
  datatype Connection = Connection(local: SocketAddress, remote: SocketAddress, initial: u32)

  /** SegmentFactory::createSegment. */
  function CreateSegment(c: Connection, sequence: u32, acknowledgment: u32, flags: byte, data: seq<byte>): Segment {
    Segment(c.local, c.remote, sequence, acknowledgment, flags, 65535, data)
  }

  /** The 32-bit number of a stream position; the SYN occupies `initial` itself. */
  function Number(c: Connection, position: nat): u32 {
    Wrap(c.initial + 1 + position)
  }

  /** The segment a packet travels in. */
  function OnWire(c: Connection, p: Packet): Segment {
    match p
    case Syn(acks, ackno) => CreateSegment(c, c.initial, ackno, if acks then SYN + ACK else SYN, [])
    case Data(offset, ackno, fin, data) =>
      CreateSegment(c, Number(c, offset), ackno, if fin then ACK + FIN else ACK, data)
  }

  /** The segments of a list of packets. */
  function AllOnWire(c: Connection, ps: seq<Packet>): seq<Segment> {
    seq(|ps|, i requires 0 <= i < |ps| => OnWire(c, ps[i]))
  }

  /** The position an acknowledgement number denotes: the first one from `una` on with that number. */
  function AckPosition(c: Connection, una: nat, ack: u32): nat {
    una + Minus(ack, Number(c, una))
  }
}
