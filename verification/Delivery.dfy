/**
  The peer: a receiver that keeps only the new in-order part of each segment, fed
  with any selection of the segments sent, in any order, any number of times.
 */
module Delivery {
  import opened Machine
  import opened Modular
  import opened Segments
  import opened SequenceOrder
  import opened SenderModel
  import opened SenderInvariant
  import opened SenderTheorems

  datatype Receiver = Receiver(initial: u32, received: seq<byte>, closed: bool)

  /** Positions received; FIN counts one. */
  function Position(r: Receiver): nat {
    |r.received| + (if r.closed then 1 else 0)
  }

  /** receive.next, which is also the acknowledgement number sent back. */
  function Expected(r: Receiver): u32 {
    Wrap(r.initial + 1 + Position(r))
  }

  /** If a segment straddles old and new, only the new part is processed. */
  function Receive(r: Receiver, g: Segment): Receiver {
    if IsSyn(g) || r.closed || !LessOrEqual(r.initial, g.sequence, Expected(r)) then r
    else
      var skip := Minus(Expected(r), g.sequence);
      if skip > |g.data| then r
      else Receiver(r.initial, r.received + g.data[skip..], IsFin(g))
  }

  function Deliver(r: Receiver, arrivals: seq<Segment>): Receiver
    decreases |arrivals|
  {
    if arrivals == [] then r else Deliver(Receive(r, arrivals[0]), arrivals[1..])
  }

  /** Streams whose every position, FIN included, has a number of its own. */
  ghost predicate Short(s: Sender) {
    |s.stream| < U32 - 1
  }

  /** The receiver holds a prefix of the stream, and all of it once it saw the FIN. */
  ghost predicate Consistent(r: Receiver, c: Connection, s: Sender) {
    && r.initial == c.initial
    && r.received <= s.stream
    && (r.closed ==> r.received == s.stream && s.fin != Idle)
  }

  /** Numbers of two positions of a short stream compare as the positions do. */
  lemma NumbersCompare(initial: u32, x: nat, y: nat)
    requires x < U32 - 1 && y < U32 - 1
    ensures LessOrEqual(initial, Wrap(initial + 1 + x), Wrap(initial + 1 + y)) <==> x <= y
    ensures x <= y ==> Minus(Wrap(initial + 1 + y), Wrap(initial + 1 + x)) == y - x
  {
    OrderIsStreamOrder(initial, 1 + x, 1 + y);
    if x <= y { WrapMinus(initial + 1 + x, y - x); }
  }

  lemma WireFlags(c: Connection, p: Packet)
    ensures IsSyn(OnWire(c, p)) <==> p.Syn?
    ensures p.Data? ==> (IsFin(OnWire(c, p)) <==> p.fin)
  {
  }

  /** Reception in stream positions instead of numbers. */
  function ReceiveAt(r: Receiver, p: Packet): Receiver {
    if p.Syn? || r.closed || p.offset > |r.received| || |r.received| > p.offset + |p.data| then r
    else Receiver(r.initial, r.received + p.data[|r.received| - p.offset..], p.fin)
  }

  lemma ReceiveByPosition(r: Receiver, c: Connection, p: Packet)
    requires r.initial == c.initial && |r.received| < U32 - 1 && (p.Data? ==> p.offset < U32 - 1)
    ensures Receive(r, OnWire(c, p)) == ReceiveAt(r, p)
  {
    WireFlags(c, p);
    if p.Data? && !r.closed {
      NumbersCompare(r.initial, p.offset, |r.received|);
    }
  }

  /** What one truthful packet does. */
  lemma ReceiveMeaning(r: Receiver, c: Connection, p: Packet, s: Sender)
    requires Short(s) && Consistent(r, c, s) && Truthful(p, s)
    ensures Consistent(Receive(r, OnWire(c, p)), c, s)
    ensures Position(Receive(r, OnWire(c, p))) ==
            if p.Data? && p.offset <= Position(r) then Max(Position(r), Extent(p)) else Position(r)
  {
    ReceiveByPosition(r, c, p);
    var q := |r.received|;
    if p.Data? && p.offset <= q <= p.offset + |p.data| {
      assert r.received + p.data[q - p.offset..] == s.stream[..p.offset + |p.data|];
    }
  }

  lemma {:induction false} HighestSentBounds(log: seq<Packet>, p: Packet)
    requires p in log
    ensures Extent(p) <= HighestSent(log)
  {
    var init := log[..|log| - 1];
    assert log == init + [log[|log| - 1]];
    if p in init { HighestSentBounds(init, p); }
  }

  lemma {:induction false} DeliverKeeps(r: Receiver, c: Connection, arrivals: seq<Segment>, s: Sender)
    requires Short(s) && Consistent(r, c, s) && AllTruthful(s)
    requires forall g :: g in arrivals ==> g in AllOnWire(c, s.log)
    ensures Consistent(Deliver(r, arrivals), c, s)
    ensures Position(r) <= Position(Deliver(r, arrivals)) <= Max(Position(r), HighestSent(s.log))
    decreases |arrivals|
  {
    if arrivals != [] {
      assert arrivals[0] in AllOnWire(c, s.log);
      var i :| 0 <= i < |s.log| && arrivals[0] == OnWire(c, s.log[i]);
      HighestSentBounds(s.log, s.log[i]);
      ReceiveMeaning(r, c, s.log[i], s);
      DeliverKeeps(Receive(r, arrivals[0]), c, arrivals[1..], s);
    }
  }

  /**
    Segments lost, duplicated and reordered in any way: the receiver holds a prefix of
    the accepted stream, and the whole of it as soon as it accepts a FIN; it never
    acknowledges what was not sent.
   */
  lemma PrefixDelivery(s: Sender, c: Connection, arrivals: seq<Segment>)
    requires Reachable(s) && Short(s)
    requires forall g :: g in arrivals ==> g in AllOnWire(c, s.log)
    ensures var r := Deliver(Receiver(c.initial, [], false), arrivals);
            && r.received <= s.stream
            && (r.closed ==> r.received == s.stream && s.fin != Idle)
            && Position(r) <= HighestSent(s.log)
  {
    ReachableInv(s);
    DeliverKeeps(Receiver(c.initial, [], false), c, arrivals, s);
  }
}
