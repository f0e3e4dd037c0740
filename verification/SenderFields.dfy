/**
  How the fields of `SendBuffer` and of the TCB represent the sender of SenderModel:
  32-bit sequence numbers for positions, a 64-bit counter for a signed one, and what
  the code's comparisons of such numbers decide.
 */
module SenderFields {
  import opened Machine
  import opened Modular
  import opened SenderModel
  import opened SenderInvariant
  import opened Segments
  import Deadline

  datatype Fields = Fields(
    syn: Ctl,               // SYN_
    fin: Ctl,               // FIN_
    unack: u32,             // tcb_->send.unack
    next: u32,              // tcb_->send.next
    flight: u64,            // bytes_in_flight_
    queue: seq<byte>,       // contents of buffer_
    deadline: nat,
    rcvNext: u32,
    synReceived: bool,
    wire: seq<Segment>      // every segment accepted by the IP layer
  )

  predicate InRange(s: Sender) {
    -REACH <= s.ahead < REACH
  }

  /** The fields that represent s: positions modulo 2^32, the counter modulo 2^64. */
  function FieldsOf(c: Connection, s: Sender): Fields
    requires InRange(s)
  {
    Fields(s.syn, s.fin,
           match s.syn case Idle => 0 case Sent => c.initial case Acked => Number(c, s.una),
           if s.syn == Idle then 0 else Number(c, |s.stream| + FinBit(s)),
           if s.ahead >= 0 then s.ahead else s.ahead + U64,
           Queue(s), s.deadline, s.rcvNext, s.synReceived, AllOnWire(c, s.log))
  }

  /** All that `transmit` needs to know: the counter points into a queue that fits the buffer. */
  predicate Sendable(s: Sender) {
    InRange(s) && s.una + s.ahead <= |s.stream| <= s.una + CAPACITY
  }

  lemma NumberAdd(c: Connection, position: nat, n: nat)
    ensures Wrap(Number(c, position) + n) == Number(c, position + n)
  {
    WrapAdd(c.initial + 1 + position, n);
  }

  /** Positions less than 2^32 apart are equal exactly when their numbers are. */
  lemma NumberInjective(c: Connection, x: nat, y: nat)
    requires x - y < U32 && y - x < U32
    ensures Number(c, x) == Number(c, y) <==> x == y
  {
    WrapInjective(c.initial + 1 + x, c.initial + 1 + y);
  }

  /** The TCB relation: `next` counts queued bytes, not sent ones. */
  lemma TcbBookkeeping(c: Connection, s: Sender)
    requires Inv(s) && s.syn != Idle
    ensures var f := FieldsOf(c, s);
            && (s.syn == Acked ==> f.next == Wrap(f.unack + |f.queue| + (if f.fin == Sent then 1 else 0)))
            && (s.syn == Sent ==> f.next == Wrap(c.initial + 1 + |f.queue| + (if f.fin == Sent then 1 else 0)))
            && f.queue == s.stream[|s.stream| - |f.queue|..]
  {
    NumberAdd(c, s.una, |Queue(s)| + (if s.fin == Sent then 1 else 0));
  }

  // ---------------------------------------------------------------- transmit

  lemma QueueSlice(s: Sender, from: nat, length: nat)
    requires s.una + from + length <= |s.stream|
    ensures Queue(s)[from..from + length] == s.stream[s.una + from..s.una + from + length]
  {
  }

  /** Lines 120-136 build the next packet; the 32-bit FIN test of line 127 is exact. */
  lemma BuildsNextPacket(c: Connection, s: Sender, length: nat)
    requires Sendable(s) && s.syn == Acked && InWindow(s)
    requires length == Min(MSS, |Queue(s)| - s.ahead)
    ensures var f, p := FieldsOf(c, s), NextPacket(s);
            && p.data == f.queue[s.ahead..s.ahead + length]
            && Number(c, p.offset) == Wrap(f.unack + f.flight)
            && (p.fin <==> f.fin == Sent && Wrap(Wrap(f.unack + f.flight) + length + 1) == f.next)
  {
    var offset := s.una + s.ahead;
    QueueSlice(s, s.ahead, length);
    NumberAdd(c, s.una, s.ahead);
    NumberAdd(c, offset, length + 1);
    NumberInjective(c, offset + length + 1, |s.stream| + 1);
  }

  lemma OnWireAppend(c: Connection, log: seq<Packet>, p: Packet)
    ensures AllOnWire(c, log + [p]) == AllOnWire(c, log) + [OnWire(c, p)]
  {
  }

  /** One turn of the loop: the counter moves by the packet's length, the wire by an accepted packet. */
  lemma TurnFields(c: Connection, s: Sender, accept: bool)
    requires InWindow(s)
    ensures var f, p := FieldsOf(c, s), NextPacket(s);
            && InRange(Turn(s, accept))
            && FieldsOf(c, Turn(s, accept)) ==
               f.(flight := f.flight + |p.data|,
                  wire := if accept && (p.data != [] || p.fin) then f.wire + [OnWire(c, p)] else f.wire)
  {
    OnWireAppend(c, s.log, NextPacket(s));
  }

  // ------------------------------------------------------------ data and FIN

  lemma AppendFields(c: Connection, s: Sender, more: seq<byte>)
    requires InRange(s) && s.una <= |s.stream| && s.syn != Idle && s.fin == Idle
    ensures FieldsOf(c, s.(stream := s.stream + more)) ==
            var f := FieldsOf(c, s); f.(queue := f.queue + more, next := Wrap(f.next + |more|))
  {
    NumberAdd(c, |s.stream|, |more|);
    assert (s.stream + more)[s.una..] == s.stream[s.una..] + more;
  }

  lemma RequestFinFields(c: Connection, s: Sender)
    requires InRange(s) && s.syn != Idle && s.fin == Idle
    ensures FieldsOf(c, s.(fin := Sent)) ==
            var f := FieldsOf(c, s); f.(fin := Sent, next := Wrap(f.next + 1))
  {
    NumberAdd(c, |s.stream|, 1);
  }

  // --------------------------------------------------------------- acknowledge

  /** An acknowledgement number in 32 bits, and what its tests decide. */
  lemma AckNumbers(c: Connection, s: Sender, ack: u32, position: nat)
    requires Bookkeeping(s) && Zones(s)
    requires position == AckPosition(c, s.una, ack) && position <= HighestSent(s.log)
    ensures Minus(ack, Number(c, s.una)) == position - s.una
    ensures ack == Number(c, position)
    ensures s.fin == Sent ==> (ack == Number(c, |s.stream| + 1) <==> position == |s.stream| + 1)
  {
    MinusWrap(c.initial + 1 + s.una, ack);
    if s.fin == Sent { NumberInjective(c, position, |s.stream| + 1); }
  }

  /** The fields after lines 85-93: the acknowledged bytes leave the buffer. */
  function ConsumedFields(f: Fields, consumed: u32, now: nat): Fields {
    var n := Min(consumed, |f.queue|);
    var flight := Minus64(f.flight, consumed);
    f.(queue := f.queue[n..], flight := flight, unack := Wrap(f.unack + n),
       deadline := if flight == 0 then Deadline.Updated(f.deadline, now + SECOND, Deadline.GRANULARITY)
                   else f.deadline)
  }

  /** The fields after lines 95-102: an acknowledgement of everything acknowledges the FIN. */
  function FinAckedFields(f: Fields, ack: u32): Fields {
    if f.fin == Sent && ack == f.next then f.(fin := Acked, deadline := 0, unack := Wrap(f.unack + 1)) else f
  }

  function SettledFields(f: Fields, ack: u32, now: nat): Fields {
    FinAckedFields(ConsumedFields(f, Minus(ack, f.unack), now), ack)
  }

  lemma SettledQueue(s: Sender, position: nat)
    requires s.una <= position
    ensures Queue(s)[Min(position - s.una, |Queue(s)|)..] == s.stream[Min(position, |s.stream|)..]
  {
  }

  /** The 64-bit subtraction of line 87 is a signed one, also when it goes below zero. */
  lemma SettledFlight(ahead: int, consumed: u32)
    requires -REACH <= ahead - consumed && ahead < REACH
    ensures Minus64(if ahead >= 0 then ahead else ahead + U64, consumed) ==
            if ahead - consumed >= 0 then ahead - consumed else ahead - consumed + U64
  {
  }

  lemma SettledUnack(c: Connection, s: Sender, position: nat)
    requires Bookkeeping(s) && s.una <= position <= |s.stream| + FinBit(s)
    ensures var unack := Wrap(Number(c, s.una) + Min(position - s.una, |Queue(s)|));
            Number(c, position) == if s.fin == Sent && position == |s.stream| + 1 then Wrap(unack + 1) else unack
  {
    var n := Min(position - s.una, |Queue(s)|);
    NumberAdd(c, s.una, n);
    NumberAdd(c, s.una + n, 1);
  }

  /** What the numbers of an acknowledgement decide, once they are understood. */
  predicate Understood(c: Connection, s: Sender, ack: u32, position: nat) {
    && s.una <= position && (if s.fin == Acked then s.una > |s.stream| else s.una <= |s.stream|)
    && -REACH <= s.ahead - (position - s.una) && s.ahead < REACH
    && Minus(ack, Number(c, s.una)) == position - s.una
    && (s.fin == Sent ==> (ack == Number(c, |s.stream| + 1) <==> position == |s.stream| + 1))
  }

  lemma SettledFinField(c: Connection, s: Sender, ack: u32, now: nat, position: nat)
    requires InRange(s) && Understood(c, s, ack, position)
    ensures var f, t := SettledFields(FieldsOf(c, s.(syn := Acked)), ack, now), Settle(s, position, now);
            f.fin == t.fin && f.next == Number(c, |t.stream| + FinBit(t))
  {
  }

  lemma SettledQueueField(c: Connection, s: Sender, ack: u32, now: nat, position: nat)
    requires InRange(s) && Understood(c, s, ack, position)
    ensures SettledFields(FieldsOf(c, s.(syn := Acked)), ack, now).queue == Queue(Settle(s, position, now))
  {
    SettledQueue(s, position);
  }

  lemma SettledFlightField(c: Connection, s: Sender, ack: u32, now: nat, position: nat)
    requires InRange(s) && Understood(c, s, ack, position)
    ensures var f, t := SettledFields(FieldsOf(c, s.(syn := Acked)), ack, now), Settle(s, position, now);
            f.flight == (if t.ahead >= 0 then t.ahead else t.ahead + U64) && f.deadline == t.deadline
  {
    SettledFlight(s.ahead, position - s.una);
  }

  lemma SettledUnackField(c: Connection, s: Sender, ack: u32, now: nat, position: nat)
    requires InRange(s) && Understood(c, s, ack, position)
    requires Bookkeeping(s) && position <= |s.stream| + FinBit(s)
    ensures SettledFields(FieldsOf(c, s.(syn := Acked)), ack, now).unack == Number(c, position)
  {
    SettledUnack(c, s, position);
  }

  lemma SettledOthers(f: Fields, ack: u32, now: nat)
    ensures var g := SettledFields(f, ack, now);
            g.syn == f.syn && g.rcvNext == f.rcvNext && g.synReceived == f.synReceived && g.wire == f.wire
  {
  }

  /** Fields that agree with those of t one by one. */
  lemma SameFields(c: Connection, f: Fields, t: Sender)
    requires InRange(t) && f.syn == t.syn == Acked && f.fin == t.fin && f.deadline == t.deadline
    requires f.unack == Number(c, t.una) && f.next == Number(c, |t.stream| + FinBit(t)) && f.queue == Queue(t)
    requires f.flight == if t.ahead >= 0 then t.ahead else t.ahead + U64
    requires f.rcvNext == t.rcvNext && f.synReceived == t.synReceived && f.wire == AllOnWire(c, t.log)
    ensures f == FieldsOf(c, t)
  {
  }

  lemma SettledAll(c: Connection, s: Sender, ack: u32, now: nat, position: nat)
    requires InRange(s) && Understood(c, s, ack, position)
    requires Bookkeeping(s) && position <= |s.stream| + FinBit(s)
    ensures var t := Settle(s, position, now);
            InRange(t) && SettledFields(FieldsOf(c, s.(syn := Acked)), ack, now) == FieldsOf(c, t)
  {
    SettledFinField(c, s, ack, now, position);
    SettledQueueField(c, s, ack, now, position);
    SettledFlightField(c, s, ack, now, position);
    SettledUnackField(c, s, ack, now, position);
    var f := FieldsOf(c, s.(syn := Acked));
    SettledOthers(f, ack, now);
    SameFields(c, SettledFields(f, ack, now), Settle(s, position, now));
  }

  /** The code's bookkeeping of an acknowledgement is the model's, counter wrap included. */
  lemma SettleRepresents(c: Connection, s: Sender, ack: u32, now: nat, position: nat)
    requires Bookkeeping(s) && Zones(s) && s.syn != Idle
    requires position == AckPosition(c, s.una, ack) && position <= HighestSent(s.log)
    ensures Minus(ack, Number(c, s.una)) == position - s.una
    ensures var t := Settle(s, position, now);
            InRange(t) && SettledFields(FieldsOf(c, s.(syn := Acked)), ack, now) == FieldsOf(c, t)
  {
    AckNumbers(c, s, ack, position);
    SettledAll(c, s, ack, now, position);
  }
}
