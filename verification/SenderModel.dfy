/**
  The reliable sender as a state machine over unbounded stream positions: one
  function per entry point of `SendBuffer`.  The 32-bit and 64-bit fields of the
  code represent these positions (module SendBuffers proves that they do).

  Position 0 is the first data byte; a FIN occupies the position after the last
  byte.  `sendSegment` may fail at any time.  `transmit` stops at the first failure,
  so one call is determined by the number of packets the IP layer accepts before it
  refuses one; that number is the `budget` parameter of every step.
 */
module SenderModel {
  import opened Machine
  import Deadline

  /** SendBuffer::CtlState; `Idle` is its `None`. */
  datatype Ctl = Idle | Sent | Acked

  /** A segment accepted by the IP layer, in stream positions. */
  datatype Packet =
    | Syn(acks: bool, ackno: u32)
    | Data(offset: nat, ackno: u32, fin: bool, data: seq<byte>)

  datatype Sender = Sender(
    syn: Ctl,
    fin: Ctl,
    stream: seq<byte>,      // every byte accepted by sendData
    una: nat,               // positions acknowledged
    ahead: int,             // bytes_in_flight_ as a signed number
    deadline: nat,          // retransmission_alarm_->deadline(), 0 when not set
    rcvNext: u32,           // tcb_->receive.next
    synReceived: bool,      // tcb_->receive.SYN_received
    log: seq<Packet>        // every packet accepted by the IP layer
  )

  function Init(now: nat): Sender {
    Sender(Idle, Idle, [], 0, 0, now + SECOND, 0, false, [])
  }

  /** The bytes not yet acknowledged, which the ring buffer holds. */
  function Queue(s: Sender): seq<byte> {
    s.stream[Min(s.una, |s.stream|)..]
  }

  /** End of the positions a packet occupies. */
  function Extent(p: Packet): nat {
    if p.Syn? then 0 else p.offset + |p.data| + (if p.fin then 1 else 0)
  }

  /** The highest position ever sent: SND.NXT of section 3.2 of RFC 793. */
  function HighestSent(log: seq<Packet>): nat {
    if log == [] then 0
    else Max(HighestSent(log[..|log| - 1]), Extent(log[|log| - 1]))
  }

  // ---------------------------------------------------------------- transmit

  /** The loop of `transmit` has something to read at its current position. */
  predicate InWindow(s: Sender) {
    0 <= s.ahead < WINDOW && s.una + s.ahead <= |s.stream|
  }

  /** The packet at the current position; it is empty when nothing is left. */
  function NextPacket(s: Sender): Packet
    requires InWindow(s)
  {
    var offset := s.una + s.ahead;
    var length := Min(MSS, |s.stream| - offset);
    Data(offset, s.rcvNext, s.fin == Sent && offset + length == |s.stream|, s.stream[offset..offset + length])
  }

  /** The loop body on an accepted packet: counter and log move. */
  function Emit(s: Sender, p: Packet): Sender
    requires p.Data?
  {
    s.(ahead := s.ahead + |p.data|, log := s.log + [p])
  }

  /** One turn of the loop; a refused packet still moves the counter. */
  function Turn(s: Sender, accept: bool): Sender
    requires InWindow(s)
  {
    var p := NextPacket(s);
    if p.data == [] && !p.fin then s
    else if accept then Emit(s, p)
    else s.(ahead := s.ahead + |p.data|)
  }

  /** `transmit` once the SYN is acknowledged: the loop ends at a refusal or a packet without data. */
  function TransmitLoop(s: Sender, budget: nat): Sender
    decreases WINDOW - s.ahead
  {
    if !InWindow(s) then s
    else if budget == 0 || NextPacket(s).data == [] then Turn(s, budget > 0)
    else TransmitLoop(Turn(s, true), budget - 1)
  }

  function Transmit(s: Sender, budget: nat): Sender {
    match s.syn
    case Idle => s
    case Sent =>
      if budget == 0 then s
      else s.(log := s.log + [Syn(s.synReceived, if s.synReceived then s.rcvNext else 0)])
    case Acked => TransmitLoop(s, budget)
  }

  // ------------------------------------------------------------------- steps

  function SendSyn(s: Sender, budget: nat): Sender {
    Transmit(s.(syn := Sent), budget)
  }

  /** Bytes `sendData` takes of an application write: what fits the ring buffer. */
  function Accepted(s: Sender, data: seq<byte>): nat {
    Max(0, Min(|data|, CAPACITY - |Queue(s)|))
  }

  function SendData(s: Sender, data: seq<byte>, budget: nat): Sender {
    if |Queue(s)| >= CAPACITY then s
    else
      var s1 := s.(stream := s.stream + data[..Accepted(s, data)]);
      if s.syn == Acked then Transmit(s1, budget) else s1
  }

  function SendFin(s: Sender, budget: nat): Sender {
    var s1 := s.(fin := Sent);
    if Queue(s) == [] then Transmit(s1, budget) else s1
  }

  /** Everything `acknowledge` does before it transmits, for an ack of all before `position`. */
  function Settle(s: Sender, position: nat, now: nat): Sender {
    var ahead := s.ahead - (position - s.una);
    var closing := s.fin == Sent && position == |s.stream| + 1;
    s.(syn := Acked, una := position, ahead := ahead,
       fin := if closing then Acked else s.fin,
       deadline := if closing then 0
                   else if ahead == 0 then Deadline.Updated(s.deadline, now + SECOND, Deadline.GRANULARITY)
                   else s.deadline)
  }

  function Acknowledge(s: Sender, position: nat, now: nat, budget: nat): Sender {
    if position > s.una then Transmit(Settle(s, position, now), budget) else Settle(s, position, now)
  }

  /** The alarm fires: the counter restarts, and the alarm is set again. */
  function Retransmit(s: Sender, now: nat, budget: nat): Sender {
    Transmit(s.(ahead := 0, deadline := 0), budget).(deadline := now + SECOND)
  }

  // -------------------------------------------------------------------- runs

  datatype Event =
    | DoSendSyn(budget: nat)
    | DoSendData(data: seq<byte>, budget: nat)
    | DoSendFin(budget: nat)
    | DoAcknowledge(position: nat, now: nat, budget: nat)
    | DoTimer(now: nat, budget: nat)
    | DoPeer(rcvNext: u32, synReceived: bool)     // the receiving half moves on

  /** The caller's obligations; a peer acknowledges forward, and only what was sent, the SYN included. */
  predicate Enabled(s: Sender, e: Event) {
    match e
    case DoSendSyn(_) => s.syn == Idle
    case DoSendData(_, _) => s.syn != Idle && s.fin == Idle
    case DoSendFin(_) => s.syn != Idle && s.fin == Idle
    case DoAcknowledge(position, _, _) =>
      s.syn != Idle && (s.syn == Sent ==> s.log != []) && s.una <= position <= HighestSent(s.log)
    case DoTimer(_, _) => s.deadline != 0
    case DoPeer(_, _) => true
  }

  function Step(s: Sender, e: Event): Sender {
    match e
    case DoSendSyn(budget) => SendSyn(s, budget)
    case DoSendData(data, budget) => SendData(s, data, budget)
    case DoSendFin(budget) => SendFin(s, budget)
    case DoAcknowledge(position, now, budget) => Acknowledge(s, position, now, budget)
    case DoTimer(now, budget) => Retransmit(s, now, budget)
    case DoPeer(rcvNext, synReceived) => s.(rcvNext := rcvNext, synReceived := synReceived)
  }

  function Run(s: Sender, events: seq<Event>): Sender
    decreases |events|
  {
    if events == [] then s else Run(Step(s, events[0]), events[1..])
  }

  predicate Legal(s: Sender, events: seq<Event>)
    decreases |events|
  {
    events == [] || (Enabled(s, events[0]) && Legal(Step(s, events[0]), events[1..]))
  }
}
