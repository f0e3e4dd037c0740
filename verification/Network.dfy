/**
  Sender and receiver joined by a network that loses, duplicates, delays and reorders
  at will, in both directions: the acknowledgements the sender assumes honest are the
  receiver's own, of the SYN too.  One that a later one overtook is dropped before it
  reaches `acknowledge`, by the rule of section 3.9 of RFC 793 for duplicates.
 */
module Network {
  import opened Machine
  import opened Segments
  import opened SequenceOrder
  import opened SenderModel
  import opened SenderInvariant
  import opened Completion
  import opened Delivery
  import opened Transfer

  /** `greeted`: the SYN has reached the receiver. */
  datatype Joint = Joint(s: Sender, r: Receiver, greeted: bool)

  datatype Move =
    | Local(e: Event)                                       // the sender's own steps
    | Arrive(g: Segment)                                    // any segment ever sent reaches the receiver
    | AckBack(position: nat, now: nat, budget: nat)         // any acknowledgement ever due comes back

  predicate Allowed(j: Joint, c: Connection, m: Move) {
    match m
    case Local(e) => !e.DoAcknowledge? && Enabled(j.s, e) && |Step(j.s, e).stream| < U32 - 1
    case Arrive(g) => g in AllOnWire(c, j.s.log)
    case AckBack(position, _, _) => j.greeted && position <= Position(j.r)
  }

  function After(j: Joint, m: Move): Joint {
    match m
    case Local(e) => j.(s := Step(j.s, e))
    case Arrive(g) => j.(r := Receive(j.r, g), greeted := j.greeted || IsSyn(g))
    case AckBack(position, now, budget) =>
      if position < j.s.una then j else j.(s := Acknowledge(j.s, position, now, budget))
  }

  function Play(j: Joint, ms: seq<Move>): Joint
    decreases |ms|
  {
    if ms == [] then j else Play(After(j, ms[0]), ms[1..])
  }

  predicate AllAllowed(j: Joint, c: Connection, ms: seq<Move>)
    decreases |ms|
  {
    ms == [] || (Allowed(j, c, ms[0]) && AllAllowed(After(j, ms[0]), c, ms[1..]))
  }

  /** Acknowledged, received, sent: in this order, and all of it the same stream; the SYN likewise. */
  ghost predicate InStep(j: Joint, c: Connection) {
    && Inv(j.s) && Short(j.s) && Consistent(j.r, c, j.s)
    && j.s.una <= Position(j.r) <= HighestSent(j.s.log)
    && (j.s.syn == Acked ==> j.greeted) && (j.greeted ==> j.s.log != [])
  }

  /** The code's comparison of sequence numbers finds out what was overtaken. */
  lemma OvertakenByNumber(c: Connection, s: Sender, position: nat)
    requires Inv(s) && |s.stream| < U32 - 2 && position <= HighestSent(s.log)
    ensures LessThan(c.initial, Number(c, position), Number(c, s.una)) <==> position < s.una
  {
    OrderIsStreamOrder(c.initial, 1 + position, 1 + s.una);
  }

  /** What a step of the sender's own leaves in place. */
  lemma LocalStepExtends(s: Sender, e: Event)
    requires Inv(s) && Enabled(s, e) && !e.DoAcknowledge?
    ensures var t := Step(s, e); Extends(s, t) && s.log <= t.log && t.una == s.una
  {
    match e
    case DoSendSyn(budget) => TransmitKeeps(s.(syn := Sent), budget);
    case DoSendData(data, budget) =>
      var more := data[..Accepted(s, data)];
      AppendKeeps(s, more);
      TransmitKeeps(s.(stream := s.stream + more), budget);
    case DoSendFin(budget) =>
      RequestFinKeeps(s);
      TransmitKeeps(s.(fin := Sent), budget);
    case DoTimer(now, budget) =>
      RestartKeeps(s);
      TransmitKeeps(s.(ahead := 0, deadline := 0), budget);
    case DoPeer(_, _) =>
  }

  /** What an acknowledgement leaves in place. */
  lemma AckExtends(s: Sender, position: nat, now: nat, budget: nat)
    requires Inv(s) && s.syn != Idle && s.una <= position <= HighestSent(s.log)
    ensures var t := Acknowledge(s, position, now, budget);
            && Inv(t) && s.log <= t.log && t.una == position && t.stream == s.stream
            && (t.fin != Idle <==> s.fin != Idle)
  {
    AcknowledgeKeeps(s, position, now, budget);
    SettleKeeps(s, position, now);
    TransmitKeeps(Settle(s, position, now), budget);
  }

  lemma MoveKeeps(j: Joint, c: Connection, m: Move)
    requires InStep(j, c) && Allowed(j, c, m)
    ensures InStep(After(j, m), c)
  {
    match m
    case Local(e) =>
      StepKeeps(j.s, e);
      LocalStepExtends(j.s, e);
      HighestSentGrows(j.s.log, Step(j.s, e).log);
    case Arrive(g) =>
      DeliverKeeps(j.r, c, [g], j.s);
      assert Deliver(j.r, [g]) == Deliver(Receive(j.r, g), []);
    case AckBack(position, now, budget) =>
      if position < j.s.una { return; }
      AckExtends(j.s, position, now, budget);
      HighestSentGrows(j.s.log, After(j, m).s.log);
  }

  /**
    In every run of both ends the receiver holds a prefix of the accepted stream, the
    sender has freed only what the receiver holds, every acknowledgement that comes back
    in order is one the sender accepts, and once the FIN is acknowledged the receiver holds
    it all.
   */
  lemma {:induction false} RunKeepsInStep(j: Joint, c: Connection, ms: seq<Move>)
    requires InStep(j, c) && AllAllowed(j, c, ms)
    ensures var t := Play(j, ms);
            && InStep(t, c)
            && t.r.received <= t.s.stream
            && (t.s.fin == Acked ==> t.r.closed && t.r.received == t.s.stream)
            && (forall position :: t.greeted && t.s.una <= position <= Position(t.r) ==>
                  Enabled(t.s, DoAcknowledge(position, 0, 0)))
    decreases |ms|
  {
    if ms != [] {
      MoveKeeps(j, c, ms[0]);
      RunKeepsInStep(After(j, ms[0]), c, ms[1..]);
    }
  }

  /** The sender just created and a receiver that has nothing yet. */
  function Start(now: nat, c: Connection): Joint {
    Joint(Init(now), Receiver(c.initial, [], false), false)
  }

  /**
    From the start, through any such run, to the end of the transfer: whatever happened
    before, undisturbed timer periods come to an end within the bound, and when the sender
    sees the FIN acknowledged the receiver holds the whole stream and its end.
   */
  lemma {:induction false} EventualDelivery(now: nat, c: Connection, ms: seq<Move>, es: seq<Exchange>)
    requires AllAllowed(Start(now, c), c, ms)
    requires var j := Play(Start(now, c), ms);
             j.s.syn == Acked && j.s.fin == Sent && AllPossible(j.s, c, j.r, es)
    ensures var j := Play(Start(now, c), ms);
            var (t, q) := Transferred(j.s, c, j.r, es);
            && |es| <= RoundsNeeded(|Queue(j.s)|) && t.fin != Idle
            && (t.fin == Acked ==> t.deadline == 0 && q.closed && q.received == j.s.stream)
            && (t.fin == Sent ==> |es| < RoundsNeeded(|Queue(j.s)|))
  {
    assert InStep(Start(now, c), c);
    RunKeepsInStep(Start(now, c), c, ms);
    var j := Play(Start(now, c), ms);
    ReliableTransfer(j.s, c, j.r, es);
  }

  /** After every such run the transfer can be completed, within the bound. */
  lemma {:induction false} DeliveryIsPossible(now: nat, c: Connection, ms: seq<Move>) returns (es: seq<Exchange>)
    requires AllAllowed(Start(now, c), c, ms)
    requires var j := Play(Start(now, c), ms); j.s.syn == Acked && j.s.fin == Sent
    ensures var j := Play(Start(now, c), ms);
            var (t, q) := Transferred(j.s, c, j.r, es);
            && AllPossible(j.s, c, j.r, es) && |es| <= RoundsNeeded(|Queue(j.s)|)
            && t.fin == Acked && q.closed && q.received == j.s.stream
  {
    assert InStep(Start(now, c), c);
    RunKeepsInStep(Start(now, c), c, ms);
    var j := Play(Start(now, c), ms);
    es := TransferCompletes(j.s, c, j.r, now);
  }
}
