/**
  The sender over the ring buffer as written.

  A write that meets the gap says it took bytes that it did not queue; `next` counts them
  all the same.  Up to that write the sender is the one of SenderModel.  From then on the
  tests for the FIN compare with a `next` that is too far ahead, for ever.
 */
module GapRuns {
  import opened Machine
  import opened Rings
  import opened SenderModel
  import opened SenderInvariant
  import opened SenderFields
  import opened Segments
  import Delivery
  import Deadline

  /** The stream of `s` is what the ring was given; `lost` more bytes are counted in `next`. */
  datatype Written = Written(s: Sender, ring: Ring, lost: nat)

  // ------------------------------------------------------------------- steps

  /** `next` has this number: bytes queued, bytes lost, and the FIN. */
  function NextNumber(c: Connection, s: Sender, lost: nat): u32 {
    Number(c, |s.stream| + lost + FinBit(s))
  }

  /** The packet of lines 120-136, with the FIN test in sequence numbers. */
  function PacketAsWritten(c: Connection, s: Sender, lost: nat): Packet
    requires InWindow(s)
  {
    var p := NextPacket(s);
    p.(fin := s.fin == Sent && Number(c, p.offset + |p.data| + 1) == NextNumber(c, s, lost))
  }

  function TurnAsWritten(c: Connection, s: Sender, lost: nat, accept: bool): Sender
    requires InWindow(s)
  {
    var p := PacketAsWritten(c, s, lost);
    if p.data == [] && !p.fin then s
    else if accept then Emit(s, p)
    else s.(ahead := s.ahead + |p.data|)
  }

  function LoopAsWritten(c: Connection, s: Sender, lost: nat, budget: nat): Sender
    decreases WINDOW - s.ahead
  {
    if !InWindow(s) then s
    else if budget == 0 || PacketAsWritten(c, s, lost).data == [] then TurnAsWritten(c, s, lost, budget > 0)
    else LoopAsWritten(c, TurnAsWritten(c, s, lost, true), lost, budget - 1)
  }

  function TransmitAsWritten(c: Connection, s: Sender, lost: nat, budget: nat): Sender {
    if s.syn == Acked then LoopAsWritten(c, s, lost, budget) else Transmit(s, budget)
  }

  function SendDataAsWritten(c: Connection, g: Written, data: seq<byte>, budget: nat): Written
    requires g.ring.Valid()
  {
    if g.ring.Full() then g
    else
      var queued := if Gap(g.ring, Put(data)) then [] else data[..Taken(g.ring, data)];
      var lost := g.lost + Taken(g.ring, data) - |queued|;
      var s := g.s.(stream := g.s.stream + queued);
      Written(if s.syn == Acked then TransmitAsWritten(c, s, lost, budget) else s, WriteAsWritten(g.ring, data), lost)
  }

  function SendFinAsWritten(c: Connection, g: Written, budget: nat): Written {
    var s := g.s.(fin := Sent);
    g.(s := if g.ring.Remaining() == 0 then TransmitAsWritten(c, s, g.lost, budget) else s)
  }

  /** Lines 78-102, with the FIN test in sequence numbers. */
  function SettleAsWritten(c: Connection, s: Sender, lost: nat, position: nat, now: nat): Sender
    requires s.una <= position
  {
    var consumed := position - s.una;
    var una := s.una + Min(consumed, |Queue(s)|);
    var ahead := s.ahead - consumed;
    var closing := s.fin == Sent && Number(c, position) == NextNumber(c, s, lost);
    s.(syn := Acked, una := if closing then una + 1 else una, ahead := ahead,
       fin := if closing then Acked else s.fin,
       deadline := if closing then 0
                   else if ahead == 0 then Deadline.Updated(s.deadline, now + SECOND, Deadline.GRANULARITY)
                   else s.deadline)
  }

  function AcknowledgeAsWritten(c: Connection, g: Written, position: nat, now: nat, budget: nat): Written
    requires g.ring.Valid() && g.s.una <= position
  {
    var s := SettleAsWritten(c, g.s, g.lost, position, now);
    Written(if position > g.s.una then TransmitAsWritten(c, s, g.lost, budget) else s,
            Consume(g.ring, position - g.s.una), g.lost)
  }

  function RetransmitAsWritten(c: Connection, s: Sender, lost: nat, now: nat, budget: nat): Sender {
    TransmitAsWritten(c, s.(ahead := 0, deadline := 0), lost, budget).(deadline := now + SECOND)
  }

  function StepAsWritten(c: Connection, g: Written, e: Event): Written
    requires g.ring.Valid() && Enabled(g.s, e)
  {
    match e
    case DoSendData(data, budget) => SendDataAsWritten(c, g, data, budget)
    case DoSendFin(budget) => SendFinAsWritten(c, g, budget)
    case DoAcknowledge(position, now, budget) => AcknowledgeAsWritten(c, g, position, now, budget)
    case DoTimer(now, budget) => g.(s := RetransmitAsWritten(c, g.s, g.lost, now, budget))
    case _ => g.(s := Step(g.s, e))
  }

  // ------------------------------------------------------- what the tests see

  /** Fewer bytes are lost than would bring `next` around to the queue again. */
  predicate NotAround(lost: nat) {
    lost + CAPACITY + 1 < U32
  }

  /** Once bytes are lost, the sender acts as if no FIN had been requested. */
  function Seen(s: Sender, lost: nat): Sender {
    if lost == 0 then s else s.(fin := Idle)
  }

  /** The numbers of the FIN and of the positions it is compared with. */
  lemma FinNumbers(c: Connection, s: Sender, lost: nat, position: nat)
    requires NotAround(lost) && s.fin != Idle && |s.stream| <= position + CAPACITY && position <= |s.stream| + 1
    ensures Number(c, position) == NextNumber(c, s, lost) <==> lost == 0 && position == |s.stream| + 1
  {
    NumberInjective(c, position, |s.stream| + lost + 1);
  }

  lemma PacketSeen(c: Connection, s: Sender, lost: nat)
    requires NotAround(lost) && InWindow(s) && |s.stream| <= s.una + CAPACITY
    ensures PacketAsWritten(c, s, lost) == NextPacket(Seen(s, lost))
  {
    var p := NextPacket(s);
    if s.fin == Sent { FinNumbers(c, s, lost, p.offset + |p.data| + 1); }
  }

  lemma TurnSeen(c: Connection, s: Sender, lost: nat, accept: bool)
    requires NotAround(lost) && InWindow(s) && |s.stream| <= s.una + CAPACITY
    ensures var r := TurnAsWritten(c, s, lost, accept);
            && r.fin == s.fin && r.stream == s.stream && r.una == s.una
            && Seen(r, lost) == Turn(Seen(s, lost), accept)
  {
    PacketSeen(c, s, lost);
  }

  lemma {:induction false} LoopSeen(c: Connection, s: Sender, lost: nat, budget: nat)
    requires NotAround(lost) && |s.stream| <= s.una + CAPACITY
    ensures var r := LoopAsWritten(c, s, lost, budget);
            r.fin == s.fin && Seen(r, lost) == TransmitLoop(Seen(s, lost), budget)
    decreases WINDOW - s.ahead
  {
    if InWindow(s) {
      PacketSeen(c, s, lost);
      TurnSeen(c, s, lost, budget > 0);
      var t := Seen(s, lost);
      if budget != 0 && NextPacket(t).data != [] {
        var u := TurnAsWritten(c, s, lost, true);
        LoopSeen(c, u, lost, budget - 1);
        assert LoopAsWritten(c, s, lost, budget) == LoopAsWritten(c, u, lost, budget - 1);
        assert TransmitLoop(t, budget) == TransmitLoop(Seen(u, lost), budget - 1);
      }
    }
  }

  lemma TransmitSeen(c: Connection, s: Sender, lost: nat, budget: nat)
    requires NotAround(lost) && |s.stream| <= s.una + CAPACITY
    ensures var r := TransmitAsWritten(c, s, lost, budget);
            r.fin == s.fin && Seen(r, lost) == Transmit(Seen(s, lost), budget)
  {
    if s.syn == Acked { LoopSeen(c, s, lost, budget); }
  }

  // --------------------------------------------------------------- invariant

  ghost predicate Whole(g: Written) {
    && g.ring.Valid() && g.ring.Size() == CAPACITY && g.ring.Contents() == Queue(g.s)
    && NotAround(g.lost) && Inv(Seen(g.s, g.lost)) && (g.lost > 0 ==> g.s.fin != Acked)
  }

  /**
    The model's step that a step of the code amounts to: a write that meets the gap is one
    of nothing, and with bytes lost `sendFIN` only transmits what is there.
   */
  function SeenStep(g: Written, e: Event): Sender
    requires Enabled(g.s, e)
  {
    var t := Seen(g.s, g.lost);
    if e.DoSendData? && Gap(g.ring, Put(e.data)) then
      (if t.syn == Acked then Transmit(t, e.budget) else t)
    else if e.DoSendFin? && g.lost > 0 then
      (if Queue(t) == [] then Transmit(t, e.budget) else t)
    else Step(t, e)
  }

  /** One step of the code: it keeps the invariant, and it is that step of the model. */
  ghost predicate StepsWell(c: Connection, g: Written, e: Event)
    requires g.ring.Valid() && Enabled(g.s, e)
  {
    var r := StepAsWritten(c, g, e);
    && Whole(r)
    && Seen(r.s, r.lost) == SeenStep(g, e)
    && (r.lost == 0 ==> r.s == Step(g.s, e))
    && r.lost >= g.lost && (r.lost > g.lost <==> e.DoSendData? && Gap(g.ring, Put(e.data)))
  }

  lemma QueueFits(g: Written)
    requires Whole(g)
    ensures |g.s.stream| <= g.s.una + CAPACITY && g.ring.Remaining() == |Queue(g.s)|
  {
    ContentsLength(g.ring);
  }

  lemma QueueAppend(s: Sender, more: seq<byte>)
    requires s.una <= |s.stream|
    ensures Queue(s.(stream := s.stream + more)) == Queue(s) + more
  {
  }

  /** What any handler's last step gives: the model's state as seen, and the queue in the ring. */
  lemma WholeAfter(g: Written, r: Written, t: Sender)
    requires Whole(g) && r.lost == g.lost && Seen(r.s, r.lost) == t && Inv(t) && (g.lost > 0 ==> r.s.fin != Acked)
    requires r.ring.Valid() && r.ring.Size() == CAPACITY && r.ring.Contents() == Queue(r.s)
    ensures Whole(r) && (r.lost == 0 ==> r.s == t)
  {
  }

  lemma DataSeen(c: Connection, g: Written, data: seq<byte>, budget: nat)
    requires g.ring.Valid() && g.ring.Remaining() == |Queue(g.s)| && g.ring.Size() == CAPACITY
    requires g.s.fin == Idle && g.s.una <= |g.s.stream| && NotAround(g.lost)
    requires !Gap(g.ring, Put(data))
    ensures var r, more := SendDataAsWritten(c, g, data, budget), data[..Taken(g.ring, data)];
            && r.lost == g.lost && r.s == SendData(g.s, data, budget)
            && r.s.una == g.s.una && r.s.stream == g.s.stream + more && r.s.fin == Idle
  {
    var more := data[..Taken(g.ring, data)];
    var s := g.s.(stream := g.s.stream + more);
    if g.ring.Full() {
      assert more == [] && g.s.stream + more == g.s.stream;
    } else {
      TransmitSeen(c, s, g.lost, budget);
      TransmitLoopFrame(s, budget);
    }
  }

  lemma RingWrites(g: Written, data: seq<byte>)
    requires g.ring.Valid() && !Gap(g.ring, Put(data)) && g.ring.Contents() == Queue(g.s) && g.s.una <= |g.s.stream|
    ensures var w, more := WriteAsWritten(g.ring, data), data[..Taken(g.ring, data)];
            && w.Valid() && w.Size() == g.ring.Size()
            && w.Contents() == Queue(g.s.(stream := g.s.stream + more))
  {
    WriteIsFifo(g.ring, data);
    AsWrittenIffNoGap(g.ring, data);
    QueueAppend(g.s, data[..Taken(g.ring, data)]);
  }

  lemma DataQueued(c: Connection, g: Written, data: seq<byte>, budget: nat)
    requires Whole(g) && g.s.syn != Idle && g.s.fin == Idle && !Gap(g.ring, Put(data))
    ensures StepsWell(c, g, DoSendData(data, budget))
  {
    var r := SendDataAsWritten(c, g, data, budget);
    QueueFits(g);
    DataSeen(c, g, data, budget);
    RingWrites(g, data);
    StepKeeps(g.s, DoSendData(data, budget));
    WholeAfter(g, r, SendData(g.s, data, budget));
  }

  lemma RingStuck(r: Ring, data: seq<byte>)
    requires r.Valid() && Gap(r, Put(data))
    ensures var w := WriteAsWritten(r, data); w.Valid() && w.Size() == r.Size() && w.Contents() == r.Contents()
    ensures !r.Full() && Taken(r, data) > 0
  {
    StuckWrite(r, data);
    QueuedAsWritten(r, data);
  }

  /** A write that meets the gap: the sender transmits, nothing is queued. */
  lemma LossSeen(c: Connection, g: Written, data: seq<byte>, budget: nat)
    requires g.ring.Valid() && Gap(g.ring, Put(data)) && g.s.fin == Idle
    requires |g.s.stream| <= g.s.una + CAPACITY && NotAround(g.lost + Taken(g.ring, data))
    ensures var r := SendDataAsWritten(c, g, data, budget);
            && r.lost == g.lost + Taken(g.ring, data) && r.ring == WriteAsWritten(g.ring, data)
            && r.s == (if g.s.syn == Acked then Transmit(g.s, budget) else g.s)
            && r.s.fin == Idle && r.s.stream == g.s.stream && r.s.una == g.s.una
  {
    var lost := g.lost + Taken(g.ring, data);
    RingStuck(g.ring, data);
    assert g.s.stream + [] == g.s.stream;
    TransmitSeen(c, g.s, lost, budget);
    TransmitLoopFrame(g.s, budget);
  }

  lemma WholeAfterLoss(r: Written)
    requires r.ring.Valid() && r.ring.Size() == CAPACITY && r.ring.Contents() == Queue(r.s)
    requires NotAround(r.lost) && Inv(r.s) && r.s.fin == Idle
    ensures Whole(r) && Seen(r.s, r.lost) == r.s
  {
  }

  lemma DataLost(c: Connection, g: Written, data: seq<byte>, budget: nat)
    requires Whole(g) && g.s.syn != Idle && g.s.fin == Idle && Gap(g.ring, Put(data))
    requires NotAround(g.lost + Taken(g.ring, data))
    ensures StepsWell(c, g, DoSendData(data, budget))
  {
    QueueFits(g);
    RingStuck(g.ring, data);
    LossSeen(c, g, data, budget);
    TransmitKeeps(g.s, budget);
    WholeAfterLoss(SendDataAsWritten(c, g, data, budget));
  }

  lemma FinRequested(c: Connection, g: Written, budget: nat)
    requires Whole(g) && g.s.syn != Idle && g.s.fin == Idle
    ensures StepsWell(c, g, DoSendFin(budget))
  {
    var s := g.s.(fin := Sent);
    QueueFits(g);
    StepKeeps(g.s, DoSendFin(budget));
    RequestFinKeeps(g.s);
    TransmitKeeps(Seen(s, g.lost), budget);
    TransmitSeen(c, s, g.lost, budget);
  }

  lemma SettleSeen(c: Connection, s: Sender, lost: nat, position: nat, now: nat)
    requires NotAround(lost) && Inv(Seen(s, lost)) && (lost > 0 ==> s.fin != Acked)
    requires s.una <= position <= HighestSent(s.log)
    ensures var r := SettleAsWritten(c, s, lost, position, now);
            Seen(r, lost) == Settle(Seen(s, lost), position, now) && (lost > 0 ==> r.fin == s.fin)
  {
    if s.fin == Sent { FinNumbers(c, s, lost, position); }
  }

  lemma AckSeen(c: Connection, s: Sender, lost: nat, ring: Ring, position: nat, now: nat, budget: nat)
    requires ring.Valid() && NotAround(lost) && Inv(Seen(s, lost)) && (lost > 0 ==> s.fin != Acked)
    requires s.una <= position <= HighestSent(s.log)
    ensures var r := AcknowledgeAsWritten(c, Written(s, ring, lost), position, now, budget).s;
            && Seen(r, lost) == Acknowledge(Seen(s, lost), position, now, budget)
            && (lost > 0 ==> r.fin == s.fin) && r.stream == s.stream && r.una == position
  {
    var t := SettleAsWritten(c, s, lost, position, now);
    SettleSeen(c, s, lost, position, now);
    TransmitSeen(c, t, lost, budget);
    TransmitLoopFrame(Seen(t, lost), budget);
  }

  lemma RingConsumes(g: Written, position: nat)
    requires g.ring.Valid() && g.ring.Contents() == Queue(g.s) && g.s.una <= position
    ensures var w := Consume(g.ring, position - g.s.una);
            w.Valid() && w.Size() == g.ring.Size() && w.Contents() == g.s.stream[Min(position, |g.s.stream|)..]
  {
    ConsumeIsFifo(g.ring, position - g.s.una);
    SettledQueue(g.s, position);
  }

  lemma AckReceived(c: Connection, g: Written, position: nat, now: nat, budget: nat)
    requires Whole(g) && Enabled(g.s, DoAcknowledge(position, now, budget))
    ensures StepsWell(c, g, DoAcknowledge(position, now, budget))
  {
    var t, r := Seen(g.s, g.lost), AcknowledgeAsWritten(c, g, position, now, budget);
    AckSeen(c, g.s, g.lost, g.ring, position, now, budget);
    AcknowledgeKeeps(t, position, now, budget);
    RingConsumes(g, position);
    WholeAfter(g, r, Acknowledge(t, position, now, budget));
  }

  lemma AlarmSeen(c: Connection, s: Sender, lost: nat, now: nat, budget: nat)
    requires NotAround(lost) && |s.stream| <= s.una + CAPACITY
    ensures var r := RetransmitAsWritten(c, s, lost, now, budget);
            && Seen(r, lost) == Retransmit(Seen(s, lost), now, budget)
            && r.fin == s.fin && r.stream == s.stream && r.una == s.una
  {
    var t := s.(ahead := 0, deadline := 0);
    TransmitSeen(c, t, lost, budget);
    TransmitLoopFrame(Seen(t, lost), budget);
  }

  lemma AlarmFired(c: Connection, g: Written, now: nat, budget: nat)
    requires Whole(g) && g.s.deadline != 0
    ensures StepsWell(c, g, DoTimer(now, budget))
  {
    var t, r := Seen(g.s, g.lost), g.(s := RetransmitAsWritten(c, g.s, g.lost, now, budget));
    QueueFits(g);
    AlarmSeen(c, g.s, g.lost, now, budget);
    RetransmitKeeps(t, now, budget);
    WholeAfter(g, r, Retransmit(t, now, budget));
  }

  /** Steps that touch neither queue nor FIN. */
  lemma WholeLike(c: Connection, g: Written, e: Event)
    requires Whole(g) && Enabled(g.s, e) && (e.DoSendSyn? || e.DoPeer?)
    requires var s := Step(g.s, e); s.stream == g.s.stream && s.una == g.s.una && s.fin == g.s.fin
    requires Seen(Step(g.s, e), g.lost) == Step(Seen(g.s, g.lost), e) && Inv(Step(Seen(g.s, g.lost), e))
    ensures StepsWell(c, g, e)
  {
    var r := g.(s := Step(g.s, e));
    assert StepAsWritten(c, g, e) == r && Queue(r.s) == Queue(g.s);
    WholeAfter(g, r, Step(Seen(g.s, g.lost), e));
  }

  lemma SynSeen(s: Sender, lost: nat, budget: nat)
    ensures var r := SendSyn(s, budget);
            Seen(r, lost) == SendSyn(Seen(s, lost), budget) && r.fin == s.fin && r.stream == s.stream && r.una == s.una
  {
  }

  lemma SynSent(c: Connection, g: Written, budget: nat)
    requires Whole(g) && g.s.syn == Idle
    ensures StepsWell(c, g, DoSendSyn(budget))
  {
    var e := DoSendSyn(budget);
    SynSeen(g.s, g.lost, budget);
    StepKeeps(Seen(g.s, g.lost), e);
    WholeLike(c, g, e);
  }

  lemma PeerMoved(c: Connection, g: Written, rcvNext: u32, received: bool)
    requires Whole(g)
    ensures StepsWell(c, g, DoPeer(rcvNext, received))
  {
    var e := DoPeer(rcvNext, received);
    StepKeeps(Seen(g.s, g.lost), e);
    WholeLike(c, g, e);
  }

  /** The code's steps, all of them. */
  lemma StepAsWrittenKeeps(c: Connection, g: Written, e: Event)
    requires Whole(g) && Enabled(g.s, e) && NotAround(StepAsWritten(c, g, e).lost)
    ensures StepsWell(c, g, e)
  {
    match e
    case DoSendData(data, budget) =>
      if Gap(g.ring, Put(data)) {
        DataLost(c, g, data, budget);
      } else {
        DataQueued(c, g, data, budget);
      }
    case DoSendFin(budget) => FinRequested(c, g, budget);
    case DoAcknowledge(position, now, budget) => AckReceived(c, g, position, now, budget);
    case DoTimer(now, budget) => AlarmFired(c, g, now, budget);
    case DoSendSyn(budget) => SynSent(c, g, budget);
    case DoPeer(rcvNext, received) => PeerMoved(c, g, rcvNext, received);
  }

  // -------------------------------------------------------------------- runs

  /** The sender just created, over an empty buffer. */
  function Start(now: nat, data: seq<byte>): Written {
    Written(Init(now), Ring(data, 0, 0), 0)
  }

  ghost predicate LegalAsWritten(c: Connection, g: Written, events: seq<Event>)
    decreases |events|
  {
    events == [] ||
    (g.ring.Valid() && Enabled(g.s, events[0]) && LegalAsWritten(c, StepAsWritten(c, g, events[0]), events[1..]))
  }

  function RunAsWritten(c: Connection, g: Written, events: seq<Event>): Written
    requires LegalAsWritten(c, g, events)
    decreases |events|
  {
    if events == [] then g else RunAsWritten(c, StepAsWritten(c, g, events[0]), events[1..])
  }

  /** Some `sendData` of the run meets the gap. */
  predicate MeetsWriteGap(c: Connection, g: Written, events: seq<Event>)
    requires LegalAsWritten(c, g, events)
    decreases |events|
  {
    events != [] &&
    ((events[0].DoSendData? && Gap(g.ring, Put(events[0].data))) ||
     MeetsWriteGap(c, StepAsWritten(c, g, events[0]), events[1..]))
  }

  // --------------------------------------------------------- what becomes of the data

  /** The bytes a step reports to the application as taken. */
  function TakenBy(g: Written, e: Event): seq<byte>
    requires g.ring.Valid()
  {
    if e.DoSendData? && !g.ring.Full() then e.data[..Taken(g.ring, e.data)] else []
  }

  /** The bytes a run reports as taken. */
  function TakenInRun(c: Connection, g: Written, events: seq<Event>): seq<byte>
    requires LegalAsWritten(c, g, events)
    decreases |events|
  {
    if events == [] then []
    else TakenBy(g, events[0]) + TakenInRun(c, StepAsWritten(c, g, events[0]), events[1..])
  }

  /** `kept` is `all` with some bytes missing. */
  ghost predicate Thinned(all: seq<byte>, kept: seq<byte>)
    decreases |all|
  {
    if all == [] then kept == []
    else
      var init := all[..|all| - 1];
      || Thinned(init, kept)
      || (kept != [] && kept[|kept| - 1] == all[|all| - 1] && Thinned(init, kept[..|kept| - 1]))
  }

  lemma {:induction false} ThinnedAppend(all: seq<byte>, kept: seq<byte>, more: seq<byte>)
    requires Thinned(all, kept)
    ensures Thinned(all + more, kept + more) && Thinned(all + more, kept)
    decreases |more|
  {
    if more == [] {
      assert all + more == all && kept + more == kept;
    } else {
      var init := more[..|more| - 1];
      ThinnedAppend(all, kept, init);
      assert (all + more)[..|all + more| - 1] == all + init;
      assert (kept + more)[..|kept + more| - 1] == kept + init;
    }
  }

  lemma {:induction false} LoopAsWrittenFrame(c: Connection, s: Sender, lost: nat, budget: nat)
    ensures var r := LoopAsWritten(c, s, lost, budget);
            r.stream == s.stream && r.una == s.una && r.syn == s.syn && r.fin == s.fin
    decreases WINDOW - s.ahead
  {
    if InWindow(s) && budget != 0 && PacketAsWritten(c, s, lost).data != [] {
      LoopAsWrittenFrame(c, TurnAsWritten(c, s, lost, true), lost, budget - 1);
    }
  }

  lemma TransmitAsWrittenFrame(c: Connection, s: Sender, lost: nat, budget: nat)
    ensures var r := TransmitAsWritten(c, s, lost, budget);
            r.stream == s.stream && r.una == s.una && r.syn == s.syn && r.fin == s.fin
  {
    LoopAsWrittenFrame(c, s, lost, budget);
  }

  /** What is taken is queued or, at the gap, lost. */
  lemma StepTakes(c: Connection, g: Written, e: Event)
    requires g.ring.Valid() && Enabled(g.s, e)
    ensures var r, taken := StepAsWritten(c, g, e), TakenBy(g, e);
            if e.DoSendData? && Gap(g.ring, Put(e.data)) then
              r.s.stream == g.s.stream && r.lost == g.lost + |taken| && taken != []
            else
              r.s.stream == g.s.stream + taken && r.lost == g.lost
  {
    match e
    case DoSendData(data, budget) =>
      if !g.ring.Full() {
        var queued := if Gap(g.ring, Put(data)) then [] else data[..Taken(g.ring, data)];
        assert g.s.stream + [] == g.s.stream;
        TransmitAsWrittenFrame(c, g.s.(stream := g.s.stream + queued), StepAsWritten(c, g, e).lost, budget);
      }
    case DoSendFin(budget) => TransmitAsWrittenFrame(c, g.s.(fin := Sent), g.lost, budget);
    case DoAcknowledge(position, now, budget) =>
      TransmitAsWrittenFrame(c, SettleAsWritten(c, g.s, g.lost, position, now), g.lost, budget);
    case DoTimer(now, budget) => TransmitAsWrittenFrame(c, g.s.(ahead := 0, deadline := 0), g.lost, budget);
    case _ =>
  }

  lemma StepThins(c: Connection, g: Written, e: Event, before: seq<byte>)
    requires g.ring.Valid() && Enabled(g.s, e)
    requires Thinned(before, g.s.stream) && |before| == |g.s.stream| + g.lost
    ensures var r, taken := StepAsWritten(c, g, e), before + TakenBy(g, e);
            && Thinned(taken, r.s.stream) && |taken| == |r.s.stream| + r.lost
            && r.lost >= g.lost && (r.lost > g.lost <==> e.DoSendData? && Gap(g.ring, Put(e.data)))
  {
    StepTakes(c, g, e);
    ThinnedAppend(before, g.s.stream, TakenBy(g, e));
  }

  lemma Regrouped(a: seq<byte>, b: seq<byte>, c: seq<byte>)
    ensures a + (b + c) == a + b + c
  {
  }

  lemma TakenCons(c: Connection, g: Written, events: seq<Event>, before: seq<byte>)
    requires LegalAsWritten(c, g, events) && events != []
    ensures before + TakenInRun(c, g, events) ==
            before + TakenBy(g, events[0]) + TakenInRun(c, StepAsWritten(c, g, events[0]), events[1..])
  {
    Regrouped(before, TakenBy(g, events[0]), TakenInRun(c, StepAsWritten(c, g, events[0]), events[1..]));
  }

  /** Over a run, whatever it loses: the stream is what was taken, with the lost bytes missing. */
  lemma {:induction false} RunTakes(c: Connection, g: Written, events: seq<Event>, before: seq<byte>)
    requires LegalAsWritten(c, g, events)
    requires Thinned(before, g.s.stream) && |before| == |g.s.stream| + g.lost
    ensures var r, taken := RunAsWritten(c, g, events), before + TakenInRun(c, g, events);
            && Thinned(taken, r.s.stream) && |taken| == |r.s.stream| + r.lost
            && r.lost >= g.lost && (r.lost > g.lost <==> MeetsWriteGap(c, g, events))
    decreases |events|
  {
    if events == [] {
      assert before + [] == before;
    } else {
      StepThins(c, g, events[0], before);
      RunTakes(c, StepAsWritten(c, g, events[0]), events[1..], before + TakenBy(g, events[0]));
      TakenCons(c, g, events, before);
    }
  }

  lemma {:induction false} ThinnedWhole(all: seq<byte>, kept: seq<byte>)
    requires Thinned(all, kept)
    ensures |kept| <= |all| && (|kept| == |all| ==> kept == all)
    decreases |all|
  {
    if all != [] {
      var init := all[..|all| - 1];
      if Thinned(init, kept) {
        ThinnedWhole(init, kept);
      } else {
        ThinnedWhole(init, kept[..|kept| - 1]);
        assert kept == kept[..|kept| - 1] + [kept[|kept| - 1]];
        assert all == init + [all[|all| - 1]];
      }
    }
  }

  // ------------------------------------------------------- what becomes of the FIN

  lemma {:induction false} RunAsWrittenKeeps(c: Connection, g: Written, events: seq<Event>)
    requires Whole(g) && LegalAsWritten(c, g, events) && NotAround(RunAsWritten(c, g, events).lost)
    ensures var r := RunAsWritten(c, g, events);
            && Whole(r) && (r.lost == 0 ==> Legal(g.s, events) && r.s == Run(g.s, events))
    decreases |events|
  {
    if events != [] {
      var g1 := StepAsWritten(c, g, events[0]);
      LostGrows(c, g1, events[1..]);
      StepAsWrittenKeeps(c, g, events[0]);
      RunAsWrittenKeeps(c, g1, events[1..]);
    }
  }

  lemma {:induction false} LostGrows(c: Connection, g: Written, events: seq<Event>)
    requires LegalAsWritten(c, g, events)
    ensures RunAsWritten(c, g, events).lost >= g.lost
    decreases |events|
  {
    if events != [] {
      StepTakes(c, g, events[0]);
      LostGrows(c, StepAsWritten(c, g, events[0]), events[1..]);
    }
  }

  /** No packet sent so far carries a FIN. */
  ghost predicate NoFinSent(log: seq<Packet>) {
    forall i :: 0 <= i < |log| && log[i].Data? ==> !log[i].fin
  }

  /**
    A run of the code as written that does not meet the gap is the model's, and its stream
    is what the application was told is taken.  One that does has a stream with bytes of
    that missing; and unless it loses so many that `next` comes around, it never sends a
    FIN, never closes, and its timer never stops.
   */
  lemma GapOrModel(c: Connection, now: nat, data: seq<byte>, events: seq<Event>)
    requires |data| == CAPACITY && LegalAsWritten(c, Start(now, data), events)
    ensures var r := RunAsWritten(c, Start(now, data), events);
            var taken := TakenInRun(c, Start(now, data), events);
            && Thinned(taken, r.s.stream) && |taken| == |r.s.stream| + r.lost
            && if MeetsWriteGap(c, Start(now, data), events) then
                 && r.lost > 0 && taken != r.s.stream
                 && (NotAround(r.lost) ==> NoFinSent(r.s.log) && r.s.fin != Acked && r.s.deadline != 0)
               else
                 && r.lost == 0 && taken == r.s.stream
                 && Legal(Init(now), events) && r.s == Run(Init(now), events)
  {
    var g := Start(now, data);
    var r, taken := RunAsWritten(c, g, events), TakenInRun(c, g, events);
    RunTakes(c, g, events, []);
    assert [] + taken == taken;
    ThinnedWhole(taken, r.s.stream);
    if NotAround(r.lost) {
      RunAsWrittenKeeps(c, g, events);
      if r.lost > 0 { SeenWithoutFin(r); }
    }
  }

  lemma SeenWithoutFin(g: Written)
    requires Whole(g) && g.lost > 0
    ensures NoFinSent(g.s.log)
  {
    var t := Seen(g.s, g.lost);
    forall i | 0 <= i < |g.s.log| && g.s.log[i].Data? ensures !g.s.log[i].fin {
      assert Truthful(t.log[i], t);
    }
  }

  /**
    The peer, after any selection of the segments of such a run, holds a prefix of the thinned
    stream, at least the lost bytes short of what was taken, and does not learn of its end.
   */
  lemma PeerMissesBytes(c: Connection, now: nat, data: seq<byte>, events: seq<Event>, arrivals: seq<Segment>)
    requires |data| == CAPACITY && LegalAsWritten(c, Start(now, data), events)
    requires MeetsWriteGap(c, Start(now, data), events)
    requires var r := RunAsWritten(c, Start(now, data), events);
             NotAround(r.lost) && Delivery.Short(r.s) && forall g :: g in arrivals ==> g in AllOnWire(c, r.s.log)
    ensures var r := RunAsWritten(c, Start(now, data), events);
            var q := Delivery.Deliver(Delivery.Receiver(c.initial, [], false), arrivals);
            && q.received <= r.s.stream && !q.closed
            && |q.received| + r.lost <= |TakenInRun(c, Start(now, data), events)|
  {
    var r := RunAsWritten(c, Start(now, data), events);
    GapOrModel(c, now, data, events);
    RunAsWrittenKeeps(c, Start(now, data), events);
    Delivery.DeliverKeeps(Delivery.Receiver(c.initial, [], false), c, arrivals, Seen(r.s, r.lost));
  }
}
