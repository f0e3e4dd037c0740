/**
  The invariant of the sender and its preservation by every step.
 */
module SenderInvariant {
  import opened Machine
  import opened SenderModel

  /** WINDOW + MSS: no data byte is ever sent this far past `una`. */
  const REACH: int := 16060

  function FinBit(s: Sender): nat {
    if s.fin == Idle then 0 else 1
  }

  /** How the acknowledged position, the stream and the control states relate. */
  ghost predicate Bookkeeping(s: Sender) {
    && s.una <= |s.stream| + 1
    && (s.fin == Acked <==> s.una == |s.stream| + 1)
    && |s.stream| - s.una <= CAPACITY
    && (s.syn == Idle ==> s.fin == Idle && s.stream == [] && s.log == [])
    && (s.syn != Acked ==> s.una == 0 && s.ahead == 0 && s.fin != Acked && HighestSent(s.log) == 0)
  }

  /** Where the in-flight counter and the highest sent position can be. */
  ghost predicate Zones(s: Sender) {
    && s.una + s.ahead <= |s.stream|
    && s.ahead < REACH
    && s.una <= HighestSent(s.log) <= s.una + REACH
    && HighestSent(s.log) <= s.una + s.ahead + REACH
    && HighestSent(s.log) <= |s.stream| + FinBit(s)
  }

  /** A packet carries the stream's bytes at its own position. */
  ghost predicate Truthful(p: Packet, s: Sender) {
    p.Data? ==>
      && s.syn == Acked
      && |p.data| <= MSS
      && p.offset + |p.data| <= |s.stream|
      && p.offset + |p.data| < s.una + REACH
      && p.data == s.stream[p.offset..p.offset + |p.data|]
      && (p.fin ==> s.fin != Idle && p.offset + |p.data| == |s.stream|)
      && (p.data == [] ==> p.fin)
  }

  ghost predicate AllTruthful(s: Sender) {
    forall i :: 0 <= i < |s.log| ==> Truthful(s.log[i], s)
  }

  /** Everything but the timer, which is unset while `retransmit` runs. */
  ghost predicate Safe(s: Sender) {
    Bookkeeping(s) && Zones(s) && AllTruthful(s)
  }

  ghost predicate Inv(s: Sender) {
    Safe(s) && (s.deadline != 0 <==> s.fin != Acked)
  }

  /** What makes a packet truthful is never lost: the stream only grows, until the FIN fixes it. */
  ghost predicate Extends(s: Sender, t: Sender) {
    && s.una <= t.una && s.stream <= t.stream
    && (s.syn == Acked ==> t.syn == Acked)
    && (s.fin != Idle ==> t.fin != Idle && t.stream == s.stream)
  }

  lemma AllTruthfulLater(s: Sender, t: Sender)
    requires AllTruthful(s) && Extends(s, t) && t.log == s.log
    ensures AllTruthful(t)
  {
    forall i | 0 <= i < |t.log| ensures Truthful(t.log[i], t) {
      assert Truthful(s.log[i], s);
    }
  }

  lemma AllTruthfulAppend(s: Sender, p: Packet, t: Sender)
    requires AllTruthful(s) && Extends(s, t) && t.log == s.log + [p] && Truthful(p, t)
    ensures AllTruthful(t)
  {
    forall i | 0 <= i < |t.log| ensures Truthful(t.log[i], t) {
      if i < |s.log| { assert Truthful(s.log[i], s); }
    }
  }

  lemma HighestSentAppend(log: seq<Packet>, p: Packet)
    ensures HighestSent(log + [p]) == Max(HighestSent(log), Extent(p))
  {
    assert (log + [p])[..|log|] == log;
  }

  // ---------------------------------------------------------------- transmit

  /** The packet at the current position may join the log. */
  lemma EmitKeeps(s: Sender, p: Packet)
    requires Safe(s) && s.syn == Acked && InWindow(s) && p == NextPacket(s) && (p.data != [] || p.fin)
    ensures Safe(Emit(s, p))
  {
    HighestSentAppend(s.log, p);
    AllTruthfulAppend(s, p, Emit(s, p));
  }

  /** One turn of the loop keeps the invariant. */
  lemma TurnKeeps(s: Sender, accept: bool)
    requires Safe(s) && s.syn == Acked && InWindow(s)
    ensures Safe(Turn(s, accept))
  {
    var p := NextPacket(s);
    if accept && (p.data != [] || p.fin) {
      EmitKeeps(s, p);
    } else {
      AllTruthfulLater(s, Turn(s, accept));
    }
  }

  /** The loop changes nothing but the counter and the log, which grows. */
  lemma {:induction false} TransmitLoopFrame(s: Sender, budget: nat)
    ensures var r := TransmitLoop(s, budget);
            s.log <= r.log && r == s.(ahead := r.ahead, log := r.log)
    decreases WINDOW - s.ahead
  {
    if InWindow(s) && budget != 0 && NextPacket(s).data != [] {
      TransmitLoopFrame(Turn(s, true), budget - 1);
    }
  }

  lemma {:induction false} TransmitLoopKeeps(s: Sender, budget: nat)
    requires Safe(s) && s.syn == Acked
    ensures Safe(TransmitLoop(s, budget))
    decreases WINDOW - s.ahead
  {
    if InWindow(s) {
      TurnKeeps(s, budget > 0);
      if budget != 0 && NextPacket(s).data != [] {
        TransmitLoopKeeps(Turn(s, true), budget - 1);
      }
    }
  }

  lemma TransmitKeeps(s: Sender, budget: nat)
    requires Safe(s)
    ensures var r := Transmit(s, budget);
            Safe(r) && s.log <= r.log && r == s.(ahead := r.ahead, log := r.log)
  {
    if s.syn == Sent && budget != 0 {
      var p := Syn(s.synReceived, if s.synReceived then s.rcvNext else 0);
      HighestSentAppend(s.log, p);
      AllTruthfulAppend(s, p, s.(log := s.log + [p]));
    } else if s.syn == Acked {
      TransmitLoopFrame(s, budget);
      TransmitLoopKeeps(s, budget);
    }
  }

  // ------------------------------------------------------------------- steps

  /** `sendData` before it transmits. */
  lemma AppendKeeps(s: Sender, more: seq<byte>)
    requires Inv(s) && s.syn != Idle && s.fin == Idle && |Queue(s)| + |more| <= CAPACITY
    ensures Inv(s.(stream := s.stream + more))
  {
    AllTruthfulLater(s, s.(stream := s.stream + more));
  }

  /** `sendFIN` before it transmits. */
  lemma RequestFinKeeps(s: Sender)
    requires Inv(s) && s.syn != Idle && s.fin == Idle
    ensures Inv(s.(fin := Sent))
  {
    AllTruthfulLater(s, s.(fin := Sent));
  }

  lemma SettleKeeps(s: Sender, position: nat, now: nat)
    requires Inv(s) && s.syn != Idle && s.una <= position <= HighestSent(s.log)
    ensures Inv(Settle(s, position, now))
  {
    AllTruthfulLater(s, Settle(s, position, now));
  }

  lemma AcknowledgeKeeps(s: Sender, position: nat, now: nat, budget: nat)
    requires Inv(s) && s.syn != Idle && s.una <= position <= HighestSent(s.log)
    ensures Inv(Acknowledge(s, position, now, budget))
  {
    SettleKeeps(s, position, now);
    TransmitKeeps(Settle(s, position, now), budget);
  }

  lemma RestartKeeps(s: Sender)
    requires Safe(s) && s.fin != Acked
    ensures Safe(s.(ahead := 0, deadline := 0))
  {
    AllTruthfulLater(s, s.(ahead := 0, deadline := 0));
  }

  lemma RetransmitKeeps(s: Sender, now: nat, budget: nat)
    requires Inv(s) && s.deadline != 0
    ensures Inv(Retransmit(s, now, budget))
  {
    RestartKeeps(s);
    var r := Transmit(s.(ahead := 0, deadline := 0), budget);
    TransmitKeeps(s.(ahead := 0, deadline := 0), budget);
    AllTruthfulLater(r, r.(deadline := now + SECOND));
  }

  /** Every step keeps the invariant. */
  lemma StepKeeps(s: Sender, e: Event)
    requires Inv(s) && Enabled(s, e)
    ensures Inv(Step(s, e))
  {
    match e
    case DoSendSyn(budget) => TransmitKeeps(s.(syn := Sent), budget);
    case DoSendData(data, budget) =>
      var more := data[..Accepted(s, data)];
      AppendKeeps(s, more);
      TransmitKeeps(s.(stream := s.stream + more), budget);
    case DoSendFin(budget) =>
      RequestFinKeeps(s);
      TransmitKeeps(s.(fin := Sent), budget);
    case DoAcknowledge(position, now, budget) => AcknowledgeKeeps(s, position, now, budget);
    case DoTimer(now, budget) => RetransmitKeeps(s, now, budget);
    case DoPeer(_, _) => AllTruthfulLater(s, Step(s, e));
  }
}
