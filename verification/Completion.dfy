/**
  Bounded completion: how many lossless rounds finish a stream.
 */
module Completion {
  import opened Machine
  import opened SenderModel
  import opened SenderInvariant
  import opened SenderTheorems

  /** Enough accepted packets for one whole window and the FIN after it. */
  const LOSSLESS: nat := 11

  /** The timer fires at `fired`; the peer acknowledges all before `position` at `acked`. */
  datatype Round = Round(fired: nat, budget: nat, position: nat, acked: nat, more: nat)

  function AfterTimer(s: Sender, r: Round): Sender {
    Retransmit(s, r.fired, r.budget)
  }

  function AfterRound(s: Sender, r: Round): Sender {
    Acknowledge(AfterTimer(s, r), r.position, r.acked, r.more)
  }

  /** The packets this round's `retransmit` sends. */
  function Sending(s: Sender, r: Round): seq<Packet> {
    Emitted(s.(ahead := 0, deadline := 0), r.budget)
  }

  /** No send fails, and everything this round's `retransmit` sends is acknowledged. */
  predicate Lossless(s: Sender, r: Round) {
    && s.deadline != 0 && r.budget >= LOSSLESS
    && s.una <= r.position <= HighestSent(AfterTimer(s, r).log)
    && HighestSent(Sending(s, r)) <= r.position
  }

  function Rounds(s: Sender, rs: seq<Round>): Sender
    decreases |rs|
  {
    if rs == [] then s else Rounds(AfterRound(s, rs[0]), rs[1..])
  }

  predicate AllLossless(s: Sender, rs: seq<Round>)
    decreases |rs|
  {
    rs == [] || (Lossless(s, rs[0]) && AllLossless(AfterRound(s, rs[0]), rs[1..]))
  }

  /** max(1, ceil(remaining / 14600)) */
  function RoundsNeeded(remaining: nat): nat {
    Max(1, (remaining + WINDOW - 1) / WINDOW)
  }

  /** Positions not yet acknowledged. */
  function Outstanding(s: Sender): nat {
    |Queue(s)| + (if s.fin == Sent then 1 else 0)
  }

  // --------------------------------------------------------- one retransmission

  lemma {:induction false} HighestSentConcat(log: seq<Packet>, more: seq<Packet>)
    ensures HighestSent(log + more) == Max(HighestSent(log), HighestSent(more))
  {
    if more == [] {
      assert log + more == log;
    } else {
      var init := more[..|more| - 1];
      HighestSentConcat(log, init);
      assert (log + more)[..|log + more| - 1] == log + init;
    }
  }

  lemma HighestSentGrows(log: seq<Packet>, more: seq<Packet>)
    requires log <= more
    ensures HighestSent(log) <= HighestSent(more)
  {
    assert more == log + more[|log|..];
    HighestSentConcat(log, more[|log|..]);
  }

  lemma HighestSentCons(p: Packet, rest: seq<Packet>)
    ensures HighestSent([p] + rest) == Max(Extent(p), HighestSent(rest))
  {
    HighestSentConcat([p], rest);
    HighestSentAppend([], p);
    assert [] + [p] == [p];
  }

  /** Where an unhindered transmission ends when it starts k segments in. */
  lemma {:induction false} FullWindow(s: Sender, budget: nat, k: nat, ps: seq<Packet>)
    requires s.fin == Sent && k < 10 && s.ahead == k * MSS && s.una + s.ahead <= |s.stream|
    requires budget >= LOSSLESS - k && ps == Emitted(s, budget)
    ensures HighestSent(ps) == Min(|s.stream|, s.una + WINDOW) + (if |s.stream| <= s.una + WINDOW then 1 else 0)
    decreases 10 - k
  {
    var p := NextPacket(s);
    if p.data == [] {
      assert ps == [p] + [];
      HighestSentCons(p, []);
    } else {
      var s2 := Emit(s, p);
      var rest := Emitted(s2, budget - 1);
      assert ps == [p] + rest;
      HighestSentCons(p, rest);
      if s2.una + s2.ahead < |s2.stream| && k < 9 {
        FullWindow(s2, budget - 1, k + 1, rest);
      } else {
        AtMostFin(s2, budget - 1);
      }
    }
  }

  /** At the end of the window or of the stream, at most a bare FIN follows. */
  lemma AtMostFin(s: Sender, budget: nat)
    requires s.ahead >= WINDOW || s.una + s.ahead == |s.stream|
    ensures HighestSent(Emitted(s, budget)) <= if s.ahead >= WINDOW then 0 else |s.stream| + 1
  {
    if InWindow(s) && budget != 0 && NextPacket(s).fin {
      HighestSentCons(NextPacket(s), []);
      assert Emitted(s, budget) == [NextPacket(s)] + [];
    }
  }

  /** A retransmission changes the counter, the timer and the log, and logs what it sends. */
  lemma TimerMeaning(s: Sender, r: Round)
    requires Inv(s) && s.syn == Acked && s.deadline != 0
    ensures var m := AfterTimer(s, r);
            && Inv(m)
            && m == s.(ahead := m.ahead, deadline := m.deadline, log := s.log + Sending(s, r))
  {
    var s1 := s.(ahead := 0, deadline := 0);
    RetransmitKeeps(s, r.fired, r.budget);
    TransmitLoopFrame(s1, r.budget);
    EmittedIsLogged(s1, r.budget);
  }

  // ------------------------------------------------------------------ one round

  /** A lossless round finishes the stream or shortens the queue by a whole window. */
  lemma RoundProgress(s: Sender, r: Round)
    requires Inv(s) && s.syn == Acked && s.fin == Sent && Lossless(s, r)
    ensures var t := AfterRound(s, r);
            && Inv(t) && t.syn == Acked && t.fin != Idle && t.stream == s.stream && t.una == r.position
            && AfterTimer(s, r).log <= t.log
            && Outstanding(t) < Outstanding(s)
            && (t.fin == Sent ==> |Queue(t)| + WINDOW <= |Queue(s)| && |Queue(s)| > WINDOW)
  {
    var m := AfterTimer(s, r);
    TimerMeaning(s, r);
    FullWindow(s.(ahead := 0, deadline := 0), r.budget, 0, Sending(s, r));
    SettleKeeps(m, r.position, r.acked);
    TransmitKeeps(Settle(m, r.position, r.acked), r.more);
  }

  /** As long as the FIN is not acknowledged, a lossless round is possible. */
  lemma RoundAvailable(s: Sender, fired: nat, acked: nat, more: nat) returns (r: Round)
    requires Inv(s) && s.syn == Acked && s.fin == Sent
    ensures Lossless(s, r) && r.fired == fired && r.acked == acked && r.more == more
  {
    var ps := Emitted(s.(ahead := 0, deadline := 0), LOSSLESS);
    r := Round(fired, LOSSLESS, HighestSent(ps), acked, more);
    FullWindow(s.(ahead := 0, deadline := 0), LOSSLESS, 0, ps);
    TimerMeaning(s, r);
    HighestSentConcat(s.log, ps);
  }

  // ---------------------------------------------------------------- all rounds

  lemma RoundsNeededStep(remaining: nat, left: nat)
    requires left + WINDOW <= remaining && remaining > WINDOW
    ensures RoundsNeeded(left) < RoundsNeeded(remaining)
  {
  }

  /**
    Once the SYN is acknowledged and the FIN requested, every sequence of lossless rounds
    has at most max(1, ceil(remaining / 14600)) of them; while it is shorter the FIN may
    still be out, and as soon as it is acknowledged the buffer is empty and the timer off.
   */
  lemma {:induction false} BoundedCompletion(s: Sender, rs: seq<Round>)
    requires Inv(s) && s.syn == Acked && s.fin == Sent && AllLossless(s, rs)
    ensures |rs| <= RoundsNeeded(|Queue(s)|)
    ensures var t := Rounds(s, rs);
            && t.fin != Idle && t.stream == s.stream
            && (t.fin == Acked ==> Queue(t) == [] && t.deadline == 0)
            && (t.fin == Sent ==> |rs| < RoundsNeeded(|Queue(s)|))
    decreases |rs|
  {
    if rs != [] {
      RoundProgress(s, rs[0]);
      var t := AfterRound(s, rs[0]);
      if t.fin == Sent {
        BoundedCompletion(t, rs[1..]);
        RoundsNeededStep(|Queue(s)|, |Queue(t)|);
      } else {
        assert t.deadline == 0 && rs[1..] == [];
      }
    }
  }

  /** And such rounds there are: from every state one can go on, within the bound, until all is acknowledged. */
  lemma {:induction false} CompletesInTime(s: Sender, fired: nat, acked: nat, more: nat) returns (rs: seq<Round>)
    requires Inv(s) && s.syn == Acked && s.fin == Sent
    ensures AllLossless(s, rs) && |rs| <= RoundsNeeded(|Queue(s)|)
    ensures Rounds(s, rs).fin == Acked && Queue(Rounds(s, rs)) == []
    decreases Outstanding(s)
  {
    var r := RoundAvailable(s, fired, acked, more);
    RoundProgress(s, r);
    var t := AfterRound(s, r);
    rs := [];
    if t.fin == Sent {
      rs := CompletesInTime(t, fired, acked, more);
      RoundsNeededStep(|Queue(s)|, |Queue(t)|);
    }
    RoundsCons(s, r, rs);
    rs := [r] + rs;
  }

  lemma RoundsCons(s: Sender, r: Round, rs: seq<Round>)
    requires Lossless(s, r) && AllLossless(AfterRound(s, r), rs)
    ensures AllLossless(s, [r] + rs) && Rounds(s, [r] + rs) == Rounds(AfterRound(s, r), rs)
  {
    assert ([r] + rs)[1..] == rs;
  }
}
