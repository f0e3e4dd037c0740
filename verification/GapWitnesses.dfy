/**
  Runs of the sender over the ring buffer as written that meet the gap: they lose any
  number of bytes, and with 2^32 of them lost `next` has come around.
 */
module GapWitnesses {
  import opened Machine
  import opened Modular
  import opened SenderModel
  import opened SenderInvariant
  import opened SenderNumbers
  import opened Segments
  import opened GapRuns

  /** A run from the start ends in g. */
  ghost predicate Reached(c: Connection, now: nat, data: seq<byte>, g: Written) {
    exists events: seq<Event> ::
      LegalAsWritten(c, Start(now, data), events) && g == RunAsWritten(c, Start(now, data), events)
  }

  lemma {:induction false} RunAsWrittenAppend(c: Connection, g: Written, events: seq<Event>, e: Event)
    requires LegalAsWritten(c, g, events)
    requires var r := RunAsWritten(c, g, events); r.ring.Valid() && Enabled(r.s, e)
    ensures LegalAsWritten(c, g, events + [e])
    ensures RunAsWritten(c, g, events + [e]) == StepAsWritten(c, RunAsWritten(c, g, events), e)
    decreases |events|
  {
    if events == [] {
      assert [e][1..] == [];
    } else {
      assert (events + [e])[1..] == events[1..] + [e];
      RunAsWrittenAppend(c, StepAsWritten(c, g, events[0]), events[1..], e);
    }
  }

  lemma ReachedStep(c: Connection, now: nat, data: seq<byte>, g: Written, e: Event)
    requires Reached(c, now, data, g) && g.ring.Valid() && Enabled(g.s, e)
    ensures Reached(c, now, data, StepAsWritten(c, g, e))
  {
    var events: seq<Event> :|
      LegalAsWritten(c, Start(now, data), events) && g == RunAsWritten(c, Start(now, data), events);
    RunAsWrittenAppend(c, Start(now, data), events, e);
  }

  /** n bytes have been sent and acknowledged, one after the other, and the buffer is empty. */
  ghost predicate Drained(g: Written, n: nat) {
    && Whole(g) && g.lost == 0 && g.s.syn == Acked && g.s.fin == Idle
    && |g.s.stream| == g.s.una == n && g.s.ahead == 0 && g.ring.begin == g.ring.end == n < CAPACITY
  }

  lemma ReachStart(c: Connection, now: nat, data: seq<byte>)
    requires |data| == CAPACITY
    ensures Reached(c, now, data, Start(now, data)) && Whole(Start(now, data))
  {
    var g := Start(now, data);
    assert LegalAsWritten(c, g, []) && g == RunAsWritten(c, g, []);
  }

  lemma ReachSyn(c: Connection, now: nat, data: seq<byte>) returns (g: Written)
    requires |data| == CAPACITY
    ensures Reached(c, now, data, g) && Whole(g)
    ensures g == Start(now, data).(s := Init(now).(syn := Sent, log := [Syn(false, 0)]))
  {
    var g0, syn := Start(now, data), DoSendSyn(1);
    ReachStart(c, now, data);
    StepAsWrittenKeeps(c, g0, syn);
    ReachedStep(c, now, data, g0, syn);
    g := StepAsWritten(c, g0, syn);
  }

  lemma ReachConnected(c: Connection, now: nat, data: seq<byte>) returns (g: Written)
    requires |data| == CAPACITY
    ensures Reached(c, now, data, g) && Drained(g, 0)
  {
    var ack := DoAcknowledge(0, 0, 0);
    var m := ReachSyn(c, now, data);
    StepAsWrittenKeeps(c, m, ack);
    ReachedStep(c, now, data, m, ack);
    g := StepAsWritten(c, m, ack);
  }

  /** One more byte is sent. */
  lemma ReachByteOut(c: Connection, now: nat, data: seq<byte>, g: Written, n: nat) returns (t: Written)
    requires Reached(c, now, data, g) && Drained(g, n)
    ensures Reached(c, now, data, t) && Whole(t) && t.lost == 0
    ensures t.s.syn == Acked && t.s.fin == Idle && |t.s.stream| == n + 1 && t.s.una == n && t.s.ahead == 1
    ensures HighestSent(t.s.log) >= n + 1 && t.ring.begin == n && t.ring.end == n + 1
  {
    var e := DoSendData([0], 1);
    StepAsWrittenKeeps(c, g, e);
    ReachedStep(c, now, data, g, e);
    ByteSent(g.s, n);
    t := StepAsWritten(c, g, e);
  }

  lemma ReachByteAcked(c: Connection, now: nat, data: seq<byte>, g: Written, n: nat) returns (t: Written)
    requires Reached(c, now, data, g) && Drained(g, n) && n + 1 < CAPACITY
    ensures Reached(c, now, data, t) && Drained(t, n + 1)
  {
    var m := ReachByteOut(c, now, data, g, n);
    var e := DoAcknowledge(n + 1, 0, 0);
    StepAsWrittenKeeps(c, m, e);
    ReachedStep(c, now, data, m, e);
    t := StepAsWritten(c, m, e);
  }

  lemma {:induction false} ReachDrained(c: Connection, now: nat, data: seq<byte>, n: nat) returns (g: Written)
    requires |data| == CAPACITY && n < CAPACITY
    ensures Reached(c, now, data, g) && Drained(g, n)
  {
    if n == 0 {
      g := ReachConnected(c, now, data);
    } else {
      var m := ReachDrained(c, now, data, n - 1);
      g := ReachByteAcked(c, now, data, m, n - 1);
    }
  }

  /** One byte waits in the last slot of the array: every further write is lost, n bytes so far. */
  ghost predicate Stuck(g: Written, n: nat) {
    && g.ring.Valid() && g.ring.Size() == CAPACITY && g.ring.begin == CAPACITY - 1 && g.ring.end == CAPACITY
    && g.s.syn == Acked && g.s.fin == Idle && g.s.una == CAPACITY - 1 && |g.s.stream| == CAPACITY && g.s.ahead == 1
    && g.lost == n && g.s.deadline != 0
  }

  lemma StuckStep(c: Connection, g: Written, n: nat)
    requires Stuck(g, n)
    ensures Stuck(StepAsWritten(c, g, DoSendData([0], 0)), n + 1)
  {
    RingStuck(g.ring, [0]);
    assert g.s.stream + [] == g.s.stream;
    assert LoopAsWritten(c, g.s, n + 1, 0) == g.s;
  }

  /** Runs of the sender meet the gap, and lose as many bytes as the application cares to write. */
  lemma {:induction false} ReachStuck(c: Connection, now: nat, data: seq<byte>, n: nat) returns (g: Written)
    requires |data| == CAPACITY
    ensures Reached(c, now, data, g) && Stuck(g, n)
  {
    if n == 0 {
      var m := ReachDrained(c, now, data, CAPACITY - 1);
      g := ReachByteOut(c, now, data, m, CAPACITY - 1);
    } else {
      var m := ReachStuck(c, now, data, n - 1);
      StuckStep(c, m, n - 1);
      ReachedStep(c, now, data, m, DoSendData([0], 0));
      g := StepAsWritten(c, m, DoSendData([0], 0));
    }
  }

  /** Some run meets the gap and loses any given number of bytes. */
  lemma GapIsMet(c: Connection, now: nat, data: seq<byte>, n: nat) returns (events: seq<Event>)
    requires |data| == CAPACITY && n > 0
    ensures LegalAsWritten(c, Start(now, data), events) && MeetsWriteGap(c, Start(now, data), events)
    ensures RunAsWritten(c, Start(now, data), events).lost == n
  {
    var g := ReachStuck(c, now, data, n);
    events :| LegalAsWritten(c, Start(now, data), events) && g == RunAsWritten(c, Start(now, data), events);
    GapOrModel(c, now, data, events);
  }

  // -------------------------------------------------- where `next` comes around

  /** For any number of lost bytes: which positions the FIN tests take for the end of the stream. */
  lemma FinTestIff(c: Connection, s: Sender, lost: nat, position: nat)
    requires s.fin != Idle && position <= |s.stream| + 1
    ensures Number(c, position) == NextNumber(c, s, lost) <==> (|s.stream| + 1 - position + lost) % U32 == 0
  {
    var x, d := c.initial + 1 + position, |s.stream| + 1 - position + lost;
    WrapMinus(x, d);
    assert NextNumber(c, s, lost) == Wrap(x + d);
  }

  lemma FinGoesOut(c: Connection, g: Written)
    requires g.ring.Valid() && g.s.syn == Acked && g.s.fin == Sent && g.s.deadline != 0 && g.lost == U32
    requires g.s.una == CAPACITY - 1 && |g.s.stream| == CAPACITY
    ensures var t := StepAsWritten(c, g, DoTimer(0, 1)).s;
            && t.syn == Acked && t.fin == Sent && t.una == g.s.una && t.stream == g.s.stream
            && HighestSent(t.log) >= CAPACITY + 1
  {
    var s := g.s.(ahead := 0, deadline := 0);
    var p := PacketAsWritten(c, s, U32);
    FinTestIff(c, s, U32, CAPACITY + 1);
    assert p.fin && |p.data| == 1;
    HighestSentAppend(s.log, p);
    var s1 := TurnAsWritten(c, s, U32, true);
    assert LoopAsWritten(c, s, U32, 1) == LoopAsWritten(c, s1, U32, 0) == s1;
  }

  lemma FinIsAcked(c: Connection, g: Written)
    requires g.ring.Valid() && g.s.syn == Acked && g.s.fin == Sent && g.lost == U32
    requires g.s.una == CAPACITY - 1 && |g.s.stream| == CAPACITY && HighestSent(g.s.log) >= CAPACITY + 1
    ensures var t := StepAsWritten(c, g, DoAcknowledge(CAPACITY + 1, 0, 0)).s; t.fin == Acked
  {
    FinTestIff(c, g.s, U32, CAPACITY + 1);
    TransmitAsWrittenFrame(c, SettleAsWritten(c, g.s, U32, CAPACITY + 1, 0), U32, 0);
  }

  /** With 2^32 bytes lost the FIN tests are right again: some run closes as if nothing were missing. */
  lemma ClosesWithoutThem(c: Connection, now: nat, data: seq<byte>) returns (g: Written)
    requires |data| == CAPACITY
    ensures Reached(c, now, data, g) && g.lost == U32 && g.s.fin == Acked
  {
    var m := ReachStuck(c, now, data, U32);
    ReachedStep(c, now, data, m, DoSendFin(0));
    m := StepAsWritten(c, m, DoSendFin(0));
    FinGoesOut(c, m);
    ReachedStep(c, now, data, m, DoTimer(0, 1));
    m := StepAsWritten(c, m, DoTimer(0, 1));
    FinIsAcked(c, m);
    ReachedStep(c, now, data, m, DoAcknowledge(CAPACITY + 1, 0, 0));
    g := StepAsWritten(c, m, DoAcknowledge(CAPACITY + 1, 0, 0));
  }
}
