/**
  What every run of the sender means for the machine numbers that represent it: the zones
  of the 64-bit counter, and the order test of `acknowledge` with the runs that fail it.
 */
module SenderNumbers {
  import opened Machine
  import opened Modular
  import opened SequenceOrder
  import opened SenderModel
  import opened SenderInvariant
  import opened SenderTheorems
  import opened SenderFields
  import opened Segments

  /**
    The signed in-flight counter is at most the queued data and at least -16060.  So the
    64-bit counter is at most the queued data or within 16060 of 2^64, and the unsigned
    loop test of `transmit` holds exactly inside the window: no read passes the queue.
   */
  lemma TwoZoneCounter(c: Connection, s: Sender)
    requires Reachable(s)
    ensures -REACH <= s.ahead < REACH
    ensures s.ahead >= 0 ==> s.ahead <= |Queue(s)|
    ensures var f := FieldsOf(c, s);
            && (f.flight <= |f.queue| || f.flight >= U64 - REACH)
            && (f.flight < WINDOW <==> InWindow(s))
  {
    ReachableInv(s);
  }

  /**
    The subtraction of line 87 goes below zero exactly when an acknowledgement passes the
    counter's position: it covers the FIN, or more than was sent again since the timeout.
   */
  lemma BelowZeroIff(c: Connection, s: Sender, position: nat, now: nat)
    requires Inv(s) && s.syn != Idle && s.una <= position <= HighestSent(s.log)
    ensures InRange(Settle(s, position, now))
    ensures FieldsOf(c, Settle(s, position, now)).flight >= U64 - REACH <==> position > s.una + s.ahead
  {
    SettleKeeps(s, position, now);
  }

  /** A run in which it does: the acknowledgement of one byte and the FIN leaves 2^64 - 1. */
  lemma BelowZero(c: Connection) returns (s: Sender)
    ensures Reachable(s) && InRange(s) && FieldsOf(c, s).flight == U64 - 1
  {
    var m := FinTwice();
    var log := [Syn(false, 0), Data(0, 0, true, [7])];
    assert m.log == log + [Data(1, 0, true, [])];
    HighestSentAppend(log, Data(1, 0, true, []));
    s := Acknowledge(m, 2, 0, 0);
    ReachableStep(m, DoAcknowledge(2, 0, 0));
  }

  /**
    The wrapped counter keeps a closed connection quiet: were it zero, the next
    acknowledgement, one that acknowledges nothing new, would arm the timer again.
   */
  lemma WrapIsNeeded(s: Sender, now: nat, budget: nat)
    requires Reachable(s) && s.fin == Acked
    ensures Acknowledge(s, s.una, now, budget).deadline == 0
    ensures Acknowledge(s.(ahead := 0), s.una, now, budget).deadline == now + SECOND
  {
    ReachableInv(s);
  }

  // -------------------------------------------------------------- next and SND.NXT

  lemma NumberDistance(c: Connection, x: nat, d: nat)
    requires d < U32
    ensures Minus(Number(c, x + d), Number(c, x)) == d
  {
    WrapMinus(c.initial + 1 + x, d);
  }

  /** How far `next` is past SND.NXT: by what is queued and was never sent. */
  lemma NextAgainstSent(c: Connection, s: Sender)
    requires Inv(s) && s.syn != Idle
    ensures var next, sent := FieldsOf(c, s).next, Number(c, HighestSent(s.log));
            && Minus(next, sent) == |s.stream| + FinBit(s) - HighestSent(s.log)
            && (next == sent <==> HighestSent(s.log) == |s.stream| + FinBit(s))
  {
    NumberDistance(c, HighestSent(s.log), |s.stream| + FinBit(s) - HighestSent(s.log));
  }

  /** A run in which they differ: one byte queued, its send refused. */
  lemma NextIsNotSent(c: Connection) returns (s: Sender)
    ensures Reachable(s) && InRange(s) && Minus(FieldsOf(c, s).next, Number(c, HighestSent(s.log))) == 2
  {
    s := JustConnected();
    s := ByteAndFin(s);
    ReachableInv(s);
    HighestSentAppend([], Syn(false, 0));
    assert [] + [Syn(false, 0)] == s.log;
    NextAgainstSent(c, s);
  }

  // ------------------------------------------------------------- the order test

  lemma FirstLap(x: nat, y: nat)
    requires x <= y < U32
    ensures x / U32 == y / U32
  {
  }

  lemma OrderOfAck(c: Connection, una: nat, position: nat)
    requires una <= position < una + U32
    ensures GreaterOrEqual(c.initial, Number(c, position), Number(c, una))
            <==> (1 + una) / U32 == (1 + position) / U32
  {
    OrderWithinLap(c.initial, 1 + una, position - una);
  }

  /**
    The order test of line 84 is relative to the fixed `initial`: a valid
    acknowledgement passes it exactly when no multiple of 2^32 lies on its way.
   */
  lemma AckOrderCheck(c: Connection, s: Sender, ack: u32, position: nat)
    requires Inv(s) && s.syn == Acked
    requires position == AckPosition(c, s.una, ack) && position <= HighestSent(s.log)
    ensures GreaterOrEqual(c.initial, ack, FieldsOf(c, s).unack) <==> (1 + s.una) / U32 == (1 + position) / U32
    ensures |s.stream| < U32 - 2 ==> GreaterOrEqual(c.initial, ack, FieldsOf(c, s).unack)
  {
    AckNumbers(c, s, ack, position);
    OrderOfAck(c, s.una, position);
    if |s.stream| < U32 - 2 { FirstLap(1 + s.una, 1 + position); }
  }

  /** A connection on which n bytes have been sent and acknowledged, one after the other. */
  ghost predicate AllAcknowledged(s: Sender, n: nat) {
    && Reachable(s) && s.syn == Acked && s.fin == Idle
    && |s.stream| == s.una == n && s.ahead == 0
  }

  lemma ByteSent(s: Sender, n: nat)
    requires s.syn == Acked && |s.stream| == s.una == n && s.ahead == 0 && s.fin == Idle
    ensures var t := SendData(s, [0], 1);
            && t.syn == Acked && t.fin == Idle && |t.stream| == n + 1 && t.una == n && t.ahead == 1
            && HighestSent(t.log) >= n + 1
  {
    var s1 := s.(stream := s.stream + [0]);
    var p := NextPacket(s1);
    assert [0][..Accepted(s, [0])] == [0];
    assert |p.data| == 1 && !p.fin;
    HighestSentAppend(s.log, p);
    var s2 := Turn(s1, true);
    assert TransmitLoop(s1, 1) == TransmitLoop(s2, 0) == s2;
  }

  /** After one byte more, still unacknowledged. */
  lemma OneByteOut(s: Sender, n: nat) returns (t: Sender)
    requires AllAcknowledged(s, n)
    ensures Reachable(t) && t.syn == Acked && t.fin == Idle
    ensures |t.stream| == n + 1 && t.una == n && t.ahead == 1 && HighestSent(t.log) >= n + 1
  {
    ByteSent(s, n);
    t := SendData(s, [0], 1);
    ReachableStep(s, DoSendData([0], 1));
  }

  lemma OneByteMore(s: Sender, n: nat) returns (t: Sender)
    requires AllAcknowledged(s, n)
    ensures AllAcknowledged(t, n + 1)
  {
    var m := OneByteOut(s, n);
    t := Acknowledge(m, n + 1, 0, 0);
    ReachableStep(m, DoAcknowledge(n + 1, 0, 0));
  }

  /** Streams of every length are sent and acknowledged in some run. */
  lemma {:induction false} AnyLength(n: nat) returns (s: Sender)
    ensures AllAcknowledged(s, n)
  {
    if n == 0 {
      s := JustConnected();
    } else {
      var t := AnyLength(n - 1);
      s := OneByteMore(t, n - 1);
    }
  }

  /**
    On every connection some run fails the test: with 2^32 - 2 bytes acknowledged, the next
    byte sent and its acknowledgement received, which is valid.
   */
  lemma AckOrderFails(c: Connection) returns (s: Sender, ack: u32)
    ensures Reachable(s) && InRange(s) && s.syn == Acked && s.una == U32 - 2
    ensures AckPosition(c, s.una, ack) == s.una + 1 <= HighestSent(s.log)
    ensures !GreaterOrEqual(c.initial, ack, FieldsOf(c, s).unack)
  {
    var t := AnyLength(U32 - 2);
    s := OneByteOut(t, U32 - 2);
    ack := Number(c, s.una + 1);
    NumberAdd(c, s.una, 1);
    ReachableInv(s);
    AckOrderCheck(c, s, ack, s.una + 1);
  }
}
