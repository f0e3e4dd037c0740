/**
  Sender and receiver together: a transfer finishes within a bounded number of
  timer periods in which the network loses nothing.
 */
module Transfer {
  import opened Machine
  import opened Modular
  import opened Segments
  import opened SenderModel
  import opened SenderInvariant
  import opened SenderTheorems
  import opened Completion
  import opened Delivery

  /**
    One timer period: the timer fires, old segments may still arrive (`stray`), all
    segments of this retransmission arrive in order, and the receiver's
    acknowledgement number reaches the sender.
   */
  datatype Exchange = Exchange(fired: nat, budget: nat, stray: seq<Segment>, acked: nat, more: nat)

  /** Nothing acknowledged that was not received, nothing received that was not sent. */
  ghost predicate Synced(s: Sender, c: Connection, r: Receiver) {
    && Inv(s) && s.syn == Acked && s.fin != Idle && Short(s) && Consistent(r, c, s)
    && s.una <= Position(r) <= HighestSent(s.log)
  }

  function AsRound(e: Exchange, position: nat): Round {
    Round(e.fired, e.budget, position, e.acked, e.more)
  }

  function ReceiverAfter(s: Sender, c: Connection, r: Receiver, e: Exchange): Receiver {
    Deliver(Deliver(r, e.stray), AllOnWire(c, Sending(s, AsRound(e, 0))))
  }

  /** The sender reads the receiver's 32-bit acknowledgement number. */
  function RoundOf(s: Sender, c: Connection, r: Receiver, e: Exchange): Round {
    AsRound(e, AckPosition(c, s.una, Expected(ReceiverAfter(s, c, r, e))))
  }

  function SenderAfter(s: Sender, c: Connection, r: Receiver, e: Exchange): Sender {
    AfterRound(s, RoundOf(s, c, r, e))
  }

  ghost predicate Possible(s: Sender, c: Connection, e: Exchange) {
    && s.fin == Sent && e.budget >= LOSSLESS
    && (forall g :: g in e.stray ==> g in AllOnWire(c, s.log))
  }

  ghost predicate AllPossible(s: Sender, c: Connection, r: Receiver, es: seq<Exchange>)
    decreases |es|
  {
    es == [] ||
    (Possible(s, c, es[0]) && AllPossible(SenderAfter(s, c, r, es[0]), c, ReceiverAfter(s, c, r, es[0]), es[1..]))
  }

  function Transferred(s: Sender, c: Connection, r: Receiver, es: seq<Exchange>): (Sender, Receiver)
    decreases |es|
  {
    if es == [] then (s, r)
    else Transferred(SenderAfter(s, c, r, es[0]), c, ReceiverAfter(s, c, r, es[0]), es[1..])
  }

  /** A tiling that starts at or before the receiver's position is received to its end. */
  lemma {:induction false} TilingReceived(r: Receiver, c: Connection, ps: seq<Packet>, from: nat, s: Sender, w: Sender)
    requires Short(s) && Consistent(r, c, s) && AllTruthful(s)
    requires forall p :: p in ps ==> p in s.log
    requires Tiling(ps, from, w) && from <= Position(r)
    ensures Consistent(Deliver(r, AllOnWire(c, ps)), c, s)
    ensures Position(Deliver(r, AllOnWire(c, ps))) == Max(Position(r), HighestSent(ps))
    decreases |ps|
  {
    if ps != [] {
      var p := ps[0];
      assert p in s.log;
      ReceiveMeaning(r, c, p, s);
      assert AllOnWire(c, ps)[1..] == AllOnWire(c, ps[1..]);
      TilingReceived(Receive(r, OnWire(c, p)), c, ps[1..], from + |p.data|, s, w);
      assert ps == [p] + ps[1..];
      HighestSentCons(p, ps[1..]);
    }
  }

  /** All segments of a retransmission arrive: the receiver is at least where they end. */
  lemma ReceiverCatchesUp(s: Sender, c: Connection, r: Receiver, e: Exchange, m: Sender)
    requires Synced(s, c, r) && Possible(s, c, e) && m == AfterTimer(s, AsRound(e, 0))
    ensures var q := ReceiverAfter(s, c, r, e);
            && Consistent(q, c, s)
            && HighestSent(Sending(s, AsRound(e, 0))) <= Position(q)
            && s.una <= Position(q) <= HighestSent(m.log)
  {
    var s1 := s.(ahead := 0, deadline := 0);
    var ps := Emitted(s1, e.budget);
    TimerMeaning(s, AsRound(e, 0));
    TransmitTiles(s1, e.budget, s1, ps);
    HighestSentConcat(s.log, ps);
    DeliverKeeps(r, c, e.stray, s);
    TilingReceived(Deliver(r, e.stray), c, ps, s.una, m, s1);
  }

  /** The sender reads back the position the receiver's number stands for. */
  lemma AckRoundTrip(c: Connection, una: nat, q: Receiver)
    requires q.initial == c.initial && una <= Position(q) < una + U32
    ensures AckPosition(c, una, Expected(q)) == Position(q)
  {
    WrapMinus(c.initial + 1 + una, Position(q) - una);
  }

  /** The receiver's acknowledgement number denotes its position, so the exchange is a lossless round. */
  lemma ExchangeIsLossless(s: Sender, c: Connection, r: Receiver, e: Exchange)
    requires Synced(s, c, r) && Possible(s, c, e)
    ensures var q := ReceiverAfter(s, c, r, e);
            && Lossless(s, RoundOf(s, c, r, e))
            && RoundOf(s, c, r, e).position == Position(q)
            && Consistent(q, c, s)
  {
    var q := ReceiverAfter(s, c, r, e);
    ReceiverCatchesUp(s, c, r, e, AfterTimer(s, AsRound(e, 0)));
    AckRoundTrip(c, s.una, q);
  }

  lemma ExchangeKeepsSynced(s: Sender, c: Connection, r: Receiver, e: Exchange)
    requires Synced(s, c, r) && Possible(s, c, e)
    ensures var t := SenderAfter(s, c, r, e);
            && Synced(t, c, ReceiverAfter(s, c, r, e))
            && t.stream == s.stream
            && (t.fin == Sent ==> |Queue(t)| + WINDOW <= |Queue(s)| && |Queue(s)| > WINDOW)
  {
    var round := RoundOf(s, c, r, e);
    ExchangeIsLossless(s, c, r, e);
    RoundProgress(s, round);
    HighestSentGrows(AfterTimer(s, round).log, SenderAfter(s, c, r, e).log);
  }

  /**
    From any state in which the FIN is requested, whatever was lost before, at most
    max(1, ceil(remaining / 14600)) undisturbed timer periods are possible: after fewer the
    FIN may still be out, and as soon as the sender sees it acknowledged the receiver holds
    the whole stream and its end.
   */
  lemma {:induction false} ReliableTransfer(s: Sender, c: Connection, r: Receiver, es: seq<Exchange>)
    requires Synced(s, c, r) && s.fin == Sent && AllPossible(s, c, r, es)
    ensures |es| <= RoundsNeeded(|Queue(s)|)
    ensures var (t, q) := Transferred(s, c, r, es);
            && t.fin != Idle && t.stream == s.stream
            && (t.fin == Acked ==> t.deadline == 0 && q.closed && q.received == s.stream)
            && (t.fin == Sent ==> |es| < RoundsNeeded(|Queue(s)|))
    decreases |es|
  {
    if es != [] {
      ExchangeKeepsSynced(s, c, r, es[0]);
      var t := SenderAfter(s, c, r, es[0]);
      if t.fin == Sent {
        ReliableTransfer(t, c, ReceiverAfter(s, c, r, es[0]), es[1..]);
        RoundsNeededStep(|Queue(s)|, |Queue(t)|);
      } else {
        assert es[1..] == [];
      }
    }
  }

  lemma TransferredCons(s: Sender, c: Connection, r: Receiver, e: Exchange, es: seq<Exchange>)
    requires Possible(s, c, e)
    requires AllPossible(SenderAfter(s, c, r, e), c, ReceiverAfter(s, c, r, e), es)
    ensures AllPossible(s, c, r, [e] + es)
    ensures Transferred(s, c, r, [e] + es) ==
            Transferred(SenderAfter(s, c, r, e), c, ReceiverAfter(s, c, r, e), es)
  {
    assert ([e] + es)[1..] == es;
  }

  /** Such periods there are: from every such state one can go on, within the bound, until all is delivered. */
  lemma {:induction false} TransferCompletes(s: Sender, c: Connection, r: Receiver, now: nat)
    returns (es: seq<Exchange>)
    requires Synced(s, c, r) && s.fin == Sent
    ensures AllPossible(s, c, r, es) && |es| <= RoundsNeeded(|Queue(s)|)
    ensures var (t, q) := Transferred(s, c, r, es); t.fin == Acked && q.closed && q.received == s.stream
    decreases |Queue(s)|
  {
    var e := Exchange(now, LOSSLESS, [], now, 0);
    ExchangeKeepsSynced(s, c, r, e);
    var t, q := SenderAfter(s, c, r, e), ReceiverAfter(s, c, r, e);
    es := [];
    if t.fin == Sent {
      es := TransferCompletes(t, c, q, now);
      RoundsNeededStep(|Queue(s)|, |Queue(t)|);
    }
    TransferredCons(s, c, r, e, es);
    es := [e] + es;
  }
}
