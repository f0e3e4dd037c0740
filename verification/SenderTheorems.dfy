/**
  What every run of the sender guarantees: arbitrary send failures, arbitrary
  interleaving, acknowledgements of anything sent, streams of any length.
 */
module SenderTheorems {
  import opened Machine
  import opened SenderModel
  import opened SenderInvariant
  import opened Deadline

  ghost predicate Reachable(s: Sender) {
    exists now: nat, events: seq<Event> :: Legal(Init(now), events) && s == Run(Init(now), events)
  }

  lemma {:induction false} RunKeeps(s: Sender, events: seq<Event>)
    requires Inv(s) && Legal(s, events)
    ensures Inv(Run(s, events))
    decreases |events|
  {
    if events != [] {
      StepKeeps(s, events[0]);
      RunKeeps(Step(s, events[0]), events[1..]);
    }
  }

  lemma ReachableInv(s: Sender)
    requires Reachable(s)
    ensures Inv(s)
  {
    var now: nat, events: seq<Event> :| Legal(Init(now), events) && s == Run(Init(now), events);
    RunKeeps(Init(now), events);
  }

  lemma {:induction false} RunAppend(s: Sender, events: seq<Event>, e: Event)
    requires Legal(s, events) && Enabled(Run(s, events), e)
    ensures Legal(s, events + [e]) && Run(s, events + [e]) == Step(Run(s, events), e)
    decreases |events|
  {
    if events == [] {
      assert [e][1..] == [];
    } else {
      assert (events + [e])[1..] == events[1..] + [e];
      RunAppend(Step(s, events[0]), events[1..], e);
    }
  }

  lemma ReachableStep(s: Sender, e: Event)
    requires Reachable(s) && Enabled(s, e)
    ensures Reachable(Step(s, e))
  {
    var now: nat, events: seq<Event> :| Legal(Init(now), events) && s == Run(Init(now), events);
    RunAppend(Init(now), events, e);
  }

  // ------------------------------------------------------ segments and counter

  /**
    Every data packet carries the accepted stream's bytes at its own position, at most
    1460 of them, none of them 16060 or more past the acknowledged position; it carries
    a FIN only at the end of the stream, and only a FIN may travel without data.
   */
  lemma TruthfulSegments(s: Sender, p: Packet)
    requires Reachable(s) && p in s.log && p.Data?
    ensures p.offset + |p.data| <= |s.stream| && p.data == s.stream[p.offset..p.offset + |p.data|]
    ensures |p.data| <= MSS
    ensures p.data != [] ==> p.offset + |p.data| - 1 <= s.una + WINDOW + MSS - 2
    ensures p.fin ==> s.fin != Idle && p.offset + |p.data| == |s.stream|
    ensures p.data == [] ==> p.fin
  {
    ReachableInv(s);
    assert Truthful(p, s);
  }

  lemma {:induction false} LoopStaysInFirstZone(s: Sender, budget: nat)
    requires 0 <= s.ahead < REACH && s.una + s.ahead <= |s.stream|
    ensures var r := TransmitLoop(s, budget);
            s.ahead <= r.ahead < REACH && s.una + r.ahead <= |s.stream|
    decreases WINDOW - s.ahead
  {
    if InWindow(s) && budget != 0 && NextPacket(s).data != [] {
      LoopStaysInFirstZone(Turn(s, true), budget - 1);
    }
  }

  /** A retransmission always brings the counter back to the first zone. */
  lemma RetransmitRestoresFirstZone(s: Sender, now: nat, budget: nat)
    requires Reachable(s) && s.deadline != 0
    ensures var r := Retransmit(s, now, budget); 0 <= r.ahead <= |Queue(r)|
  {
    ReachableInv(s);
    if s.syn == Acked {
      LoopStaysInFirstZone(s.(ahead := 0, deadline := 0), budget);
      TransmitLoopFrame(s.(ahead := 0, deadline := 0), budget);
    }
  }

  // ---------------------------------------------------------------- the timer

  /** Between handlers the alarm is set exactly while the FIN is not acknowledged. */
  lemma TimerArmed(s: Sender)
    requires Reachable(s)
    ensures s.deadline != 0 <==> s.fin != Acked
  {
    ReachableInv(s);
  }

  /**
    Once the FIN is acknowledged, no acknowledgement re-arms the timer, nothing is sent
    again and nothing changes but the receiving half.  The counter is negative then;
    were it zero, the next acknowledgement would re-arm the timer.
   */
  lemma {:induction false} ClosedForever(s: Sender, events: seq<Event>)
    requires Inv(s) && s.fin == Acked && Legal(s, events)
    ensures var r := Run(s, events);
            r == s.(rcvNext := r.rcvNext, synReceived := r.synReceived) && r.deadline == 0 && r.ahead < 0
    decreases |events|
  {
    if events != [] {
      StepKeeps(s, events[0]);
      ClosedForever(Step(s, events[0]), events[1..]);
    }
  }

  // ------------------------------------------------------------ acknowledgements

  /**
    After an acknowledgement the buffer is the stream's suffix from there; the FIN is
    acknowledged exactly by an acknowledgement of the whole sequence space, and then the
    buffer is empty, the timer is off and nothing is sent.  Otherwise the timer restarts
    at one second, to within its granularity, exactly when nothing is left in flight.
   */
  lemma AcknowledgeMeaning(s: Sender, position: nat, now: nat, budget: nat)
    requires Reachable(s) && s.syn != Idle && s.una <= position <= HighestSent(s.log)
    ensures var r := Acknowledge(s, position, now, budget);
            && r.una == position && r.stream == s.stream && r.syn == Acked
            && Queue(r) == s.stream[Min(position, |s.stream|)..]
            && (r.fin == Acked <==> position == |s.stream| + 1)
            && (r.fin == Acked ==> s.fin != Idle && Queue(r) == [] && r.log == s.log && r.deadline == 0)
            && (r.fin != Acked && s.ahead != position - s.una ==> r.deadline == s.deadline)
            && (r.fin != Acked && s.ahead == position - s.una ==>
                  now + SECOND - GRANULARITY < r.deadline < now + SECOND + GRANULARITY)
  {
    ReachableInv(s);
    SettleKeeps(s, position, now);
    TransmitKeeps(Settle(s, position, now), budget);
  }

  // --------------------------------------------------------- windows and tiling

  /** A packet of one `transmit`: full unless it ends the stream, starting inside the window. */
  ghost predicate Tile(p: Packet, s: Sender) {
    && p.Data? && p.ackno == s.rcvNext
    && s.una <= p.offset <= |s.stream| && p.offset < s.una + WINDOW
    && |p.data| == Min(MSS, |s.stream| - p.offset)
    && p.data == s.stream[p.offset..p.offset + |p.data|]
    && (p.fin <==> s.fin == Sent && p.offset + |p.data| == |s.stream|)
    && (p.data == [] ==> p.fin)
  }

  /**
    Packets that cover the stream from one position on without gap or overlap; an
    empty one, which can only carry a FIN, comes last.
   */
  ghost predicate Tiling(ps: seq<Packet>, from: nat, s: Sender)
    decreases |ps|
  {
    ps != [] ==>
      && Tile(ps[0], s) && ps[0].offset == from
      && (ps[0].data == [] ==> |ps| == 1)
      && Tiling(ps[1..], from + |ps[0].data|, s)
  }

  /** Bytes carried by a list of packets. */
  function Payload(ps: seq<Packet>): seq<byte> {
    if ps == [] then []
    else (if ps[0].Data? then ps[0].data else []) + Payload(ps[1..])
  }

  /** A tiling carries exactly the stream from its start to where it ends. */
  lemma {:induction false} TilingCovers(ps: seq<Packet>, from: nat, s: Sender)
    requires Tiling(ps, from, s) && from <= |s.stream|
    ensures from + |Payload(ps)| <= |s.stream|
    ensures Payload(ps) == s.stream[from..from + |Payload(ps)|]
    decreases |ps|
  {
    if ps != [] {
      TilingCovers(ps[1..], from + |ps[0].data|, s);
    }
  }

  /** The packets one `transmit` emits. */
  function Emitted(s: Sender, budget: nat): seq<Packet>
    decreases WINDOW - s.ahead
  {
    if !InWindow(s) || budget == 0 then []
    else
      var p := NextPacket(s);
      if p.data == [] && !p.fin then []
      else if p.data == [] then [p]
      else [p] + Emitted(Emit(s, p), budget - 1)
  }

  lemma {:induction false} EmittedIsLogged(s: Sender, budget: nat)
    ensures TransmitLoop(s, budget).log == s.log + Emitted(s, budget)
    decreases WINDOW - s.ahead
  {
    if InWindow(s) && budget != 0 && NextPacket(s).data != [] {
      var p := NextPacket(s);
      var s2 := Emit(s, p);
      EmittedIsLogged(s2, budget - 1);
      assert s2.log + Emitted(s2, budget - 1) == s.log + ([p] + Emitted(s2, budget - 1));
    }
  }

  /** The packets end with one that carries data and the FIN, and one that carries the FIN alone. */
  predicate EndsWithBareFin(ps: seq<Packet>) {
    var n := |ps|;
    && n >= 2 && ps[n - 2].Data? && ps[n - 2].fin && ps[n - 2].data != []
    && ps[n - 1].Data? && ps[n - 1].fin && ps[n - 1].data == []
  }

  /** Full segments it takes to carry so many bytes. */
  function SegmentsFor(bytes: nat): nat {
    (bytes + MSS - 1) / MSS
  }

  /** At the end of the stream: nothing more but, inside the window, a FIN. */
  lemma EmittedAtEnd(s: Sender, budget: nat)
    requires s.fin == Sent && s.ahead >= 0 && s.una + s.ahead == |s.stream|
    ensures Emitted(s, budget) ==
            if s.ahead < WINDOW && budget > 0 then [Data(|s.stream|, s.rcvNext, true, [])] else []
  {
  }

  /**
    A FIN that travels with the last data is sent once more on its own by the same
    `transmit`, exactly when the stream ends inside the window and a send is left after
    the segments for the data.
   */
  lemma {:induction false} FinTwiceIff(s: Sender, budget: nat)
    requires s.fin == Sent && InWindow(s) && s.una + s.ahead < |s.stream|
    ensures EndsWithBareFin(Emitted(s, budget)) <==>
            |s.stream| < s.una + WINDOW && budget > SegmentsFor(|s.stream| - s.una - s.ahead)
    decreases WINDOW - s.ahead
  {
    var left := |s.stream| - s.una - s.ahead;
    if budget != 0 {
      var p := NextPacket(s);
      var s2 := Emit(s, p);
      var rest := Emitted(s2, budget - 1);
      assert Emitted(s, budget) == [p] + rest;
      if left <= MSS {
        EmittedAtEnd(s2, budget - 1);
        assert SegmentsFor(left) == 1;
      } else {
        assert SegmentsFor(left) == 1 + SegmentsFor(left - MSS);
        if InWindow(s2) {
          FinTwiceIff(s2, budget - 1);
        }
      }
    }
  }

  lemma FinTwicePackets(s: Sender)
    requires s.fin == Sent && s.stream == [7] && s.una == 0 && s.ahead == 0 && s.rcvNext == 0
    ensures Emitted(s, 2) == [Data(0, 0, true, [7]), Data(1, 0, true, [])]
  {
    var p := NextPacket(s);
    EmittedAtEnd(Emit(s, p), 1);
    assert p == Data(0, 0, true, [7]);
  }

  lemma ReachableInit(now: nat)
    ensures Reachable(Init(now))
  {
    assert Legal(Init(now), []) && Init(now) == Run(Init(now), []);
  }

  /** SYN and acknowledgement. */
  lemma JustConnected() returns (s: Sender)
    ensures Reachable(s) && s == Sender(Acked, Idle, [], 0, 0, SECOND, 0, false, [Syn(false, 0)])
  {
    ReachableInit(0);
    var sent := Init(0).(syn := Sent, log := [Syn(false, 0)]);
    assert Step(Init(0), DoSendSyn(1)) == sent;
    ReachableStep(Init(0), DoSendSyn(1));
    s := sent.(syn := Acked);
    HighestSentAppend([], Syn(false, 0));
    assert [] + [Syn(false, 0)] == sent.log;
    assert Step(sent, DoAcknowledge(0, 0, 0)) == s;
    ReachableStep(sent, DoAcknowledge(0, 0, 0));
  }

  /** One byte whose first send is refused, and the FIN. */
  lemma ByteAndFin(s: Sender) returns (t: Sender)
    requires Reachable(s) && s == Sender(Acked, Idle, [], 0, 0, SECOND, 0, false, [Syn(false, 0)])
    ensures Reachable(t) && t == Sender(Acked, Sent, [7], 0, 1, SECOND, 0, false, [Syn(false, 0)])
  {
    var m := s.(stream := [7], ahead := 1);
    assert [7][..Accepted(s, [7])] == [7] && [] + [7] == [7];
    assert TransmitLoop(s.(stream := [7]), 0) == m;
    ReachableStep(s, DoSendData([7], 0));
    t := m.(fin := Sent);
    assert SendFin(m, 0) == t;
    ReachableStep(m, DoSendFin(0));
  }

  /** A run that does: then the timer. */
  lemma FinTwice() returns (s: Sender)
    ensures Reachable(s)
    ensures s == Sender(Acked, Sent, [7], 0, 1, 2 * SECOND, 0, false,
                        [Syn(false, 0), Data(0, 0, true, [7]), Data(1, 0, true, [])])
  {
    var m := JustConnected();
    m := ByteAndFin(m);
    s := Retransmit(m, SECOND, 2);
    ReachableStep(m, DoTimer(SECOND, 2));
    var t := m.(ahead := 0, deadline := 0);
    EmittedIsLogged(t, 2);
    FinTwicePackets(t);
    TransmitLoopFrame(t, 2);
    FinTwiceCounter(t);
  }

  lemma FinTwiceCounter(s: Sender)
    requires s.fin == Sent && s.stream == [7] && s.una == 0 && s.ahead == 0
    ensures TransmitLoop(s, 2).ahead == 1
  {
    var s1 := Turn(s, true);
    assert TransmitLoop(s, 2) == TransmitLoop(s1, 1);
    assert TransmitLoop(s1, 1) == Turn(s1, true);
  }

  lemma TilingCons(p: Packet, rest: seq<Packet>, s: Sender)
    requires Tile(p, s) && (p.data == [] ==> rest == []) && Tiling(rest, p.offset + |p.data|, s)
    ensures Tiling([p] + rest, p.offset, s)
    ensures Payload([p] + rest) == p.data + Payload(rest)
  {
    assert ([p] + rest)[1..] == rest;
  }

  lemma NextIsTile(s: Sender, w: Sender)
    requires InWindow(s) && w == s.(ahead := w.ahead, log := w.log)
    ensures var p := NextPacket(s);
            && p.offset == s.una + s.ahead && |p.data| == Min(MSS, |s.stream| - p.offset)
            && (p.data != [] || p.fin ==> Tile(p, w))
  {
  }

  lemma TilesFirst(s: Sender, budget: nat, w: Sender, p: Packet, rest: seq<Packet>)
    requires InWindow(s) && budget > 0 && w == s.(ahead := w.ahead, log := w.log)
    requires p == NextPacket(s) && p.data != [] && |rest| < budget
    requires Tiling(rest, s.una + s.ahead + |p.data|, w)
    ensures Tiling([p] + rest, s.una + s.ahead, w) && |[p] + rest| <= budget
    ensures |Payload([p] + rest)| == |p.data| + |Payload(rest)|
  {
    NextIsTile(s, w);
    TilingCons(p, rest, w);
  }

  lemma BareFinTiles(s: Sender, w: Sender, p: Packet)
    requires InWindow(s) && w == s.(ahead := w.ahead, log := w.log)
    requires p == NextPacket(s) && p.data == [] && p.fin
    ensures Tiling([p], s.una + s.ahead, w) && Payload([p]) == []
  {
    NextIsTile(s, w);
    TilingCons(p, [], w);
    assert [p] + [] == [p];
  }

  /**
    One `transmit` emits packets that tile the stream from its position on; unless a send
    fails, they cover the window or the queue.  (w is s up to counter and log.)
   */
  lemma {:induction false} TransmitTiles(s: Sender, budget: nat, w: Sender, ps: seq<Packet>)
    requires s.ahead >= 0 && s.una + s.ahead <= |s.stream|
    requires w == s.(ahead := w.ahead, log := w.log) && ps == Emitted(s, budget)
    ensures Tiling(ps, s.una + s.ahead, w) && |ps| <= budget
    ensures |ps| < budget ==> s.una + s.ahead + |Payload(ps)| >= Min(|s.stream|, s.una + WINDOW)
    decreases WINDOW - s.ahead
  {
    if InWindow(s) && budget != 0 {
      var p := NextPacket(s);
      if p.data != [] {
        var rest := Emitted(Emit(s, p), budget - 1);
        TransmitTiles(Emit(s, p), budget - 1, w, rest);
        TilesFirst(s, budget, w, p, rest);
      } else if p.fin {
        BareFinTiles(s, w, p);
      }
    }
  }

  lemma TransmitCovers(s: Sender, budget: nat, ps: seq<Packet>)
    requires InWindow(s) && ps == Emitted(s, budget)
    ensures var from, to := s.una + s.ahead, s.una + s.ahead + |Payload(ps)|;
            && Tiling(ps, from, s)
            && to <= |s.stream| && Payload(ps) == s.stream[from..to]
            && (|ps| < budget ==> to >= Min(|s.stream|, s.una + WINDOW))
  {
    TransmitTiles(s, budget, s, ps);
    TilingCovers(ps, s.una + s.ahead, s);
  }

  /**
    One `transmit`, in every state a handler calls it in: with the counter outside the
    window, or the FIN acknowledged, nothing; otherwise a tiling from the counter's position
    on, carrying exactly those stream bytes, up to the end of the window or the queue unless
    a send fails.
   */
  lemma TransmitWindow(s: Sender, budget: nat)
    requires Safe(s) && s.syn == Acked
    ensures var ps := Emitted(s, budget);
            && Transmit(s, budget).log == s.log + ps
            && (!InWindow(s) || s.fin == Acked ==> ps == [])
            && (InWindow(s) ==>
                  var from, to := s.una + s.ahead, s.una + s.ahead + |Payload(ps)|;
                  && Tiling(ps, from, s)
                  && to <= |s.stream| && Payload(ps) == s.stream[from..to]
                  && (|ps| < budget ==> to >= Min(|s.stream|, s.una + WINDOW)))
  {
    EmittedIsLogged(s, budget);
    if InWindow(s) {
      TransmitCovers(s, budget, Emitted(s, budget));
    }
  }
}
