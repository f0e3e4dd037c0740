/**
  What every entry point of the sender sends, and when: which packets join the log, where
  they start, how far they reach, and where the counter stands afterwards.
 */
module Handlers {
  import opened Machine
  import opened SenderModel
  import opened SenderInvariant
  import opened SenderTheorems
  import opened Segments

  /**
    From s to r the sender sends a window: packets that tile the stream from one position on,
    to the end of the window or of the queue unless a send is refused; with a send left and
    room in the window the FIN, once requested, comes last on its own.  The counter stands
    where they end, past the packet refused.
   */
  ghost predicate Sends(s: Sender, r: Sender, from: nat, budget: nat) {
    && s.log <= r.log
    && var ps := r.log[|s.log|..];
       var end := from + |Payload(ps)|;
       && |ps| <= budget && Tiling(ps, from, r)
       && (|ps| < budget ==> end >= Min(|r.stream|, r.una + WINDOW))
       && (|ps| < budget && r.fin == Sent && end == |r.stream| && end < r.una + WINDOW ==>
             ps != [] && ps[|ps| - 1].Data? && ps[|ps| - 1].data == [])
       && r.una + r.ahead ==
          if |ps| == budget && end < r.una + WINDOW then end + Min(MSS, |r.stream| - end) else end
  }

  // -------------------------------------------------------------------- the loop

  lemma SendsNothing(s: Sender, budget: nat)
    requires s.ahead >= 0 && s.una + s.ahead <= |s.stream|
    requires s.ahead >= WINDOW || (s.una + s.ahead == |s.stream| && s.fin != Sent)
    ensures Sends(s, s, s.una + s.ahead, budget)
  {
    assert s.log[|s.log|..] == [];
  }

  lemma SendsRefused(s: Sender)
    requires InWindow(s)
    ensures Sends(s, Turn(s, false), s.una + s.ahead, 0)
  {
    assert s.log[|s.log|..] == [];
  }

  lemma SendsBareFin(s: Sender, budget: nat)
    requires InWindow(s) && s.una + s.ahead == |s.stream| && s.fin == Sent && budget > 0
    ensures Sends(s, Turn(s, true), s.una + s.ahead, budget)
  {
    var p, r := NextPacket(s), Turn(s, true);
    assert r.log[|s.log|..] == [p];
    BareFinTiles(s, r, p);
  }

  lemma SendsFirst(s: Sender, r: Sender, budget: nat)
    requires InWindow(s) && NextPacket(s).data != [] && budget > 0
    requires var m := Turn(s, true);
             r == m.(ahead := r.ahead, log := r.log) && Sends(m, r, m.una + m.ahead, budget - 1)
    ensures Sends(s, r, s.una + s.ahead, budget)
  {
    var p, m := NextPacket(s), Turn(s, true);
    var rest := r.log[|m.log|..];
    assert r.log[|s.log|..] == [p] + rest;
    TilesFirst(s, budget, r, p, rest);
  }

  lemma {:induction false} LoopSends(s: Sender, budget: nat)
    requires s.ahead >= 0 && s.una + s.ahead <= |s.stream|
    ensures Sends(s, TransmitLoop(s, budget), s.una + s.ahead, budget)
    decreases WINDOW - s.ahead
  {
    if !InWindow(s) {
      SendsNothing(s, budget);
    } else if budget == 0 {
      SendsRefused(s);
    } else if NextPacket(s).data != [] {
      var m := Turn(s, true);
      LoopSends(m, budget - 1);
      TransmitLoopFrame(m, budget - 1);
      SendsFirst(s, TransmitLoop(m, budget - 1), budget);
    } else if s.fin == Sent {
      SendsBareFin(s, budget);
    } else {
      SendsNothing(s, budget);
    }
  }

  lemma SendsFrom(s: Sender, m: Sender, r: Sender, from: nat, budget: nat)
    requires Sends(m, r, from, budget) && s.log == m.log
    ensures Sends(s, r, from, budget)
  {
  }

  /** The loop from any counter a handler leaves, s being the state before the handler. */
  lemma WindowSends(s: Sender, m: Sender, budget: nat)
    requires s.log == m.log && m.una + m.ahead <= |m.stream|
    ensures var r := TransmitLoop(m, budget);
            && r == m.(ahead := r.ahead, log := r.log)
            && if m.ahead >= 0 then Sends(s, r, m.una + m.ahead, budget) else r == m
  {
    TransmitLoopFrame(m, budget);
    if m.ahead >= 0 {
      LoopSends(m, budget);
      SendsFrom(s, m, TransmitLoop(m, budget), m.una + m.ahead, budget);
    }
  }

  // ------------------------------------------------------------------- acknowledge

  /** t is s with everything before `position` acknowledged. */
  lemma SettledSends(s: Sender, t: Sender, position: nat, budget: nat)
    requires t.log == s.log && t.una == position && t.una + t.ahead == s.una + s.ahead <= |t.stream|
    requires t.fin == Acked ==> t.ahead < 0
    ensures var r := TransmitLoop(t, budget);
            && r.fin == t.fin && r.una == position
            && if s.una + s.ahead >= position then Sends(s, r, s.una + s.ahead, budget)
               else r.log == s.log && r.una + r.ahead == s.una + s.ahead
  {
    WindowSends(s, t, budget);
  }

  /**
    An acknowledgement of something new sends on from where the counter stands, unless it
    closes the connection or passed the counter; any other sends nothing.
   */
  lemma AcknowledgeSends(s: Sender, position: nat, now: nat, budget: nat)
    requires Inv(s) && s.syn != Idle && s.una <= position <= HighestSent(s.log)
    ensures var r := Acknowledge(s, position, now, budget);
            if position > s.una && r.fin != Acked && s.una + s.ahead >= position then
              Sends(s, r, s.una + s.ahead, budget)
            else
              r.log == s.log && r.una + r.ahead == s.una + s.ahead
  {
    SettledSends(s, Settle(s, position, now), position, budget);
  }

  // --------------------------------------------------------------------- data, FIN

  /**
    `sendData` takes what fits.  Once the SYN is acknowledged it then sends from where the
    counter stands, whatever is still unacknowledged; a full buffer, or a counter below
    zero, sends nothing.
   */
  lemma SendDataSends(s: Sender, data: seq<byte>, budget: nat)
    requires Inv(s) && s.syn != Idle && s.fin == Idle
    ensures var r, n := SendData(s, data, budget), Min(|data|, CAPACITY - |Queue(s)|);
            && Accepted(s, data) == n
            && r == s.(stream := s.stream + data[..n], ahead := r.ahead, log := r.log)
            && if s.syn == Acked && |Queue(s)| < CAPACITY && s.ahead >= 0 then
                 Sends(s, r, s.una + s.ahead, budget)
               else
                 r.log == s.log && r.ahead == s.ahead
  {
    var n := Accepted(s, data);
    var m := s.(stream := s.stream + data[..n]);
    if |Queue(s)| >= CAPACITY {
      assert data[..n] == [] && s.stream + [] == s.stream;
    } else if s.syn == Acked {
      WindowSends(s, m, budget);
    }
  }

  /**
    `sendFIN` with an empty buffer sends the FIN at once, if the counter stands there and
    the send is accepted; before the SYN is acknowledged it sends the SYN again.  With data
    in the buffer it sends nothing.
   */
  lemma SendFinSends(s: Sender, budget: nat)
    requires Inv(s) && s.syn != Idle && s.fin == Idle
    ensures var r := SendFin(s, budget);
            && r == s.(fin := Sent, log := r.log)
            && if Queue(s) != [] || budget == 0 then r.log == s.log
               else if s.syn == Sent then AddsSyn(s, r)
               else if s.ahead == 0 then r.log == s.log + [Data(|s.stream|, s.rcvNext, true, [])]
               else r.log == s.log
  {
    var m := s.(fin := Sent);
    if Queue(s) == [] && s.syn == Acked {
      assert s.una == |s.stream|;
      if s.ahead >= 0 { assert NextPacket(m) == Data(|s.stream|, s.rcvNext, true, []); }
    }
  }

  // --------------------------------------------------------------------- SYN, timer

  /** One SYN more: it acknowledges the peer's SYN exactly if that has arrived. */
  ghost predicate AddsSyn(s: Sender, r: Sender) {
    && |r.log| == |s.log| + 1 && s.log <= r.log
    && var p := r.log[|s.log|];
       p.Syn? && (p.acks <==> s.synReceived) && (s.synReceived ==> p.ackno == s.rcvNext)
  }

  /** `sendSYN` sends the SYN at once, if the IP layer accepts it. */
  lemma SendSynSends(s: Sender, budget: nat)
    requires Inv(s) && s.syn == Idle
    ensures var r := SendSyn(s, budget);
            && r == s.(syn := Sent, log := r.log)
            && if budget > 0 then AddsSyn(s, r) else r.log == s.log
  {
  }

  /** The alarm: the SYN again until it is acknowledged, then a window from the first byte not acknowledged. */
  lemma RetransmitSends(s: Sender, now: nat, budget: nat)
    requires Inv(s) && s.deadline != 0
    ensures var r := Retransmit(s, now, budget);
            && r == s.(ahead := r.ahead, deadline := now + SECOND, log := r.log)
            && if s.syn == Acked then Sends(s, r, s.una, budget)
               else r.ahead == 0 && if s.syn == Sent && budget > 0 then AddsSyn(s, r) else r.log == s.log
  {
    if s.syn == Acked {
      var m := s.(ahead := 0, deadline := 0);
      assert s.una <= |s.stream|;
      WindowSends(s, m, budget);
      SendsLater(s, TransmitLoop(m, budget), s.una, budget, now + SECOND);
    }
  }

  lemma {:induction false} TilingLater(ps: seq<Packet>, from: nat, r: Sender, at: nat)
    requires Tiling(ps, from, r)
    ensures Tiling(ps, from, r.(deadline := at))
    decreases |ps|
  {
    if ps != [] { TilingLater(ps[1..], from + |ps[0].data|, r, at); }
  }

  lemma SendsLater(s: Sender, r: Sender, from: nat, budget: nat, at: nat)
    requires Sends(s, r, from, budget)
    ensures Sends(s, r.(deadline := at), from, budget)
  {
    TilingLater(r.log[|s.log|..], from, r, at);
  }

  // ----------------------------------------------------------------------- the wire

  predicate HasAck(g: Segment) { (g.flags / 16) % 2 == 1 }

  /** Addresses, number, flag bits (section 3.1 of RFC 793), window and data of the segment of a packet. */
  lemma WireMeaning(c: Connection, p: Packet)
    ensures var g := OnWire(c, p);
            && g.source == c.local && g.destination == c.remote && g.window == 65535
            && (IsSyn(g) <==> p.Syn?) && (IsFin(g) <==> p.Data? && p.fin)
            && (HasAck(g) <==> p.Data? || p.acks)
            && g.flags == (if HasAck(g) then 16 else 0) + (if IsSyn(g) then 2 else 0) + (if IsFin(g) then 1 else 0)
            && (HasAck(g) ==> g.acknowledgment == p.ackno)
            && g.sequence == (if p.Syn? then c.initial else (c.initial + 1 + p.offset) % U32)
            && g.data == (if p.Syn? then [] else p.data)
  {
  }

  /** The SYN on the wire: with ACK and the peer's next number exactly if the peer's SYN has arrived. */
  lemma SynOnWire(c: Connection, s: Sender, r: Sender)
    requires AddsSyn(s, r)
    ensures var wire := AllOnWire(c, r.log);
            && |wire| == |s.log| + 1 && wire[..|s.log|] == AllOnWire(c, s.log)
            && var g := wire[|s.log|];
               && IsSyn(g) && !IsFin(g) && g.sequence == c.initial && g.data == []
               && (HasAck(g) <==> s.synReceived) && (s.synReceived ==> g.acknowledgment == s.rcvNext)
  {
    WireMeaning(c, r.log[|s.log|]);
  }
}
