/**
  The sender under its clock: its retransmission alarm is an entry of the registry, other
  alarms with callbacks of their own share it, and `elapse` moves the clock from deadline
  to deadline.  Each firing of the alarm starts an undisturbed period of Transfer.
 */
module TimedTransfer {
  import opened Machine
  import opened Segments
  import opened SenderModel
  import opened SenderInvariant
  import opened Completion
  import opened Delivery
  import opened Transfer
  import Deadline
  import A = Alarms

  /** The retransmission alarm. */
  const TIMER: A.Id := 0

  /** Its callback sets it one second ahead; the other callbacks do what they like, but not to it. */
  ghost predicate Owns(d: A.Delegates) {
    && A.Polite(d) && A.Timely(d) && A.LeftAlone(d, TIMER)
    && (forall w: A.World, firing: int :: A.Running(w, TIMER, firing) ==> d(w, TIMER) == A.Rearm(w, TIMER))
  }

  // ---------------------------------------------------------- one alarm among others

  lemma {:induction false} PerformKeepsAlarm(w: A.World, acts: seq<A.Action>, firing: int, id: A.Id)
    requires A.Registered(w, firing) && A.LegalAll(w, acts) && A.Avoids(acts, id) && id in w.alarms
    ensures var r := A.Perform(w, acts, firing); id in r.alarms && r.alarms[id] == w.alarms[id]
    decreases |acts|
  {
    if acts != [] {
      A.DoKeeps(w, acts[0], firing);
      PerformKeepsAlarm(A.Do(w, acts[0]), acts[1..], firing, id);
    }
  }

  lemma PerformOne(w: A.World, a: A.Action, firing: int)
    requires A.Registered(w, firing) && A.Legal(w, a)
    ensures A.LegalAll(w, [a]) && A.TokenLive(w, a.id) && A.Perform(w, [a], firing) == A.Do(w, a)
  {
    A.DoKeeps(w, a, firing);
    var m := A.Do(w, a);
    assert [a][1..] == [];
    assert A.Perform(m, [], firing) == m;
  }

  lemma TimerFires(w: A.World, u: A.Token, d: A.Delegates)
    requires A.Registered(w, -1) && Owns(d) && u in w.entries && w.entries[u].id == TIMER
    ensures var r := A.FireEntry(w, u, d); TIMER in r.alarms && r.alarms[TIMER].deadline == w.now + SECOND
  {
    A.ClearedIsRunning(w, u);
    var w1 := A.Cleared(w, TIMER);
    var rearm := A.Set(TIMER, w1.now + SECOND);
    assert d(w1, TIMER) == A.Rearm(w1, TIMER) == [rearm];
    PerformOne(w1, rearm, u);
  }

  lemma OtherFires(w: A.World, u: A.Token, d: A.Delegates)
    requires A.Registered(w, -1) && Owns(d) && u in w.entries && w.entries[u].id != TIMER && TIMER in w.alarms
    ensures var r := A.FireEntry(w, u, d); TIMER in r.alarms && r.alarms[TIMER] == w.alarms[TIMER]
  {
    var id := w.entries[u].id;
    A.ClearedIsRunning(w, u);
    var w1 := A.Cleared(w, id);
    PerformKeepsAlarm(w1, d(w1, id), u, TIMER);
  }

  /** What runAlarmEvent does to the timer: it fires once if it is due, and is set again. */
  lemma {:induction false} EventsAndTimer(w: A.World, d: A.Delegates)
    requires A.Registered(w, -1) && Owns(d) && TIMER in w.alarms
    ensures var r := A.RunEvents(w, d);
            var was := w.alarms[TIMER].deadline;
            && TIMER in r.alarms
            && r.alarms[TIMER].deadline == if 0 < was <= w.now then w.now + SECOND else was
    decreases A.Due(w)
  {
    if A.Due(w) == {} {
      assert forall t :: t in w.entries ==> t !in A.Due(w);
    } else {
      var u := A.First(w.entries);
      if w.entries[u].id == TIMER { TimerFires(w, u, d); } else { OtherFires(w, u, d); }
      A.RunEventsTurn(w, d, u);
      EventsAndTimer(A.FireEntry(w, u, d), d);
    }
  }

  // -------------------------------------------------------------------- the system

  datatype System = System(w: A.World, s: Sender, r: Receiver)

  /** Deadlines lie ahead, and the registry and the sender agree on the timer's. */
  ghost predicate Coupled(g: System) {
    && A.Registered(g.w, -1) && (forall t :: t in g.w.entries ==> g.w.entries[t].key > g.w.now)
    && TIMER in g.w.alarms && g.w.alarms[TIMER].deadline == g.s.deadline
  }

  /** What `acknowledge` does to the timer's entry (lines 89-101), m being the sender before. */
  function AlarmAfterAck(w: A.World, m: Sender, position: nat): (r: A.World)
    requires A.Registered(w, -1) && TIMER in w.alarms
    requires forall t :: t in w.entries ==> w.entries[t].key > w.now
    ensures A.Registered(r, -1) && TIMER in r.alarms && r.now == w.now
    ensures forall t :: t in r.entries ==> r.entries[t].key > r.now
    ensures w.alarms[TIMER].deadline == m.deadline ==>
              r.alarms[TIMER].deadline == Settle(m, position, w.now).deadline
  {
    var update, cancel := A.Update(TIMER, w.now + SECOND, Deadline.GRANULARITY), A.Cancel(TIMER);
    A.DoKeeps(w, update, -1);
    var w1 := if m.ahead == position - m.una then A.Do(w, update) else w;
    A.DoKeeps(w1, cancel, -1);
    if m.fin == Sent && position == |m.stream| + 1 then A.Do(w1, cancel) else w1
  }

  lemma AckDeadline(m: Sender, position: nat, now: nat, budget: nat)
    ensures Acknowledge(m, position, now, budget).deadline == Settle(m, position, now).deadline
  {
    TransmitLoopFrame(Settle(m, position, now), budget);
  }

  /** The clock does not pass the timer's deadline; if it gets there the timer fires, then. */
  lemma JumpAndTimer(w: A.World, d: A.Delegates, delta: nat)
    requires A.Registered(w, -1) && Owns(d) && TIMER in w.alarms
    requires forall t :: t in w.entries ==> w.entries[t].key > w.now
    ensures var r, was := A.Jump(w, d, delta), w.alarms[TIMER].deadline;
            && A.Registered(r, -1) && (forall t :: t in r.entries ==> r.entries[t].key > r.now)
            && w.now <= r.now <= w.now + delta && (delta > 0 ==> r.now > w.now)
            && TIMER in r.alarms && (was != 0 ==> r.now <= was)
            && r.alarms[TIMER].deadline == if 0 < was <= r.now then was + SECOND else was
  {
    var was := w.alarms[TIMER].deadline;
    if was != 0 { assert A.IsSet(w, TIMER); }
    EventsAndTimer(A.Ticked(w, delta), d);
  }

  /** One turn of elapse, and what the network does in it. */
  datatype Lapse = Lapse(delta: nat, budget: nat, stray: seq<Segment>, more: nat)

  /** One turn: if it fires the timer, the sender retransmits, and all of that is received and acknowledged. */
  ghost function AfterLapse(g: System, d: A.Delegates, c: Connection, t: Lapse): (r: System)
    requires Owns(d) && Coupled(g)
    ensures Coupled(r)
  {
    var w := A.Jump(g.w, d, t.delta);
    JumpAndTimer(g.w, d, t.delta);
    if g.s.deadline == 0 || w.now < g.s.deadline then g.(w := w)
    else
      var e := Exchange(w.now, t.budget, t.stray, w.now, t.more);
      var m, position := Retransmit(g.s, w.now, t.budget), RoundOf(g.s, c, g.r, e).position;
      AckDeadline(m, position, w.now, t.more);
      System(AlarmAfterAck(w, m, position), SenderAfter(g.s, c, g.r, e), ReceiverAfter(g.s, c, g.r, e))
  }

  ghost predicate Undisturbed(g: System, c: Connection, t: Lapse) {
    t.budget >= LOSSLESS && forall segment :: segment in t.stray ==> segment in AllOnWire(c, g.s.log)
  }

  ghost predicate AllUndisturbed(g: System, d: A.Delegates, c: Connection, ts: seq<Lapse>)
    requires Owns(d) && Coupled(g)
    decreases |ts|
  {
    ts == [] || (Undisturbed(g, c, ts[0]) && AllUndisturbed(AfterLapse(g, d, c, ts[0]), d, c, ts[1..]))
  }

  ghost function Lapses(g: System, d: A.Delegates, c: Connection, ts: seq<Lapse>): (r: System)
    requires Owns(d) && Coupled(g)
    ensures Coupled(r)
    decreases |ts|
  {
    if ts == [] then g else Lapses(AfterLapse(g, d, c, ts[0]), d, c, ts[1..])
  }

  // -------------------------------------------------------------- done by the clock

  /** Everything is delivered, the sender knows it, and its alarm is not set. */
  ghost predicate Done(g: System, stream: seq<byte>) {
    && g.s.fin == Acked && g.r.closed && g.r.received == stream
    && g.s.deadline == 0 && !A.IsSet(g.w, TIMER)
  }

  lemma {:induction false} DoneStays(g: System, d: A.Delegates, c: Connection, ts: seq<Lapse>, stream: seq<byte>)
    requires Owns(d) && Coupled(g) && Done(g, stream)
    ensures Done(Lapses(g, d, c, ts), stream)
    decreases |ts|
  {
    if ts != [] {
      DoneStays(AfterLapse(g, d, c, ts[0]), d, c, ts[1..], stream);
    }
  }

  /** A period at one clock reading. */
  lemma PeriodMeaning(s: Sender, c: Connection, r: Receiver, e: Exchange)
    requires Synced(s, c, r) && Possible(s, c, e) && e.fired == e.acked
    ensures var t, q := SenderAfter(s, c, r, e), ReceiverAfter(s, c, r, e);
            && Synced(t, c, q) && t.stream == s.stream
            && (t.fin == Acked ==> t.deadline == 0 && q.closed && q.received == s.stream)
            && (t.fin == Sent ==>
                  t.deadline == e.fired + SECOND && RoundsNeeded(|Queue(t)|) < RoundsNeeded(|Queue(s)|))
  {
    var t, m, position := SenderAfter(s, c, r, e), Retransmit(s, e.fired, e.budget), RoundOf(s, c, r, e).position;
    ExchangeKeepsSynced(s, c, r, e);
    AckDeadline(m, position, e.acked, e.more);
    if t.fin == Sent { RoundsNeededStep(|Queue(s)|, |Queue(t)|); }
  }

  /** A turn before the deadline changes the clock alone; one that reaches it is a period of Transfer. */
  lemma LapseMeaning(g: System, d: A.Delegates, c: Connection, t: Lapse)
    requires Owns(d) && Coupled(g) && Synced(g.s, c, g.r) && g.s.fin == Sent && Undisturbed(g, c, t)
    ensures var r := AfterLapse(g, d, c, t);
            if r.w.now < g.s.deadline then r.s == g.s && r.r == g.r
            else
              && r.w.now == g.s.deadline && Synced(r.s, c, r.r) && r.s.stream == g.s.stream
              && (r.s.fin == Acked ==> Done(r, g.s.stream))
              && (r.s.fin == Sent ==>
                    && r.s.deadline == g.s.deadline + SECOND
                    && RoundsNeeded(|Queue(r.s)|) < RoundsNeeded(|Queue(g.s)|))
  {
    var w := A.Jump(g.w, d, t.delta);
    JumpAndTimer(g.w, d, t.delta);
    if w.now >= g.s.deadline {
      var e := Exchange(w.now, t.budget, t.stray, w.now, t.more);
      PeriodMeaning(g.s, c, g.r, e);
    }
  }

  /** The clock reading by which all is done. */
  function FinishTime(s: Sender): nat {
    s.deadline + (RoundsNeeded(|Queue(s)|) - 1) * SECOND
  }

  lemma FinishTimeStep(s: Sender, t: Sender)
    requires t.deadline == s.deadline + SECOND && RoundsNeeded(|Queue(t)|) < RoundsNeeded(|Queue(s)|)
    ensures FinishTime(t) <= FinishTime(s)
  {
  }

  /**
    With the FIN requested, and whatever was lost before: when the clock shows the timer's
    deadline plus one second for each further window of data, everything has been delivered,
    the sender knows it, and its alarm is gone, whatever other alarms share the registry.
   */
  lemma {:induction false} DoneByTheClock(g: System, d: A.Delegates, c: Connection, ts: seq<Lapse>)
    requires Owns(d) && Coupled(g) && Synced(g.s, c, g.r) && g.s.fin == Sent
    requires AllUndisturbed(g, d, c, ts) && Lapses(g, d, c, ts).w.now >= FinishTime(g.s)
    ensures Done(Lapses(g, d, c, ts), g.s.stream)
    decreases |ts|
  {
    if ts == [] {
      DeadlineAhead(g);
    } else {
      var m := AfterLapse(g, d, c, ts[0]);
      LapseMeaning(g, d, c, ts[0]);
      if m.s.fin == Acked {
        DoneStays(m, d, c, ts[1..], g.s.stream);
      } else {
        if m.w.now >= g.s.deadline { FinishTimeStep(g.s, m.s); }
        DoneByTheClock(m, d, c, ts[1..]);
      }
    }
  }

  lemma DeadlineAhead(g: System)
    requires Coupled(g) && Inv(g.s) && g.s.fin != Acked
    ensures g.w.now < g.s.deadline <= FinishTime(g.s)
  {
    assert A.IsSet(g.w, TIMER);
  }

  lemma LapsesCons(g: System, d: A.Delegates, c: Connection, t: Lapse, ts: seq<Lapse>)
    requires Owns(d) && Coupled(g) && Undisturbed(g, c, t) && AllUndisturbed(AfterLapse(g, d, c, t), d, c, ts)
    ensures AllUndisturbed(g, d, c, [t] + ts)
    ensures Lapses(g, d, c, [t] + ts) == Lapses(AfterLapse(g, d, c, t), d, c, ts)
  {
    assert ([t] + ts)[1..] == ts;
  }

  /** The turns of elapse take the clock to any later reading. */
  lemma {:induction false} ClockReaches(g: System, d: A.Delegates, c: Connection, time: nat) returns (ts: seq<Lapse>)
    requires Owns(d) && Coupled(g) && time >= g.w.now
    ensures AllUndisturbed(g, d, c, ts) && Lapses(g, d, c, ts).w.now == time
    decreases time - g.w.now
  {
    ts := [];
    if time > g.w.now {
      var t := Lapse(time - g.w.now, LOSSLESS, [], 0);
      JumpAndTimer(g.w, d, t.delta);
      ts := ClockReaches(AfterLapse(g, d, c, t), d, c, time);
      LapsesCons(g, d, c, t, ts);
      ts := [t] + ts;
    }
  }

  /** So the transfer finishes: undisturbed, the clock gets there, and then all is done. */
  lemma FinishesByTheClock(g: System, d: A.Delegates, c: Connection) returns (ts: seq<Lapse>)
    requires Owns(d) && Coupled(g) && Synced(g.s, c, g.r) && g.s.fin == Sent
    ensures AllUndisturbed(g, d, c, ts) && Lapses(g, d, c, ts).w.now == FinishTime(g.s)
    ensures Done(Lapses(g, d, c, ts), g.s.stream)
  {
    DeadlineAhead(g);
    ts := ClockReaches(g, d, c, FinishTime(g.s));
    DoneByTheClock(g, d, c, ts);
  }

  /** The retransmission alarm alone, with its callback, is such a registry. */
  lemma RearmOwns()
    ensures Owns(A.Rearm)
  {
    A.RearmIsWellBehaved();
  }
}
