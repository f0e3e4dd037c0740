/**
  Both ends, the lossy network and the clock: every run from the start keeps sender,
  receiver and registry together, and from wherever it leads the transfer is done by a
  known clock reading once the network stops losing.
 */
module TimedNetwork {
  import opened Machine
  import opened Segments
  import opened SenderModel
  import opened SenderInvariant
  import opened Network
  import opened TimedTransfer
  import A = Alarms

  datatype World = World(w: A.World, j: Joint)

  datatype Happening =
    | Net(m: Move)                          // a step of either end or of the network, now
    | Clock(delta: nat, budget: nat)        // a turn of elapse; if it fires the timer, the sender retransmits

  ghost predicate Together(g: World, c: Connection) {
    InStep(g.j, c) && Coupled(System(g.w, g.j.s, g.j.r))
  }

  /** The timer's step is the clock's, and acknowledgements arrive at the time it is. */
  predicate CanHappen(g: World, c: Connection, h: Happening) {
    h.Net? ==>
      && Allowed(g.j, c, h.m) && !(h.m.Local? && h.m.e.DoTimer?)
      && (h.m.AckBack? ==> h.m.now == g.w.now)
  }

  /** The joint state after a turn that leaves the clock at `now`. */
  function Timeout(j: Joint, now: nat, budget: nat): Joint {
    if j.s.deadline == 0 || now < j.s.deadline then j else Network.After(j, Local(DoTimer(now, budget)))
  }

  ghost function Next(g: World, d: A.Delegates, c: Connection, h: Happening): World
    requires Owns(d) && Together(g, c)
  {
    match h
    case Net(m) =>
      World(if m.AckBack? && m.position >= g.j.s.una then AlarmAfterAck(g.w, g.j.s, m.position) else g.w,
            Network.After(g.j, m))
    case Clock(delta, budget) =>
      var w := A.Jump(g.w, d, delta);
      World(w, Timeout(g.j, w.now, budget))
  }

  /** Only acknowledgements and timeouts touch the timer. */
  lemma LocalKeepsDeadline(s: Sender, e: Event)
    requires !e.DoAcknowledge? && !e.DoTimer?
    ensures Step(s, e).deadline == s.deadline
  {
    match e
    case DoSendSyn(budget) => TransmitLoopFrame(s.(syn := Sent), budget);
    case DoSendData(data, budget) =>
      TransmitLoopFrame(s.(stream := s.stream + data[..Accepted(s, data)]), budget);
    case DoSendFin(budget) => TransmitLoopFrame(s.(fin := Sent), budget);
    case DoPeer(_, _) =>
  }

  lemma NetKeepsTogether(g: World, d: A.Delegates, c: Connection, m: Move)
    requires Owns(d) && Together(g, c) && CanHappen(g, c, Net(m))
    ensures Together(Next(g, d, c, Net(m)), c)
  {
    MoveKeeps(g.j, c, m);
    match m
    case Local(e) => LocalKeepsDeadline(g.j.s, e);
    case Arrive(_) =>
    case AckBack(position, now, budget) => AckDeadline(g.j.s, position, now, budget);
  }

  lemma TimeoutKeepsInStep(j: Joint, c: Connection, now: nat, budget: nat)
    requires InStep(j, c)
    ensures InStep(Timeout(j, now, budget), c)
  {
    if j.s.deadline != 0 && now >= j.s.deadline {
      RetransmitKeepsStream(j.s, now, budget);
      MoveKeeps(j, c, Local(DoTimer(now, budget)));
    }
  }

  lemma TimeoutCouples(w: A.World, j: Joint, budget: nat)
    requires A.Registered(w, -1) && (forall t :: t in w.entries ==> w.entries[t].key > w.now) && TIMER in w.alarms
    requires var was := j.s.deadline;
             && (was != 0 ==> w.now <= was)
             && w.alarms[TIMER].deadline == if 0 < was <= w.now then was + SECOND else was
    ensures var t := Timeout(j, w.now, budget); Coupled(System(w, t.s, t.r))
  {
    RetransmitKeepsStream(j.s, w.now, budget);
  }

  lemma TimeoutKeepsCoupled(w: A.World, d: A.Delegates, j: Joint, delta: nat, budget: nat)
    requires Owns(d) && Coupled(System(w, j.s, j.r))
    ensures var w1 := A.Jump(w, d, delta);
            var t := Timeout(j, w1.now, budget);
            Coupled(System(w1, t.s, t.r))
  {
    JumpAndTimer(w, d, delta);
    TimeoutCouples(A.Jump(w, d, delta), j, budget);
  }

  lemma ClockKeepsTogether(g: World, d: A.Delegates, c: Connection, delta: nat, budget: nat)
    requires Owns(d) && Together(g, c)
    ensures Together(Next(g, d, c, Clock(delta, budget)), c)
  {
    TimeoutKeepsCoupled(g.w, d, g.j, delta, budget);
    TimeoutKeepsInStep(g.j, c, A.Jump(g.w, d, delta).now, budget);
  }

  lemma RetransmitKeepsStream(s: Sender, now: nat, budget: nat)
    ensures Retransmit(s, now, budget).stream == s.stream && Retransmit(s, now, budget).deadline == now + SECOND
  {
    TransmitLoopFrame(s.(ahead := 0, deadline := 0), budget);
  }

  lemma NextKeepsTogether(g: World, d: A.Delegates, c: Connection, h: Happening)
    requires Owns(d) && Together(g, c) && CanHappen(g, c, h)
    ensures Together(Next(g, d, c, h), c)
  {
    match h
    case Net(m) => NetKeepsTogether(g, d, c, m);
    case Clock(delta, budget) => ClockKeepsTogether(g, d, c, delta, budget);
  }

  ghost predicate AllCanHappen(g: World, d: A.Delegates, c: Connection, hs: seq<Happening>)
    requires Owns(d) && Together(g, c)
    decreases |hs|
  {
    hs == [] ||
    (CanHappen(g, c, hs[0]) &&
     (NextKeepsTogether(g, d, c, hs[0]); AllCanHappen(Next(g, d, c, hs[0]), d, c, hs[1..])))
  }

  /** In every run, whatever is lost and whatever other alarms do, registry and both ends stay together. */
  ghost function Lead(g: World, d: A.Delegates, c: Connection, hs: seq<Happening>): (r: World)
    requires Owns(d) && Together(g, c) && AllCanHappen(g, d, c, hs)
    ensures Together(r, c)
    decreases |hs|
  {
    if hs == [] then g
    else
      NextKeepsTogether(g, d, c, hs[0]);
      Lead(Next(g, d, c, hs[0]), d, c, hs[1..])
  }

  /** A registry to which the sender's constructor adds its alarm. */
  ghost predicate Ready(w: A.World) {
    A.Registered(w, -1) && TIMER !in w.alarms && forall t :: t in w.entries ==> w.entries[t].key > w.now
  }

  ghost function Begin(w: A.World, c: Connection): (g: World)
    requires Ready(w)
    ensures Together(g, c)
  {
    var create, arm := A.Create(TIMER), A.Set(TIMER, w.now + SECOND);
    A.DoKeeps(w, create, -1);
    var w1 := A.Do(w, create);
    A.DoKeeps(w1, arm, -1);
    World(A.Do(w1, arm), Network.Start(w.now, c))
  }

  /**
    From the start through any run, lossy and interleaved with other alarms, to a state with
    the FIN requested; from there undisturbed: by FinishTime, as the clock shows it, the
    receiver holds the whole stream and its end, the sender knows, and its alarm is gone.
   */
  lemma DoneInTime(w: A.World, d: A.Delegates, c: Connection, hs: seq<Happening>, ts: seq<Lapse>)
    requires Owns(d) && Ready(w) && AllCanHappen(Begin(w, c), d, c, hs)
    requires var j := Lead(Begin(w, c), d, c, hs).j; j.s.syn == Acked && j.s.fin == Sent
    requires var g := Lead(Begin(w, c), d, c, hs);
             var m := System(g.w, g.j.s, g.j.r);
             AllUndisturbed(m, d, c, ts) && Lapses(m, d, c, ts).w.now >= FinishTime(m.s)
    ensures var g := Lead(Begin(w, c), d, c, hs);
            Done(Lapses(System(g.w, g.j.s, g.j.r), d, c, ts), g.j.s.stream)
  {
    var g := Lead(Begin(w, c), d, c, hs);
    DoneByTheClock(System(g.w, g.j.s, g.j.r), d, c, ts);
  }

  /** And the clock gets there. */
  lemma TimeComes(w: A.World, d: A.Delegates, c: Connection, hs: seq<Happening>) returns (ts: seq<Lapse>)
    requires Owns(d) && Ready(w) && AllCanHappen(Begin(w, c), d, c, hs)
    requires var j := Lead(Begin(w, c), d, c, hs).j; j.s.syn == Acked && j.s.fin == Sent
    ensures var g := Lead(Begin(w, c), d, c, hs);
            var m := System(g.w, g.j.s, g.j.r);
            && AllUndisturbed(m, d, c, ts) && Lapses(m, d, c, ts).w.now == FinishTime(m.s)
            && Done(Lapses(m, d, c, ts), m.s.stream)
  {
    var g := Lead(Begin(w, c), d, c, hs);
    ts := FinishesByTheClock(System(g.w, g.j.s, g.j.r), d, c);
  }
}
