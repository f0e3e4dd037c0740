/**
  Alarms and the multimap of deadlines they are registered in, as values.

  A token stands for a multimap iterator.  Tokens are numbered in the order of
  insertion, which is also the order of entries with equal keys; erasing through a
  token that is not live is outside every function here.  A callback is code of its own:
  `Delegates` maps the state it runs in to the operations it performs on its own alarm
  and on any other.
 */
module Alarms {
  import opened Machine
  import opened Deadline

  type Id = nat
  type Token = nat

  datatype Alarm = Alarm(deadline: nat, token: Token)
  datatype Entry = Entry(key: nat, id: Id)
  datatype Firing = Firing(token: Token, entry: Entry, at: nat)

  datatype World = World(
    now: nat,
    alarms: map<Id, Alarm>,         // the existing alarms: deadline_ (0 is "not set") and token_
    entries: map<Token, Entry>,     // alarm_map_
    nextToken: Token,
    history: seq<Firing>            // every firing so far, and when
  )

  datatype Action =
    | Create(id: Id)
    | Set(id: Id, deadline: nat)
    | Update(id: Id, deadline: nat, granularity: int)
    | Cancel(id: Id)
    | Destroy(id: Id)

  type Delegates = (World, Id) -> seq<Action>

  // ----------------------------------------------------- operations on one alarm

  /** The end of `set`: deadline_ is stored and setImpl registers it under a new token. */
  function Register(w: World, id: Id, deadline: nat): World {
    w.(alarms := w.alarms[id := Alarm(deadline, w.nextToken)],
       entries := w.entries[w.nextToken := Entry(deadline, id)],
       nextToken := w.nextToken + 1)
  }

  predicate IsSet(w: World, id: Id) {
    id in w.alarms && w.alarms[id].deadline != 0
  }

  /** `cancel` of a set alarm: clear the deadline and erase through the token, which must be live. */
  function Unregister(w: World, id: Id): World
    requires IsSet(w, id) && w.alarms[id].token in w.entries
  {
    w.(alarms := w.alarms[id := w.alarms[id].(deadline := 0)], entries := w.entries - {w.alarms[id].token})
  }

  /** An alarm's token is live whenever the code may erase through it. */
  predicate TokenLive(w: World, id: Id) {
    IsSet(w, id) ==> w.alarms[id].token in w.entries
  }

  function Cancelled(w: World, id: Id): World
    requires TokenLive(w, id)
  {
    if IsSet(w, id) then Unregister(w, id) else w
  }

  function Updated(w: World, id: Id, deadline: nat, granularity: int): World
    requires id in w.alarms && TokenLive(w, id)
  {
    if deadline == 0 then Cancelled(w, id)
    else if Abs(deadline - w.alarms[id].deadline) < granularity then w
    else Register(Cancelled(w, id), id, deadline)
  }

  /** What the code demands: the alarm exists, and is not set when `set` is called. */
  predicate Legal(w: World, a: Action) {
    match a
    case Create(id) => id !in w.alarms
    case Set(id, deadline) => id in w.alarms && !IsSet(w, id) && deadline != 0
    case Update(id, _, _) => id in w.alarms
    case Cancel(id) => id in w.alarms
    case Destroy(id) => id in w.alarms
  }

  function Do(w: World, a: Action): World
    requires Legal(w, a) && TokenLive(w, a.id)
  {
    match a
    case Create(id) => w.(alarms := w.alarms[id := Alarm(0, 0)])
    case Set(id, deadline) => Register(w, id, deadline)
    case Update(id, deadline, granularity) => Updated(w, id, deadline, granularity)
    case Cancel(id) => Cancelled(w, id)
    case Destroy(id) => var c := Cancelled(w, id); c.(alarms := c.alarms - {id})
  }

  /** For the alarm alone, `update` is what SenderModel assumes of it. */
  lemma UpdateDeadline(w: World, id: Id, deadline: nat, granularity: int)
    requires id in w.alarms && TokenLive(w, id)
    ensures Do(w, Update(id, deadline, granularity)).alarms[id].deadline ==
            Deadline.Updated(w.alarms[id].deadline, deadline, granularity)
  {
  }

  /**
    An alarm that is not set, updated to a time other than zero, is set exactly when that
    time is no less than the granularity: zero, "not set", counts as a deadline to be near to.
   */
  lemma UpdateSetsIff(w: World, id: Id, deadline: nat, granularity: int)
    requires id in w.alarms && !IsSet(w, id) && deadline != 0
    ensures IsSet(Do(w, Update(id, deadline, granularity)), id) <==> deadline >= granularity
    ensures deadline < granularity ==> Do(w, Update(id, deadline, granularity)) == w
  {
    UpdateDeadline(w, id, deadline, granularity);
  }

  /** Just after the clock's start, with the default granularity: an update that is not followed. */
  lemma UpdateLost()
    ensures var w := World(0, map[0 := Alarm(0, 0)], map[], 0, []);
            Do(w, Update(0, 999, GRANULARITY)) == w && !IsSet(w, 0)
  {
    UpdateSetsIff(World(0, map[0 := Alarm(0, 0)], map[], 0, []), 0, 999, GRANULARITY);
  }

  // --------------------------------------------------------- registry invariant

  /**
    Set alarms and entries correspond one to one; only `firing`, the entry whose callback
    is running (-1 when none is), belongs to no alarm.
   */
  ghost predicate Registered(w: World, firing: int) {
    && (forall t :: t in w.entries ==> t < w.nextToken && w.entries[t].key != 0)
    && (forall t :: t in w.entries && t != firing ==>
          w.entries[t].id in w.alarms && w.alarms[w.entries[t].id] == Alarm(w.entries[t].key, t))
    && (forall id :: IsSet(w, id) ==>
          var t := w.alarms[id].token;
          t in w.entries && t != firing && w.entries[t] == Entry(w.alarms[id].deadline, id))
    && (firing < 0 || firing in w.entries)
  }

  lemma CancelledKeeps(w: World, id: Id, firing: int)
    requires Registered(w, firing)
    ensures TokenLive(w, id) && Registered(Cancelled(w, id), firing) && !IsSet(Cancelled(w, id), id)
  {
  }

  lemma RegisterKeeps(w: World, id: Id, deadline: nat, firing: int)
    requires Registered(w, firing) && id in w.alarms && !IsSet(w, id) && deadline != 0
    ensures Registered(Register(w, id, deadline), firing)
  {
  }

  lemma CreateKeeps(w: World, id: Id, firing: int)
    requires Registered(w, firing) && id !in w.alarms
    ensures Registered(w.(alarms := w.alarms[id := Alarm(0, 0)]), firing)
  {
  }

  lemma DestroyKeeps(w: World, id: Id, firing: int)
    requires Registered(w, firing) && !IsSet(w, id)
    ensures Registered(w.(alarms := w.alarms - {id}), firing)
  {
  }

  /** What an operation leaves alone, and that it registers only what it is told to. */
  ghost predicate Quiet(w: World, r: World, later: bool) {
    && r.now == w.now && r.history == w.history && r.nextToken >= w.nextToken
    && (forall t :: t in r.entries && t < w.nextToken ==> t in w.entries && r.entries[t] == w.entries[t])
    && (later ==> forall t :: t in r.entries && t >= w.nextToken ==> r.entries[t].key > w.now)
  }

  /** The operation sets no deadline that is due already. */
  predicate Later(now: nat, a: Action) {
    (a.Set? ==> a.deadline > now) && (a.Update? && a.deadline != 0 ==> a.deadline > now)
  }

  lemma DoKeeps(w: World, a: Action, firing: int)
    requires Registered(w, firing) && Legal(w, a)
    ensures TokenLive(w, a.id) && Registered(Do(w, a), firing)
    ensures Quiet(w, Do(w, a), Later(w.now, a))
  {
    CancelledKeeps(w, a.id, firing);
    match a
    case Create(id) => CreateKeeps(w, id, firing);
    case Set(id, deadline) => RegisterKeeps(w, id, deadline, firing);
    case Update(id, deadline, granularity) =>
      if deadline != 0 { RegisterKeeps(Cancelled(w, id), id, deadline, firing); }
    case Cancel(id) =>
    case Destroy(id) => DestroyKeeps(Cancelled(w, id), id, firing);
  }

  /** The deadline an operation leaves its alarm with; `update` keeps one less than the granularity away. */
  function DeadlineAfter(w: World, a: Action): nat
    requires Legal(w, a)
  {
    match a
    case Create(_) => 0
    case Set(_, deadline) => deadline
    case Update(id, deadline, granularity) =>
      var was := w.alarms[id].deadline;
      if deadline != 0 && -granularity < deadline - was < granularity then was else deadline
    case Cancel(_) => 0
    case Destroy(_) => 0
  }

  /**
    What every operation does: its alarm has that deadline, or is gone; nothing else
    changes, not the other alarms, not their entries, not the time.
   */
  lemma DoMeaning(w: World, a: Action, firing: int)
    requires Registered(w, firing) && Legal(w, a)
    ensures TokenLive(w, a.id)
    ensures var r := Do(w, a);
            && (a.id in r.alarms <==> !a.Destroy?)
            && (a.id in r.alarms ==> r.alarms[a.id].deadline == DeadlineAfter(w, a))
            && (forall id :: id != a.id ==> (id in r.alarms <==> id in w.alarms))
            && (forall id :: id != a.id && id in w.alarms ==> r.alarms[id] == w.alarms[id])
            && (forall t :: t in w.entries && (w.entries[t].id != a.id || t == firing) ==>
                  t in r.entries && r.entries[t] == w.entries[t])
            && r.now == w.now && r.history == w.history
  {
    DoKeeps(w, a, firing);
  }

  // ---------------------------------------------------------------- callbacks

  predicate LegalAll(w: World, acts: seq<Action>)
    decreases |acts|
  {
    acts == [] ||
    (Legal(w, acts[0]) && (TokenLive(w, acts[0].id) ==> LegalAll(Do(w, acts[0]), acts[1..])))
  }

  predicate LaterAll(now: nat, acts: seq<Action>) {
    forall i :: 0 <= i < |acts| ==> Later(now, acts[i])
  }

  lemma QuietTrans(w: World, m: World, r: World, first: bool, rest: bool)
    requires Quiet(w, m, first) && Quiet(m, r, rest)
    ensures Quiet(w, r, first && rest)
  {
  }

  /** The operations of a callback, one after the other; every token they erase through is live. */
  function Perform(w: World, acts: seq<Action>, ghost firing: int): (r: World)
    requires Registered(w, firing) && LegalAll(w, acts)
    ensures Registered(r, firing) && Quiet(w, r, LaterAll(w.now, acts))
    decreases |acts|
  {
    if acts == [] then w
    else
      DoKeeps(w, acts[0], firing);
      var m := Do(w, acts[0]);
      var r := Perform(m, acts[1..], firing);
      QuietTrans(w, m, r, Later(w.now, acts[0]), LaterAll(m.now, acts[1..]));
      r
  }

  /** The states callbacks start in: the alarm exists, its deadline is cleared, its entry is still there. */
  ghost predicate Running(w: World, id: Id, firing: int) {
    && Registered(w, firing) && firing in w.entries && w.entries[firing].id == id
    && id in w.alarms && w.alarms[id].deadline == 0
  }

  /** Callbacks, wherever they start, obey the alarms' own rules. */
  ghost predicate Polite(d: Delegates) {
    forall w: World, id: Id, firing: int :: Running(w, id, firing) ==> LegalAll(w, d(w, id))
  }

  /** Callbacks set no deadline that is due already. */
  ghost predicate Timely(d: Delegates) {
    forall w: World, id: Id, firing: int :: Running(w, id, firing) ==> LaterAll(w.now, d(w, id))
  }

  /** The callback of the retransmission alarm as far as alarms go: it sets itself one second ahead. */
  function Rearm(w: World, id: Id): seq<Action> {
    [Set(id, w.now + SECOND)]
  }

  lemma RearmIsWellBehaved()
    ensures Polite(Rearm) && Timely(Rearm)
  {
    forall w: World, id: Id, firing: int | Running(w, id, firing) ensures LegalAll(w, Rearm(w, id)) {
      assert Rearm(w, id)[1..] == [];
    }
  }

  /** The first thing `fire` does. */
  function Cleared(w: World, id: Id): World
    requires id in w.alarms
  {
    w.(alarms := w.alarms[id := w.alarms[id].(deadline := 0)])
  }

  lemma ClearedIsRunning(w: World, t: Token)
    requires Registered(w, -1) && t in w.entries
    ensures var id := w.entries[t].id; IsSet(w, id) && Running(Cleared(w, id), id, t)
  {
  }

  /** fire: the deadline is cleared while the entry is still in the map; then the callback runs. */
  function Fire(w: World, t: Token, d: Delegates): (r: World)
    requires Registered(w, -1) && t in w.entries && Polite(d)
    ensures Registered(r, t) && Quiet(w, r, Timely(d))
  {
    var id := w.entries[t].id;
    ClearedIsRunning(w, t);
    var w1 := Cleared(w, id);
    Perform(w1, d(w1, id), t)
  }

  /** The entry leaves the map once its callback has run. */
  function Erased(f: World, t: Token, entry: Entry): World {
    f.(entries := f.entries - {t}, history := f.history + [Firing(t, entry, f.now)])
  }

  lemma ErasedKeeps(f: World, t: Token, entry: Entry)
    requires Registered(f, t)
    ensures Registered(Erased(f, t, entry), -1)
  {
  }

  /** One turn of runAlarmEvent: fire, then erase the entry through the iterator taken before. */
  function FireEntry(w: World, t: Token, d: Delegates): (r: World)
    requires Registered(w, -1) && t in w.entries && Polite(d)
    ensures Registered(r, -1)
    ensures r.now == w.now && r.nextToken >= w.nextToken
    ensures r.history == w.history + [Firing(t, w.entries[t], w.now)]
    ensures forall u :: u in r.entries && u < w.nextToken ==> u in w.entries && u != t && r.entries[u] == w.entries[u]
    ensures Timely(d) ==> forall u :: u in r.entries && u >= w.nextToken ==> r.entries[u].key > w.now
  {
    var f := Fire(w, t, d);
    ErasedKeeps(f, t, w.entries[t]);
    Erased(f, t, w.entries[t])
  }

  // ------------------------------------------------------------- runAlarmEvent

  /** multimap::begin: the least key, and among equal keys the first one inserted. */
  predicate IsFirst(es: map<Token, Entry>, t: Token) {
    && t in es
    && (forall u :: u in es ==> es[t].key < es[u].key || (es[t].key == es[u].key && t <= u))
  }

  lemma {:induction false} FirstExists(es: map<Token, Entry>)
    requires es != map[]
    ensures exists t :: IsFirst(es, t)
    decreases |es|
  {
    var t :| t in es;
    var rest := es - {t};
    if rest == map[] {
      assert es.Keys == rest.Keys + {t} && rest.Keys == {};
      assert IsFirst(es, t);
    } else {
      FirstExists(rest);
      var u :| IsFirst(rest, u);
      assert forall v :: v in es ==> v == t || v in rest;
      if es[t].key < es[u].key || (es[t].key == es[u].key && t <= u) {
        assert IsFirst(es, t);
      } else {
        assert IsFirst(es, u);
      }
    }
  }

  ghost function First(es: map<Token, Entry>): (t: Token)
    requires es != map[]
    ensures IsFirst(es, t)
  {
    FirstExists(es);
    var t :| IsFirst(es, t);
    t
  }

  ghost function Due(w: World): set<Token> {
    set t | t in w.entries && w.entries[t].key <= w.now
  }

  /** Every arming fires at most once: a fired token is neither live nor fired again. */
  ghost predicate OncePerArming(w: World) {
    && (forall i :: 0 <= i < |w.history| ==>
          w.history[i].token < w.nextToken && w.history[i].token !in w.entries)
    && (forall i, j :: 0 <= i < j < |w.history| ==> w.history[i].token != w.history[j].token)
  }

  /** The order of a multimap: by deadline, and entries of equal deadline as they were inserted. */
  predicate Before(f: Firing, g: Firing) {
    f.entry.key < g.entry.key || (f.entry.key == g.entry.key && f.token < g.token)
  }

  /** The firings from w to r are of entries due in w, at the time of w, in the order of the map. */
  ghost predicate FiresDue(w: World, r: World) {
    && w.history <= r.history
    && (forall i :: |w.history| <= i < |r.history| ==>
          var f := r.history[i];
          f.at == w.now && f.token in Due(w) && f.entry == w.entries[f.token])
    && (forall i, j :: |w.history| <= i < j < |r.history| ==> Before(r.history[i], r.history[j]))
  }

  lemma FiresDueStep(w: World, t: Token, d: Delegates, r: World)
    requires Registered(w, -1) && Polite(d) && Timely(d) && IsFirst(w.entries, t) && w.entries[t].key <= w.now
    requires FiresDue(FireEntry(w, t, d), r)
    ensures FiresDue(w, r)
  {
    var m := FireEntry(w, t, d);
    forall i | |w.history| <= i < |r.history|
      ensures r.history[i].at == w.now && r.history[i].token in Due(w)
      ensures r.history[i].entry == w.entries[r.history[i].token]
    {
      if i == |w.history| { assert r.history[i] == m.history[i]; }
    }
    forall i, j | |w.history| <= i < j < |r.history|
      ensures Before(r.history[i], r.history[j])
    {
      if i == |w.history| { assert r.history[i] == m.history[i]; }
    }
  }

  lemma OncePerArmingStep(w: World, t: Token, d: Delegates)
    requires Registered(w, -1) && Polite(d) && t in w.entries
    ensures OncePerArming(w) ==> OncePerArming(FireEntry(w, t, d))
  {
  }

  lemma FirstIsUnique(es: map<Token, Entry>, t: Token)
    requires IsFirst(es, t)
    ensures es != map[] && t == First(es)
  {
  }

  lemma FireEntryShrinksDue(w: World, d: Delegates, t: Token)
    requires Registered(w, -1) && Polite(d) && Timely(d) && t in Due(w)
    ensures Due(FireEntry(w, t, d)) < Due(w)
  {
    assert t !in Due(FireEntry(w, t, d));
  }

  /** runAlarmEvent leaves nothing due; it ends because no callback adds to what is due. */
  ghost function RunEvents(w: World, d: Delegates): (r: World)
    requires Registered(w, -1) && Polite(d) && Timely(d)
    ensures Registered(r, -1) && r.now == w.now && w.history <= r.history
    ensures forall t :: t in r.entries ==> r.entries[t].key > r.now
    decreases Due(w)
  {
    if Due(w) == {} then
      assert forall t :: t in w.entries ==> t !in Due(w);
      w
    else
      assert w.entries != map[];
      var t := First(w.entries);
      var m := FireEntry(w, t, d);
      FireEntryShrinksDue(w, d, t);
      RunEvents(m, d)
  }

  lemma RunEventsTurn(w: World, d: Delegates, t: Token)
    requires Registered(w, -1) && Polite(d) && Timely(d) && IsFirst(w.entries, t) && w.entries[t].key <= w.now
    ensures RunEvents(w, d) == RunEvents(FireEntry(w, t, d), d)
    ensures Due(FireEntry(w, t, d)) < Due(w)
  {
    FirstIsUnique(w.entries, t);
    assert t in Due(w);
    FireEntryShrinksDue(w, d, t);
  }

  lemma RunEventsDone(w: World, d: Delegates)
    requires Registered(w, -1) && Polite(d) && Timely(d)
    requires forall t :: t in w.entries ==> w.entries[t].key > w.now
    ensures RunEvents(w, d) == w
  {
    assert Due(w) == {};
  }

  /** It fires only what was due, by increasing deadline, and no arming twice. */
  lemma {:induction false} RunEventsInOrder(w: World, d: Delegates)
    requires Registered(w, -1) && Polite(d) && Timely(d)
    ensures FiresDue(w, RunEvents(w, d))
    ensures OncePerArming(w) ==> OncePerArming(RunEvents(w, d))
    decreases Due(w)
  {
    if Due(w) != {} {
      var t := First(w.entries);
      var m := FireEntry(w, t, d);
      RunEventsTurn(w, d, t);
      OncePerArmingStep(w, t, d);
      RunEventsInOrder(m, d);
      FiresDueStep(w, t, d, RunEvents(m, d));
    }
  }

  // ---------------------------------------------------------------- every run

  datatype Happening = Call(a: Action) | Tick(now: nat) | Fires(t: Token)

  predicate CanHappen(w: World, h: Happening) {
    match h
    case Call(a) => Legal(w, a)
    case Tick(now) => now >= w.now
    case Fires(t) => IsFirst(w.entries, t) && w.entries[t].key <= w.now
  }

  function Happen(w: World, h: Happening, d: Delegates): (r: World)
    requires Registered(w, -1) && Polite(d) && CanHappen(w, h)
    ensures Registered(r, -1)
    ensures OncePerArming(w) ==> OncePerArming(r)
  {
    match h
    case Call(a) => DoKeeps(w, a, -1); Do(w, a)
    case Tick(now) => w.(now := now)
    case Fires(t) => OncePerArmingStep(w, t, d); FireEntry(w, t, d)
  }

  predicate CanAllHappen(w: World, hs: seq<Happening>, d: Delegates)
    requires Registered(w, -1) && Polite(d)
    decreases |hs|
  {
    hs == [] || (CanHappen(w, hs[0]) && CanAllHappen(Happen(w, hs[0], d), hs[1..], d))
  }

  /**
    Through any sequence of operations, clock moves and firings, whatever the callbacks
    do to their own alarm and to others, each set alarm has exactly one live entry, keyed
    by its deadline, an alarm that is not set has none, and no arming fires twice.
   */
  function HappenAll(w: World, hs: seq<Happening>, d: Delegates): (r: World)
    requires Registered(w, -1) && OncePerArming(w) && Polite(d) && CanAllHappen(w, hs, d)
    ensures forall id :: IsSet(r, id) ==>
              exists t :: t in r.entries && r.entries[t] == Entry(r.alarms[id].deadline, id) &&
                          forall u :: u in r.entries && r.entries[u].id == id ==> u == t
    ensures forall t :: t in r.entries ==> IsSet(r, r.entries[t].id)
    ensures OncePerArming(r)
    decreases |hs|
  {
    if hs == [] then
      OneEntryEach(w);
      w
    else
      HappenAll(Happen(w, hs[0], d), hs[1..], d)
  }

  lemma OneEntryEach(w: World)
    requires Registered(w, -1)
    ensures forall id :: IsSet(w, id) ==>
              exists t :: t in w.entries && w.entries[t] == Entry(w.alarms[id].deadline, id) &&
                          forall u :: u in w.entries && w.entries[u].id == id ==> u == t
  {
    forall id | IsSet(w, id)
      ensures exists t :: t in w.entries && w.entries[t] == Entry(w.alarms[id].deadline, id) &&
                          forall u :: u in w.entries && w.entries[u].id == id ==> u == t
    {
      var t := w.alarms[id].token;
      assert t in w.entries && w.entries[t] == Entry(w.alarms[id].deadline, id);
    }
  }

  // ------------------------------------------------------------------- elapse

  ghost predicate NoneOverdue(w: World) {
    forall t :: t in w.entries ==> w.entries[t].key >= w.now
  }

  /** The firings from w to r happened each at its own deadline, in order of time. */
  ghost predicate Punctual(w: World, r: World) {
    && w.history <= r.history && w.now <= r.now
    && (forall i :: |w.history| <= i < |r.history| ==>
          r.history[i].at == r.history[i].entry.key && w.now <= r.history[i].at <= r.now)
    && (forall i, j :: |w.history| <= i < j < |r.history| ==> r.history[i].at <= r.history[j].at)
  }

  lemma PunctualTrans(w: World, m: World, r: World)
    requires Punctual(w, m) && Punctual(m, r)
    ensures Punctual(w, r)
  {
    forall i | |w.history| <= i < |r.history|
      ensures r.history[i].at == r.history[i].entry.key && w.now <= r.history[i].at <= r.now
      ensures i < |m.history| ==> r.history[i] == m.history[i] && r.history[i].at <= m.now
    {
      if i < |m.history| { assert r.history[i] == m.history[i]; }
    }
  }

  /** What is due but not overdue fires at its deadline. */
  lemma DueIsPunctual(w: World, w1: World, r: World)
    requires w1 == w.(now := w1.now) && w.now <= w1.now == r.now && NoneOverdue(w1) && FiresDue(w1, r)
    ensures Punctual(w, r)
  {
  }

  /** How far the clock jumps: to the next deadline, but not beyond delta. */
  ghost function StepSize(w: World, delta: nat): nat
    requires NoneOverdue(w)
  {
    if w.entries == map[] then delta else Min(delta, w.entries[First(w.entries)].key - w.now)
  }

  /** The clock jumps; nothing becomes overdue. */
  ghost function Ticked(w: World, delta: nat): (r: World)
    requires Registered(w, -1) && NoneOverdue(w)
    ensures Registered(r, -1) && NoneOverdue(r)
  {
    w.(now := w.now + StepSize(w, delta))
  }

  /** One turn of the loop of elapse: jump, then fire. */
  ghost function Jump(w: World, d: Delegates, delta: nat): World
    requires Registered(w, -1) && Polite(d) && Timely(d) && NoneOverdue(w)
  {
    RunEvents(Ticked(w, delta), d)
  }

  /** A turn that does not move the clock fires something. */
  lemma JumpProgress(w: World, d: Delegates, delta: nat)
    requires Registered(w, -1) && Polite(d) && Timely(d) && NoneOverdue(w) && delta > 0
    ensures StepSize(w, delta) == 0 ==> Due(Jump(w, d, delta)) < Due(w)
  {
    assert Due(Jump(w, d, delta)) == {};
    assert StepSize(w, delta) == 0 ==> First(w.entries) in Due(w);
  }

  lemma JumpIsPunctual(w: World, d: Delegates, delta: nat)
    requires Registered(w, -1) && Polite(d) && Timely(d) && NoneOverdue(w)
    ensures Punctual(w, Jump(w, d, delta))
    ensures OncePerArming(w) ==> OncePerArming(Jump(w, d, delta))
  {
    RunEventsInOrder(Ticked(w, delta), d);
    DueIsPunctual(w, Ticked(w, delta), Jump(w, d, delta));
  }

  // ---------------------------------------------------------------- nothing lost

  /** No operation of the list is on the alarm. */
  predicate Avoids(acts: seq<Action>, id: Id) {
    forall i :: 0 <= i < |acts| ==> acts[i].id != id
  }

  /** No other alarm's callback, wherever it starts, operates on the alarm. */
  ghost predicate LeftAlone(d: Delegates, id: Id) {
    forall w: World, other: Id, firing: int :: other != id && Running(w, other, firing) ==> Avoids(d(w, other), id)
  }

  lemma {:induction false} PerformKeepsEntry(w: World, acts: seq<Action>, firing: int, t: Token)
    requires Registered(w, firing) && LegalAll(w, acts) && t in w.entries && t != firing
    requires Avoids(acts, w.entries[t].id)
    ensures var r := Perform(w, acts, firing); t in r.entries && r.entries[t] == w.entries[t]
    decreases |acts|
  {
    if acts != [] {
      DoKeeps(w, acts[0], firing);
      PerformKeepsEntry(Do(w, acts[0]), acts[1..], firing, t);
    }
  }

  lemma FireEntryKeepsOther(w: World, u: Token, d: Delegates, t: Token)
    requires Registered(w, -1) && Polite(d) && u in w.entries && t in w.entries && u != t
    requires LeftAlone(d, w.entries[t].id)
    ensures var r := FireEntry(w, u, d); t in r.entries && r.entries[t] == w.entries[t]
  {
    var id := w.entries[u].id;
    ClearedIsRunning(w, u);
    var w1 := Cleared(w, id);
    PerformKeepsEntry(w1, d(w1, id), u, t);
  }

  ghost predicate HasFired(w: World, r: World, t: Token) {
    exists i :: |w.history| <= i < |r.history| && r.history[i].token == t
  }

  lemma HasFiredWider(w: World, m: World, r: World, n: World, t: Token)
    requires HasFired(m, r, t) && w.history <= m.history && r.history <= n.history
    ensures HasFired(w, n, t)
  {
    var i :| |m.history| <= i < |r.history| && r.history[i].token == t;
    assert n.history[i].token == t;
  }

  /** An entry due and left alone is fired. */
  lemma {:induction false} RunEventsFires(w: World, d: Delegates, t: Token)
    requires Registered(w, -1) && Polite(d) && Timely(d)
    requires t in Due(w) && LeftAlone(d, w.entries[t].id)
    ensures HasFired(w, RunEvents(w, d), t)
    decreases Due(w)
  {
    var u := First(w.entries);
    var m := FireEntry(w, u, d);
    RunEventsTurn(w, d, u);
    var r := RunEvents(m, d);
    if u == t {
      assert m.history[|w.history|].token == t;
      HasFiredWider(w, w, m, r, t);
    } else {
      FireEntryKeepsOther(w, u, d, t);
      RunEventsFires(m, d, t);
      HasFiredWider(w, m, r, r, t);
    }
  }

  lemma {:induction false} RunEventsKeeps(w: World, d: Delegates, t: Token)
    requires Registered(w, -1) && Polite(d) && Timely(d)
    requires t in w.entries && t !in Due(w) && LeftAlone(d, w.entries[t].id)
    ensures var r := RunEvents(w, d); t in r.entries && r.entries[t] == w.entries[t]
    decreases Due(w)
  {
    if Due(w) != {} {
      var u := First(w.entries);
      var m := FireEntry(w, u, d);
      RunEventsTurn(w, d, u);
      FireEntryKeepsOther(w, u, d, t);
      RunEventsKeeps(m, d, t);
    }
  }

  /** One turn of elapse fires such an entry, or leaves it for later turns. */
  lemma JumpFires(w: World, d: Delegates, delta: nat, t: Token)
    requires Registered(w, -1) && Polite(d) && Timely(d) && NoneOverdue(w)
    requires t in w.entries && LeftAlone(d, w.entries[t].id)
    ensures var m := Jump(w, d, delta);
            if w.entries[t].key <= m.now then HasFired(w, m, t) else t in m.entries && m.entries[t] == w.entries[t]
  {
    var w1, m := Ticked(w, delta), Jump(w, d, delta);
    if w.entries[t].key <= m.now {
      RunEventsFires(w1, d, t);
      HasFiredWider(w, w1, m, m, t);
    } else {
      RunEventsKeeps(w1, d, t);
    }
  }

  /** Every entry of w whose alarm no other callback operates on has fired by r or still waits in r. */
  ghost predicate NothingLost(w: World, r: World, d: Delegates) {
    forall t :: t in w.entries && LeftAlone(d, w.entries[t].id) ==>
      HasFired(w, r, t) || (t in r.entries && r.entries[t] == w.entries[t])
  }

  lemma NothingLostTurn(w: World, m: World, d: Delegates, delta: nat)
    requires Registered(m, -1) && Polite(d) && Timely(d) && NoneOverdue(m)
    requires NothingLost(w, m, d) && w.history <= m.history
    ensures NothingLost(w, Jump(m, d, delta), d)
  {
    var r := Jump(m, d, delta);
    forall t | t in w.entries && LeftAlone(d, w.entries[t].id)
      ensures HasFired(w, r, t) || (t in r.entries && r.entries[t] == w.entries[t])
    {
      if HasFired(w, m, t) {
        HasFiredWider(w, w, m, r, t);
      } else {
        JumpFires(m, d, delta, t);
        if HasFired(m, r, t) { HasFiredWider(w, m, r, r, t); }
      }
    }
  }
}
