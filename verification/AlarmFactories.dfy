/**
  The alarms and the factory they are registered in, updated in place: `Alarm`,
  `EpollAlarm`/`MockAlarm` and `EpollServer`/`MockAlarmFactory`, which share their code.
  Alarm objects are records of the `alarms` field.
 */
module AlarmFactories {
  import opened Machine
  import opened Deadline
  import opened Alarms

  class AlarmFactory {
    const delegates: Delegates
    var now: nat
    var alarms: map<Id, Alarm>
    var alarmMap: map<Token, Entry>
    var nextToken: Token
    var history: seq<Firing>          // a record of the firings, which no code reads

    function Value(): World
      reads this
    {
      World(now, alarms, alarmMap, nextToken, history)
    }

    ghost predicate Valid()
      reads this
    {
      Registered(Value(), -1)
    }

    constructor (d: Delegates)
      ensures Valid() && delegates == d && Value() == World(0, map[], map[], 0, [])
    {
      delegates := d;
      now, alarms, alarmMap, nextToken, history := 0, map[], map[], 0, [];
    }

    /** setImpl and registerAlarm: emplace the deadline and keep the iterator. */
    method SetImpl(id: Id)
      requires id in alarms
      modifies `alarms, `alarmMap, `nextToken
      ensures Value() == Register(old(Value()), id, old(alarms[id].deadline))
    {
      alarmMap := alarmMap[nextToken := Entry(alarms[id].deadline, id)];
      alarms := alarms[id := alarms[id].(token := nextToken)];
      nextToken := nextToken + 1;
    }

    /** cancelImpl and unregisterAlarm: erase through the iterator, which must be live. */
    method CancelImpl(id: Id)
      requires id in alarms && alarms[id].token in alarmMap
      modifies `alarmMap
      ensures alarmMap == old(alarmMap) - {alarms[id].token}
    {
      alarmMap := alarmMap - {alarms[id].token};
    }

    method Set(id: Id, deadline: nat)
      requires id in alarms && !IsSet(Value(), id) && deadline != 0
      modifies `alarms, `alarmMap, `nextToken
      ensures Value() == Do(old(Value()), Action.Set(id, deadline))
    {
      alarms := alarms[id := alarms[id].(deadline := deadline)];
      SetImpl(id);
    }

    method Cancel(id: Id)
      requires id in alarms && TokenLive(Value(), id)
      modifies `alarms, `alarmMap
      ensures Value() == Do(old(Value()), Action.Cancel(id))
    {
      if alarms[id].deadline == 0 {
        return;
      }
      alarms := alarms[id := alarms[id].(deadline := 0)];
      CancelImpl(id);
    }

    method Update(id: Id, deadline: nat, granularity: int)
      requires id in alarms && TokenLive(Value(), id)
      modifies `alarms, `alarmMap, `nextToken
      ensures Value() == Do(old(Value()), Action.Update(id, deadline, granularity))
    {
      if deadline == 0 {
        Cancel(id);
        return;
      }
      if Abs(deadline - alarms[id].deadline) < granularity {
        return;
      }
      var wasSet := alarms[id].deadline != 0;
      alarms := alarms[id := alarms[id].(deadline := deadline)];
      if wasSet {
        UpdateImpl(id);
      } else {
        SetImpl(id);
      }
    }

    /** updateImpl: leave the map under the old entry, come back under the new deadline. */
    method UpdateImpl(id: Id)
      requires id in alarms && alarms[id].token in alarmMap
      modifies `alarms, `alarmMap, `nextToken
      ensures var w := old(Value());
              Value() == Register(w.(entries := w.entries - {w.alarms[id].token}), id, w.alarms[id].deadline)
    {
      var deadline := alarms[id].deadline;
      alarms := alarms[id := alarms[id].(deadline := 0)];
      CancelImpl(id);
      alarms := alarms[id := alarms[id].(deadline := deadline)];
      SetImpl(id);
    }

    /** One operation of a callback. */
    method Perform1(a: Action, ghost firing: int)
      requires Registered(Value(), firing) && Legal(Value(), a)
      modifies `alarms, `alarmMap, `nextToken
      ensures TokenLive(old(Value()), a.id) && Value() == Do(old(Value()), a)
      ensures Registered(Value(), firing)
    {
      DoKeeps(Value(), a, firing);
      match a {
        case Create(id) =>
          alarms := alarms[id := Alarm(0, 0)];
        case Set(id, deadline) =>
          Set(id, deadline);
        case Update(id, deadline, granularity) =>
          Update(id, deadline, granularity);
        case Cancel(id) =>
          Cancel(id);
        case Destroy(id) =>
          Cancel(id);
          alarms := alarms - {id};
      }
    }

    /** fire: clear the deadline, then run the callback with the entry still in the map. */
    method Fire(id: Id, ghost t: Token)
      requires Valid() && Polite(delegates) && t in alarmMap && alarmMap[t].id == id
      modifies `alarms, `alarmMap, `nextToken
      ensures Value() == Alarms.Fire(old(Value()), t, delegates)
    {
      ClearedIsRunning(Value(), t);
      alarms := alarms[id := alarms[id].(deadline := 0)];
      ghost var w := Value();
      assert Running(w, id, t);
      var acts := delegates(Value(), id);
      assert acts[0..] == acts;
      for i := 0 to |acts|
        invariant Registered(Value(), t) && LegalAll(Value(), acts[i..])
        invariant Perform(Value(), acts[i..], t) == Perform(w, acts, t)
      {
        assert acts[i..][1..] == acts[i + 1..];
        Perform1(acts[i], t);
      }
    }

    /** multimap::begin */
    method Begin() returns (t: Token)
      requires alarmMap != map[]
      ensures t == First(alarmMap)
    {
      t :| t in alarmMap;
      var rest := alarmMap.Keys - {t};
      while rest != {}
        invariant t in alarmMap && t !in rest && rest <= alarmMap.Keys
        invariant forall u :: u in alarmMap && u !in rest ==>
                    alarmMap[t].key < alarmMap[u].key || (alarmMap[t].key == alarmMap[u].key && t <= u)
      {
        var u :| u in rest;
        rest := rest - {u};
        if alarmMap[u].key < alarmMap[t].key || (alarmMap[u].key == alarmMap[t].key && u < t) {
          t := u;
        }
      }
      assert IsFirst(alarmMap, t);
    }

    /** One turn of runAlarmEvent: the entry is erased after its callback has run. */
    method FireEntry(t: Token)
      requires Valid() && Polite(delegates) && t in alarmMap
      modifies `alarms, `alarmMap, `nextToken, `history
      ensures Value() == Alarms.FireEntry(old(Value()), t, delegates)
    {
      var entry := alarmMap[t];
      Fire(entry.id, t);
      alarmMap := alarmMap - {t};
      history := history + [Firing(t, entry, now)];
    }

    /** runAlarmEvent */
    method RunAlarmEvent()
      requires Valid() && Polite(delegates) && Timely(delegates)
      modifies `alarms, `alarmMap, `nextToken, `history
      ensures Value() == RunEvents(old(Value()), delegates)
    {
      while alarmMap != map[]
        invariant Valid()
        invariant RunEvents(Value(), delegates) == RunEvents(old(Value()), delegates)
        decreases Due(Value())
      {
        var t := Begin();
        if now < alarmMap[t].key {
          break;
        }
        RunEventsTurn(Value(), delegates, t);
        FireEntry(t);
      }
      RunEventsDone(Value(), delegates);
    }

    /** The clock jumps to the next deadline at most. */
    method Tick(left: nat) returns (step: nat)
      requires Valid() && NoneOverdue(Value())
      modifies `now
      ensures step == StepSize(old(Value()), left) && Value() == Ticked(old(Value()), left)
    {
      step := left;
      if alarmMap != map[] {
        var t := Begin();
        step := Min(left, alarmMap[t].key - now);
      }
      now := now + step;
    }

    /** One turn of elapse: the clock jumps, and what has become due fires. */
    method Advance(left: nat) returns (step: nat)
      requires Valid() && Polite(delegates) && Timely(delegates) && NoneOverdue(Value())
      modifies this
      ensures step == StepSize(old(Value()), left) && Value() == Jump(old(Value()), delegates, left)
    {
      step := Tick(left);
      RunAlarmEvent();
    }

    /**
      MockAlarmFactory::elapse ends with the clock advanced by exactly delta and only later
      deadlines left; every firing happens when the clock shows its deadline, in order of
      time, once per arming; and no alarm that was due is passed over.
     */
    method Elapse(delta: int)
      requires Valid() && Polite(delegates) && Timely(delegates) && NoneOverdue(Value())
      modifies this
      ensures Valid() && now == old(now) + Max(delta, 0)
      ensures delta > 0 ==> forall t :: t in alarmMap ==> alarmMap[t].key > now
      ensures Punctual(old(Value()), Value())
      ensures old(OncePerArming(Value())) ==> OncePerArming(Value())
      ensures delta > 0 ==> forall t ::
                t in old(alarmMap) && LeftAlone(delegates, old(alarmMap)[t].id) && old(alarmMap)[t].key <= now ==>
                  HasFired(old(Value()), Value(), t)
    {
      var left := delta;
      while left > 0
        invariant Valid() && now + Max(left, 0) == old(now) + Max(delta, 0)
        invariant NothingLost(old(Value()), Value(), delegates)
        invariant if left == delta then NoneOverdue(Value())
                  else forall t :: t in alarmMap ==> alarmMap[t].key > now
        invariant Punctual(old(Value()), Value())
        invariant old(OncePerArming(Value())) ==> OncePerArming(Value())
        decreases left, Due(Value())
      {
        ghost var w := Value();
        JumpProgress(w, delegates, left);
        JumpIsPunctual(w, delegates, left);
        PunctualTrans(old(Value()), w, Jump(w, delegates, left));
        NothingLostTurn(old(Value()), w, delegates, left);
        var step := Advance(left);
        left := left - step;
      }
    }
  }
}
