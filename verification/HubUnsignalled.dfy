/**
 `clear_queue` and `set_queue_capacity` free places in a queue and signal nobody. Here is exactly
 when that is harmless: clearing an empty queue, and not raising the capacity. In all other cases
 pushes and pops alone can lead to a state in which the call loses a wakeup.
 */
module HubUnsignalled {
  import opened HubMonitor

  // ---------- States that pushes and pops can reach ----------

  /** A state after a run from an empty queue in which every step that needs a signal gives one. */
  ghost predicate Reachable(capacity: int, m: Monitor) {
    exists steps :: Leads(capacity, steps, m)
  }

  predicate Leads(capacity: int, steps: seq<Step>, m: Monitor) {
    Run(Fresh(capacity), steps) == Some(m) && NoSignalNeeded(Fresh(capacity), steps)
  }

  lemma {:induction false} RunOneMore(m: Monitor, steps: seq<Step>, step: Step)
    requires Run(m, steps).Some? && NoSignalNeeded(m, steps)
    requires Enabled(Run(m, steps).value, step) && NeedsNoSignal(Run(m, steps).value, step)
    ensures Run(m, steps + [step]) == Some(Apply(Run(m, steps).value, step))
    ensures NoSignalNeeded(m, steps + [step])
    decreases |steps|
  {
    hide Enabled, Apply, NeedsNoSignal;
    if steps == [] {
      assert steps + [step] == [step] && [step][1..] == [];
    } else {
      assert (steps + [step])[1..] == steps[1..] + [step];
      RunOneMore(Apply(m, steps[0]), steps[1..], step);
    }
  }

  lemma ReachesNext(capacity: int, m: Monitor, step: Step)
    requires Reachable(capacity, m) && Enabled(m, step) && NeedsNoSignal(m, step)
    ensures Reachable(capacity, Apply(m, step))
  {
    hide Enabled, Apply, NeedsNoSignal, Run, NoSignalNeeded;
    var steps :| Leads(capacity, steps, m);
    RunOneMore(Fresh(capacity), steps, step);
    assert Leads(capacity, steps + [step], Apply(m, step));
  }

  lemma FreshIsReachable(capacity: int)
    ensures Reachable(capacity, Fresh(capacity))
  {
    assert Leads(capacity, [], Fresh(capacity));
  }

  /** No thread sleeps beside supply that nobody is on the way to use. */
  predicate Safe(m: Monitor) {
    NoLostWakeup(m, true) && NoLostWakeup(m, false)
  }

  lemma ReachableIsSafe(capacity: int, m: Monitor)
    requires Reachable(capacity, m)
    ensures Exclusive(m) && Safe(m)
  {
    hide Run, NoSignalNeeded, Exclusive, NoLostWakeup;
    var steps :| Leads(capacity, steps, m);
    FreshIsSafe(capacity);
    RunLosesNoWakeup(Fresh(capacity), steps, true);
    RunLosesNoWakeup(Fresh(capacity), steps, false);
  }

  lemma FreshIsSafe(capacity: int)
    ensures Exclusive(Fresh(capacity)) && Safe(Fresh(capacity))
  {
    assert Sleepers(Fresh(capacity), true) == {} == Sleepers(Fresh(capacity), false);
  }

  // ---------- Whole calls ----------

  /** A queue at rest: how many items it has, and who sleeps on `not_full` or was roused from it. */
  predicate Rests(m: Monitor, capacity: int, items: nat, asleep: nat, roused: nat, next: Tid) {
    && m.capacity == capacity && m.holder == None && |m.items| == items
    && |Sleepers(m, false)| == asleep && |RousedThreads(m, false)| == roused && Sleepers(m, true) == {}
    && forall t :: t in m.threads ==> t < next
  }

  lemma AddThread(m: Monitor, m': Monitor, t: Tid, th: Thread, pops: bool)
    requires t !in m.threads && m'.threads == m.threads[t := th]
    ensures Sleepers(m', pops) == if th.Sleeping(pops) then Sleepers(m, pops) + {t} else Sleepers(m, pops)
    ensures RousedThreads(m', pops) ==
            if th.Roused(pops) then RousedThreads(m, pops) + {t} else RousedThreads(m, pops)
    ensures t !in Sleepers(m, pops) && t !in RousedThreads(m, pops)
  {
  }

  const ITEM: Item := "x"
  const PUSH := Push(ITEM, false)
  const POP := Pop(false)

  /** A call arrives, takes the mutex and finds that it may go on, or goes to sleep. */
  lemma Enter(capacity: int, m: Monitor, t: Tid, call: Call) returns (entered: Monitor)
    requires Reachable(capacity, m) && m.holder == None && t !in m.threads && !call.nowait
    ensures Reachable(capacity, entered)
    ensures entered == if Blocked(m, call) then m.(threads := m.threads[t := Thread(call, Sleep)])
                       else m.(threads := m.threads[t := Thread(call, Transfer)], holder := Some(t))
  {
    hide Reachable;
    var a := Apply(m, Arrive(t, call));
    ReachesNext(capacity, m, Arrive(t, call));
    var b := Apply(a, Lock(t));
    ReachesNext(capacity, a, Lock(t));
    entered := Apply(b, Check(t));
    ReachesNext(capacity, b, Check(t));
    assert b.threads[t] == Thread(call, Test);
    assert b.threads == m.threads[t := Thread(call, Test)];
    assert a.threads[t := Thread(call, Test)] == m.threads[t := Thread(call, Test)];
  }

  /** A push into a queue with room, while nobody waits for an item. */
  lemma PushGoesThrough(capacity: int, m: Monitor, items: nat, next: Tid) returns (pushed: Monitor)
    requires Reachable(capacity, m) && Rests(m, capacity, items, 0, 0, next) && items <= capacity
    ensures Reachable(capacity, pushed) && Rests(pushed, capacity, items + 1, 0, 0, next + 1)
  {
    hide Reachable;
    var a := Enter(capacity, m, next, PUSH);
    var b := Apply(a, Move(next));
    ReachesNext(capacity, a, Move(next));
    AddThread(m, b, next, Thread(PUSH, Signal(Ok)), true);
    var c := Apply(b, Notify(next, None));
    ReachesNext(capacity, b, Notify(next, None));
    pushed := Apply(c, Release(next));
    ReachesNext(capacity, c, Release(next));
    AddThread(m, pushed, next, Thread(PUSH, Done(Ok)), true);
    AddThread(m, pushed, next, Thread(PUSH, Done(Ok)), false);
  }

  /** A push into a full queue goes to sleep. */
  lemma PushFallsAsleep(capacity: int, m: Monitor, items: nat, asleep: nat, next: Tid) returns (waiting: Monitor)
    requires Reachable(capacity, m) && Rests(m, capacity, items, asleep, 0, next) && items > capacity
    ensures Reachable(capacity, waiting) && Rests(waiting, capacity, items, asleep + 1, 0, next + 1)
  {
    hide Reachable;
    waiting := Enter(capacity, m, next, PUSH);
    AddThread(m, waiting, next, Thread(PUSH, Sleep), true);
    AddThread(m, waiting, next, Thread(PUSH, Sleep), false);
  }

  /** A pop has taken an item and is about to signal. */
  predicate Signals(m: Monitor, capacity: int, items: nat, asleep: nat, roused: nat, t: Tid) {
    && m.capacity == capacity && m.holder == Some(t) && |m.items| == items
    && t in m.threads && m.threads[t].call == POP && m.threads[t].pc.Signal?
    && |Sleepers(m, false)| == asleep && |RousedThreads(m, false)| == roused && Sleepers(m, true) == {}
    && forall u :: u in m.threads ==> u <= t
  }

  lemma PopTakes(capacity: int, m: Monitor, items: nat, asleep: nat, roused: nat, next: Tid) returns (taken: Monitor)
    requires Reachable(capacity, m) && Rests(m, capacity, items, asleep, roused, next) && items > 0
    ensures Reachable(capacity, taken) && Signals(taken, capacity, items - 1, asleep, roused, next)
  {
    hide Reachable;
    var a := Enter(capacity, m, next, POP);
    taken := Apply(a, Move(next));
    ReachesNext(capacity, a, Move(next));
    AddThread(m, taken, next, taken.threads[next], false);
    AddThread(m, taken, next, taken.threads[next], true);
  }

  /** The signal of a pop rouses one of the sleeping pushes. */
  lemma PopSignals(capacity: int, m: Monitor, items: nat, asleep: nat, roused: nat, t: Tid) returns (rested: Monitor)
    requires Reachable(capacity, m) && Signals(m, capacity, items, asleep, roused, t) && asleep > 0
    ensures Reachable(capacity, rested) && Rests(rested, capacity, items, asleep - 1, roused + 1, t + 1)
  {
    hide Reachable, Exclusive, NoLostWakeup;
    var w: Tid :| w in Sleepers(m, false);
    var c := Apply(m, Notify(t, Some(w)));
    ReachesNext(capacity, m, Notify(t, Some(w)));
    NotifyWakesOne(m, t, Some(w), false);
    NotifyWakesOne(m, t, Some(w), true);
    rested := ReleaseRests(capacity, c, t);
  }

  /** Letting the mutex go changes nothing for those who wait. */
  lemma ReleaseRests(capacity: int, m: Monitor, t: Tid) returns (rested: Monitor)
    requires Reachable(capacity, m) && Holds(m, t) && m.threads[t].pc.Unlock?
    ensures Reachable(capacity, rested)
    ensures rested.holder == None && rested.items == m.items && rested.capacity == m.capacity
    ensures rested.threads.Keys == m.threads.Keys
    ensures forall pops :: Sleepers(rested, pops) == Sleepers(m, pops)
    ensures forall pops :: RousedThreads(rested, pops) == RousedThreads(m, pops)
  {
    hide Reachable;
    rested := Apply(m, Release(t));
    ReachesNext(capacity, m, Release(t));
    MoveAlone(m, rested, t, false);
    MoveAlone(m, rested, t, true);
  }

  // ---------- The tight state ----------

  lemma {:induction false} FillUp(capacity: int, items: nat) returns (m: Monitor, next: Tid)
    requires items <= Room(capacity)
    ensures Reachable(capacity, m) && Rests(m, capacity, items, 0, 0, next)
  {
    hide Reachable, Rests;
    if items == 0 {
      m, next := Fresh(capacity), 0;
      FreshIsReachable(capacity);
      FreshRests(capacity);
    } else {
      m, next := FillUp(capacity, items - 1);
      m := PushGoesThrough(capacity, m, items - 1, next);
      next := next + 1;
    }
  }

  /** How many items fit: one more than the capacity, none if it is negative. */
  function Room(capacity: int): nat {
    if capacity < 0 then 0 else capacity + 1
  }

  lemma FreshRests(capacity: int)
    ensures Rests(Fresh(capacity), capacity, 0, 0, 0, 0)
  {
    assert Sleepers(Fresh(capacity), true) == {} == Sleepers(Fresh(capacity), false);
    assert RousedThreads(Fresh(capacity), false) == {};
  }

  lemma {:induction false} QueueUp(capacity: int, asleep: nat) returns (m: Monitor, next: Tid)
    ensures Reachable(capacity, m) && Rests(m, capacity, Room(capacity), asleep, 0, next)
  {
    hide Reachable, Rests;
    if asleep == 0 {
      m, next := FillUp(capacity, Room(capacity));
    } else {
      m, next := QueueUp(capacity, asleep - 1);
      m := PushFallsAsleep(capacity, m, Room(capacity), asleep - 1, next);
      next := next + 1;
    }
  }

  lemma {:induction false} DrainTo(capacity: int, items: nat, asleep: nat) returns (m: Monitor, next: Tid)
    requires items <= Room(capacity)
    ensures Reachable(capacity, m) && Rests(m, capacity, items, asleep, Room(capacity) - items, next)
    decreases Room(capacity) - items
  {
    hide Reachable, Rests;
    if items == Room(capacity) {
      m, next := QueueUp(capacity, asleep);
    } else {
      m, next := DrainTo(capacity, items + 1, asleep + 1);
      m := PopTakes(capacity, m, items + 1, asleep + 1, Room(capacity) - items - 1, next);
      m := PopSignals(capacity, m, items, asleep + 1, Room(capacity) - items - 1, next);
      next := next + 1;
    }
  }

  /**
   The wakeup condition has no slack: whatever the capacity and the number of items, pushes and
   pops can leave one push asleep with just as many roused as there are free places.
   */
  lemma NoSlack(capacity: int, items: nat) returns (m: Monitor)
    requires items <= Room(capacity)
    ensures Reachable(capacity, m) && m.holder == None && m.capacity == capacity && |m.items| == items
    ensures Sleepers(m, false) != {} && |RousedThreads(m, false)| == Room(capacity) - items
  {
    var next;
    m, next := DrainTo(capacity, items, 1);
  }

  // ---------- When a missing signal matters ----------

  /** Among queues with so many items, clearing is harmless exactly when there are none. */
  lemma ClearIsSafeExactly(capacity: int, items: nat)
    requires items <= Room(capacity)
    ensures (forall m :: Reachable(capacity, m) && m.holder == None && |m.items| == items ==> Safe(Apply(m, Clear)))
            <==> items == 0
  {
    hide Reachable, Exclusive;
    if items == 0 {
      forall m | Reachable(capacity, m) && m.holder == None && |m.items| == items
        ensures Safe(Apply(m, Clear))
      {
        ReachableIsSafe(capacity, m);
        StepKeepsNoLostWakeup(m, Clear, true);
        StepKeepsNoLostWakeup(m, Clear, false);
      }
    } else {
      var m := NoSlack(capacity, items);
      MoveNobody(m, Clear, false);
      hide Sleepers, RousedThreads;
      assert !NoLostWakeup(Apply(m, Clear), false);
    }
  }

  /**
   Changing the capacity is harmless exactly when it is not raised - or when it stays negative, so
   that no push can go on anyway.
   */
  lemma SetCapacityIsSafeExactly(capacity: int, items: nat, changed: int)
    requires items <= Room(capacity)
    ensures (forall m :: Reachable(capacity, m) && m.holder == None && m.capacity == capacity && |m.items| == items ==>
               Safe(Apply(m, SetCapacity(changed))))
            <==> changed <= capacity || changed < 0
  {
    hide Reachable, Exclusive;
    if changed <= capacity || changed < 0 {
      forall m | Reachable(capacity, m) && m.holder == None && m.capacity == capacity && |m.items| == items
        ensures Safe(Apply(m, SetCapacity(changed)))
      {
        ReachableIsSafe(capacity, m);
        MoveNobody(m, SetCapacity(changed), true);
        MoveNobody(m, SetCapacity(changed), false);
        hide Sleepers, RousedThreads;
      }
    } else {
      var m := NoSlack(capacity, items);
      MoveNobody(m, SetCapacity(changed), false);
      hide Sleepers, RousedThreads;
      assert !NoLostWakeup(Apply(m, SetCapacity(changed)), false);
    }
  }
}
