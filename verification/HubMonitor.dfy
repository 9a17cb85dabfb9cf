/**
 One hub queue as a monitor: a mutex, the conditions `not_empty` and `not_full`, and any number of
 threads inside `push_queue`, `push_queue_nowait`, `pop_queue` and `pop_queue_nowait`. Each step
 of a thread between two lock operations is a step of its own, so every interleaving is covered.
 */
module HubMonitor {

  type Tid = nat
  type Item = string

  datatype Option<T> = None | Some(value: T)

  datatype Call = Push(item: Item, nowait: bool) | Pop(nowait: bool)

  /** How `pthread_cond_timedwait` came back. */
  datatype Wakeup = Signalled | Spurious | TimedOut | Failed

  datatype Reply = Ok | Content(item: Item) | Again | Error

  /** Where a thread is. */
  datatype Pc =
    | Start                      // about to lock the mutex
    | Test                       // holds the mutex, about to test the loop condition
    | Sleep                      // waits on its condition, mutex released
    | Woken(why: Wakeup)         // left the condition, needs the mutex back
    | Transfer                   // holds the mutex, about to push or pop
    | Signal(got: Reply)         // holds the mutex, about to signal
    | Unlock(reply: Reply)       // holds the mutex, about to release it
    | Done(reply: Reply)

  datatype Thread = Thread(call: Call, pc: Pc)
  {
    predicate Inside() {
      pc.Test? || pc.Transfer? || pc.Signal? || pc.Unlock?
    }

    predicate Sleeping(pops: bool) {
      call.Pop? == pops && pc.Sleep?
    }

    predicate Roused(pops: bool) {
      call.Pop? == pops && pc == Woken(Signalled)
    }
  }

  /** How an item left the queue. */
  datatype Removal = Taken(taker: Tid, item: Item) | Cleared(item: Item)

  datatype Monitor = Monitor(
    capacity: int,
    items: seq<Item>,
    enqueued: nat,               // `enqueue_items`, a 64-bit counter
    holder: Option<Tid>,
    threads: map<Tid, Thread>,
    pushed: seq<Item>,           // every item ever pushed, in order
    removed: seq<Removal>)       // every item ever removed, in order

  const COUNTER: nat := 0x1_0000_0000_0000_0000

  function Fresh(capacity: int): Monitor {
    Monitor(capacity, [], 0, None, map[], [], [])
  }

  // ---------- Steps ----------

  datatype Step =
    | Arrive(t: Tid, call: Call)
    | Lock(t: Tid)
    | Check(t: Tid)
    | Move(t: Tid)
    | Notify(t: Tid, w: Option<Tid>)
    | Release(t: Tid)
    | Rouse(t: Tid, why: Wakeup)
    | SetCapacity(capacity: int)
    | Clear

  predicate Holds(m: Monitor, t: Tid) {
    m.holder == Some(t) && t in m.threads
  }

  /** The condition of the `while` loop, which is also the test of the nowait calls. */
  predicate Blocked(m: Monitor, call: Call) {
    if call.Push? then |m.items| > m.capacity else |m.items| == 0
  }

  function Sleepers(m: Monitor, pops: bool): set<Tid> {
    set t | t in m.threads && m.threads[t].Sleeping(pops)
  }

  function RousedThreads(m: Monitor, pops: bool): set<Tid> {
    set t | t in m.threads && m.threads[t].Roused(pops)
  }

  predicate Enabled(m: Monitor, step: Step) {
    match step
    case Arrive(t, _) => t !in m.threads
    case Lock(t) => m.holder == None && t in m.threads && (m.threads[t].pc.Start? || m.threads[t].pc.Woken?)
    case Check(t) => Holds(m, t) && m.threads[t].pc.Test?
    case Move(t) => Holds(m, t) && m.threads[t].pc.Transfer? && (m.threads[t].call.Pop? ==> m.items != [])
    case Notify(t, w) =>
      && Holds(m, t)
      && m.threads[t].pc.Signal?
      && var sleepers := Sleepers(m, m.threads[t].call.Push?);
         if sleepers == {} then w == None else w.Some? && w.value in sleepers
    case Release(t) => Holds(m, t) && m.threads[t].pc.Unlock?
    case Rouse(t, why) => t in m.threads && m.threads[t].pc.Sleep? && why != Signalled
    case SetCapacity(_) => m.holder == None
    case Clear => m.holder == None
  }

  function At(m: Monitor, t: Tid, pc: Pc): Monitor
    requires t in m.threads
  {
    m.(threads := m.threads[t := m.threads[t].(pc := pc)])
  }

  /** Where a thread goes on once it has the mutex. */
  function AfterLock(pc: Pc): Pc {
    if pc == Woken(TimedOut) then Unlock(Again)
    else if pc == Woken(Failed) then Unlock(Error)
    else Test
  }

  function Apply(m: Monitor, step: Step): Monitor
    requires Enabled(m, step)
  {
    match step
    case Arrive(t, call) => m.(threads := m.threads[t := Thread(call, Start)])
    case Lock(t) => At(m, t, AfterLock(m.threads[t].pc)).(holder := Some(t))
    case Check(t) =>
      var call := m.threads[t].call;
      if !Blocked(m, call) then At(m, t, Transfer)
      else if call.nowait then At(m, t, Unlock(Again))
      else At(m, t, Sleep).(holder := None)
    case Move(t) =>
      if m.threads[t].call.Push? then
        var x := m.threads[t].call.item;
        At(m, t, Signal(Ok)).(items := m.items + [x], pushed := m.pushed + [x],
                              enqueued := (m.enqueued + 1) % COUNTER)
      else
        var x := m.items[0];
        At(m, t, Signal(Content(x))).(items := m.items[1..], removed := m.removed + [Taken(t, x)])
    case Notify(t, w) =>
      var notified := if w.Some? then At(m, w.value, Woken(Signalled)) else m;
      At(notified, t, Unlock(m.threads[t].pc.got))
    case Release(t) => At(m, t, Done(m.threads[t].pc.reply)).(holder := None)
    case Rouse(t, why) => At(m, t, Woken(why))
    case SetCapacity(capacity) => m.(capacity := capacity)
    case Clear => m.(items := [], removed := m.removed + ClearedAll(m.items))
  }

  function ClearedAll(items: seq<Item>): (rs: seq<Removal>)
    ensures |rs| == |items| && forall i :: 0 <= i < |rs| ==> rs[i] == Cleared(items[i])
  {
    seq(|items|, i requires 0 <= i < |items| => Cleared(items[i]))
  }

  /** The monitor after a run, if every step of the run was possible. */
  function Run(m: Monitor, steps: seq<Step>): Option<Monitor>
    decreases |steps|
  {
    if steps == [] then Some(m)
    else if !Enabled(m, steps[0]) then None
    else Run(Apply(m, steps[0]), steps[1..])
  }

  // ---------- Mutual exclusion ----------

  /** The holder of the mutex is the one thread inside, and it may move only when it was not blocked. */
  predicate Exclusive(m: Monitor) {
    && (forall t :: t in m.threads && m.threads[t].Inside() ==> m.holder == Some(t))
    && (m.holder.Some? ==> m.holder.value in m.threads && m.threads[m.holder.value].Inside())
    && (forall t :: t in m.threads && m.threads[t].pc.Transfer? ==> !Blocked(m, m.threads[t].call))
    && (forall t :: t in m.threads && m.threads[t].pc.Sleep? ==> !m.threads[t].call.nowait)
  }

  lemma StepKeepsExclusive(m: Monitor, step: Step)
    requires Exclusive(m) && Enabled(m, step)
    ensures Exclusive(Apply(m, step))
  {
  }

  // ---------- Accounting ----------

  function Items(removed: seq<Removal>): seq<Item> {
    seq(|removed|, i requires 0 <= i < |removed| => removed[i].item)
  }

  /** The reply a thread carries, from the moment it has one. */
  function Carried(th: Thread): Option<Reply> {
    match th.pc
    case Signal(got) => Some(got)
    case Unlock(reply) => Some(reply)
    case Done(reply) => Some(reply)
    case _ => None
  }

  function Pushers(m: Monitor): set<Tid> {
    set t | t in m.threads && Carried(m.threads[t]) == Some(Ok)
  }

  /** What went in is what came out and what is still there, in order. */
  predicate Conserved(m: Monitor) {
    && m.pushed == Items(m.removed) + m.items
    && m.enqueued == |m.pushed| % COUNTER
    && |Pushers(m)| == |m.pushed|
  }

  /** Every item that a thread took is the content that this thread replies, and it took only one. */
  predicate DeliveredOnce(m: Monitor) {
    && (forall i, j :: 0 <= i < j < |m.removed| && m.removed[i].Taken? && m.removed[j].Taken? ==>
          m.removed[i].taker != m.removed[j].taker)
    && (forall i :: 0 <= i < |m.removed| && m.removed[i].Taken? ==>
          m.removed[i].taker in m.threads && Carried(m.threads[m.removed[i].taker]) == Some(Content(m.removed[i].item)))
    && (forall t :: t in m.threads && Carried(m.threads[t]).Some? && Carried(m.threads[t]).value.Content? ==>
          Taken(t, Carried(m.threads[t]).value.item) in m.removed)
  }

  /** Only the move of a pushing thread makes a new pusher. */
  lemma PushersAfter(m: Monitor, step: Step)
    requires Exclusive(m) && Enabled(m, step)
    ensures var pushes := step.Move? && m.threads[step.t].call.Push?;
            && Pushers(Apply(m, step)) == (if pushes then Pushers(m) + {step.t} else Pushers(m))
            && (pushes ==> step.t !in Pushers(m))
  {
  }

  lemma ItemsOfConcat(a: seq<Removal>, b: seq<Removal>)
    ensures Items(a + b) == Items(a) + Items(b)
  {
  }

  lemma ItemsOfOne(r: Removal)
    ensures Items([r]) == [r.item]
  {
  }

  lemma ItemsOfCleared(items: seq<Item>)
    ensures Items(ClearedAll(items)) == items
  {
  }

  lemma StepKeepsConserved(m: Monitor, step: Step)
    requires Exclusive(m) && Conserved(m) && Enabled(m, step)
    ensures Conserved(Apply(m, step))
  {
    PushersAfter(m, step);
    if step.Move? {
      MoveKeepsConserved(m, step.t);
    } else if step.Clear? {
      hide Items, Pushers, Exclusive;
      ItemsOfConcat(m.removed, ClearedAll(m.items));
      ItemsOfCleared(m.items);
    } else {
      hide Items, Pushers, Exclusive;
    }
  }

  lemma CountOn(n: nat)
    ensures (n % COUNTER + 1) % COUNTER == (n + 1) % COUNTER
  {
  }

  lemma MoveKeepsConserved(m: Monitor, t: Tid)
    requires Exclusive(m) && Conserved(m) && Enabled(m, Move(t))
    ensures Conserved(Apply(m, Move(t)))
  {
    PushersAfter(m, Move(t));
    hide Items, Pushers, Exclusive;
    if m.threads[t].call.Push? {
      CountOn(|m.pushed|);
      var x := m.threads[t].call.item;
      assert m.pushed + [x] == Items(m.removed) + (m.items + [x]);
    } else {
      var r := Taken(t, m.items[0]);
      ItemsOfConcat(m.removed, [r]);
      ItemsOfOne(r);
      assert Items(m.removed) + m.items == Items(m.removed) + [m.items[0]] + m.items[1..];
    }
  }

  lemma StepKeepsDeliveredOnce(m: Monitor, step: Step)
    requires Exclusive(m) && DeliveredOnce(m) && Enabled(m, step)
    ensures DeliveredOnce(Apply(m, step))
  {
    if step.Move? {
      MoveKeepsDeliveredOnce(m, step.t);
    } else {
      OthersKeepDeliveredOnce(m, step);
    }
  }

  lemma MoveKeepsDeliveredOnce(m: Monitor, t: Tid)
    requires Exclusive(m) && DeliveredOnce(m) && Enabled(m, Move(t))
    ensures DeliveredOnce(Apply(m, Move(t)))
  {
    assert Carried(m.threads[t]) == None;
  }

  /** Steps other than moves hand replies on unchanged, and take nothing from the queue. */
  lemma RepliesKept(m: Monitor, step: Step)
    requires Exclusive(m) && Enabled(m, step) && !step.Move?
    ensures var m' := Apply(m, step);
            && (forall t :: t in m.threads ==>
                  t in m'.threads && (Carried(m.threads[t]).Some? ==> Carried(m'.threads[t]) == Carried(m.threads[t])))
            && (forall t :: t in m'.threads && Carried(m'.threads[t]).Some? && Carried(m'.threads[t]).value.Content? ==>
                  t in m.threads && Carried(m.threads[t]) == Carried(m'.threads[t]))
            && m'.removed == m.removed + if step.Clear? then ClearedAll(m.items) else []
  {
  }

  lemma OthersKeepDeliveredOnce(m: Monitor, step: Step)
    requires Exclusive(m) && DeliveredOnce(m) && Enabled(m, step) && !step.Move?
    ensures DeliveredOnce(Apply(m, step))
  {
    RepliesKept(m, step);
    hide Exclusive, Apply, Enabled, Carried;
  }

  // ---------- Wakeups ----------

  /** Items for a sleeping `pop`, free places for a sleeping `push`. */
  function Supply(m: Monitor, pops: bool): int {
    if pops then |m.items| else m.capacity + 1 - |m.items|
  }

  /** One unit of supply is spoken for by the holder: it will signal, or it will use the unit itself. */
  function Claim(m: Monitor, pops: bool): nat {
    if m.holder == None || m.holder.value !in m.threads then 0
    else
      var th := m.threads[m.holder.value];
      if th.call.Pop? == pops then (if th.pc.Test? || th.pc.Transfer? then 1 else 0)
      else if th.pc.Signal? then 1 else 0
  }

  /**
   No wakeup is lost: while a thread sleeps unsignalled on a condition, each unit of supply has a
   thread that was signalled for it and has not run yet, or is in the hands of the mutex holder.
   */
  predicate NoLostWakeup(m: Monitor, pops: bool) {
    Sleepers(m, pops) != {} ==> Supply(m, pops) <= |RousedThreads(m, pops)| + Claim(m, pops)
  }

  /** `clear_queue` and `set_queue_capacity` signal nobody; these uses of them need no signal. */
  predicate NeedsNoSignal(m: Monitor, step: Step) {
    && (step.Clear? ==> m.items == [])
    && (step.SetCapacity? ==> step.capacity <= m.capacity)
  }

  lemma StepKeepsNoLostWakeup(m: Monitor, step: Step, pops: bool)
    requires Exclusive(m) && NoLostWakeup(m, pops) && Enabled(m, step) && NeedsNoSignal(m, step)
    ensures NoLostWakeup(Apply(m, step), pops)
  {
    hide Exclusive, NoLostWakeup, Enabled, Apply, NeedsNoSignal;
    match step {
      case Notify(t, w) => NotifyKeepsNoLostWakeup(m, t, w, pops);
      case Lock(t) => LockKeepsNoLostWakeup(m, t, pops);
      case Check(t) => CheckKeepsNoLostWakeup(m, t, pops);
      case Move(t) => MoveKeepsNoLostWakeup(m, t, pops);
      case Release(t) => ReleaseKeepsNoLostWakeup(m, t, pops);
      case Rouse(t, why) => RouseKeepsNoLostWakeup(m, t, why, pops);
      case _ => NobodyMovesKeepsNoLostWakeup(m, step, pops);
    }
  }

  /** Supply grows with a claim on it: the thread that made it is about to signal. */
  lemma MoveKeepsNoLostWakeup(m: Monitor, t: Tid, pops: bool)
    requires Exclusive(m) && NoLostWakeup(m, pops) && Enabled(m, Move(t))
    ensures NoLostWakeup(Apply(m, Move(t)), pops)
  {
    MoveAlone(m, Apply(m, Move(t)), t, pops);
    hide Sleepers, RousedThreads, Exclusive;
  }

  lemma ReleaseKeepsNoLostWakeup(m: Monitor, t: Tid, pops: bool)
    requires NoLostWakeup(m, pops) && Enabled(m, Release(t))
    ensures NoLostWakeup(Apply(m, Release(t)), pops)
  {
    MoveAlone(m, Apply(m, Release(t)), t, pops);
    hide Sleepers, RousedThreads;
  }

  /** A sleeper that leaves by itself leaves one fewer to be woken. */
  lemma RouseKeepsNoLostWakeup(m: Monitor, t: Tid, why: Wakeup, pops: bool)
    requires Exclusive(m) && NoLostWakeup(m, pops) && Enabled(m, Rouse(t, why))
    ensures NoLostWakeup(Apply(m, Rouse(t, why)), pops)
  {
    assert m.holder != Some(t);
    hide Exclusive;
    MoveAlone(m, Apply(m, Rouse(t, why)), t, pops);
    assert t !in RousedThreads(m, pops);
    hide Sleepers, RousedThreads;
  }

  lemma NobodyMovesKeepsNoLostWakeup(m: Monitor, step: Step, pops: bool)
    requires Exclusive(m) && NoLostWakeup(m, pops) && Enabled(m, step) && NeedsNoSignal(m, step)
    requires step.Arrive? || step.SetCapacity? || step.Clear?
    ensures NoLostWakeup(Apply(m, step), pops)
  {
    MoveNobody(m, step, pops);
    hide Sleepers, RousedThreads;
  }

  /** A roused thread that takes the mutex holds its unit of supply itself. */
  lemma LockKeepsNoLostWakeup(m: Monitor, t: Tid, pops: bool)
    requires Exclusive(m) && NoLostWakeup(m, pops) && Enabled(m, Lock(t))
    ensures NoLostWakeup(Apply(m, Lock(t)), pops)
  {
    MoveAlone(m, Apply(m, Lock(t)), t, pops);
    hide Sleepers, RousedThreads, Exclusive;
  }

  /** A thread goes to sleep only when there is no supply. */
  lemma CheckKeepsNoLostWakeup(m: Monitor, t: Tid, pops: bool)
    requires Exclusive(m) && NoLostWakeup(m, pops) && Enabled(m, Check(t))
    ensures NoLostWakeup(Apply(m, Check(t)), pops)
  {
    MoveAlone(m, Apply(m, Check(t)), t, pops);
    hide Sleepers, RousedThreads, Exclusive;
    var call := m.threads[t].call;
    if !Blocked(m, call) {
      assert Apply(m, Check(t)) == At(m, t, Transfer);
    } else if call.nowait {
      assert Apply(m, Check(t)) == At(m, t, Unlock(Again));
    } else {
      assert Apply(m, Check(t)) == At(m, t, Sleep).(holder := None);
    }
  }

  lemma MoveNobody(m: Monitor, step: Step, pops: bool)
    requires Enabled(m, step) && (step.Arrive? || step.SetCapacity? || step.Clear?)
    ensures Sleepers(Apply(m, step), pops) == Sleepers(m, pops)
    ensures RousedThreads(Apply(m, step), pops) == RousedThreads(m, pops)
  {
  }

  /** A step that moves one thread only. */
  lemma MoveAlone(m: Monitor, m': Monitor, t: Tid, pops: bool)
    requires t in m.threads && t in m'.threads && m'.threads == m.threads[t := m'.threads[t]]
    requires m'.threads[t].call == m.threads[t].call
    ensures Sleepers(m', pops) ==
            if m'.threads[t].Sleeping(pops) then Sleepers(m, pops) + {t} else Sleepers(m, pops) - {t}
    ensures RousedThreads(m', pops) ==
            if m'.threads[t].Roused(pops) then RousedThreads(m, pops) + {t} else RousedThreads(m, pops) - {t}
  {
  }

  /** A signal wakes one sleeper of the opposite kind, if there is one. */
  lemma NotifyWakesOne(m: Monitor, t: Tid, w: Option<Tid>, pops: bool)
    requires Enabled(m, Notify(t, w))
    ensures var m' := Apply(m, Notify(t, w));
            if w.Some? && pops == m.threads[t].call.Push? then
              && w.value in Sleepers(m, pops) && w.value !in RousedThreads(m, pops)
              && Sleepers(m', pops) == Sleepers(m, pops) - {w.value}
              && RousedThreads(m', pops) == RousedThreads(m, pops) + {w.value}
            else
              Sleepers(m', pops) == Sleepers(m, pops) && RousedThreads(m', pops) == RousedThreads(m, pops)
  {
  }

  /** The signal turns a claim into a roused thread. */
  lemma NotifyKeepsNoLostWakeup(m: Monitor, t: Tid, w: Option<Tid>, pops: bool)
    requires Exclusive(m) && NoLostWakeup(m, pops) && Enabled(m, Notify(t, w))
    ensures NoLostWakeup(Apply(m, Notify(t, w)), pops)
  {
    NotifyWakesOne(m, t, w, pops);
    hide Exclusive, RousedThreads, Sleepers;
  }

  // ---------- Whole runs ----------

  predicate Sound(m: Monitor) {
    Exclusive(m) && Conserved(m) && DeliveredOnce(m)
  }

  lemma {:induction false} RunKeepsSound(m: Monitor, steps: seq<Step>)
    requires Sound(m) && Run(m, steps).Some?
    ensures Sound(Run(m, steps).value)
    decreases |steps|
  {
    if steps != [] {
      StepKeepsExclusive(m, steps[0]);
      StepKeepsConserved(m, steps[0]);
      StepKeepsDeliveredOnce(m, steps[0]);
      RunKeepsSound(Apply(m, steps[0]), steps[1..]);
    }
  }

  /** Every run is first in, first out, loses nothing, invents nothing and counts every push. */
  lemma FifoOverEveryRun(capacity: int, steps: seq<Step>)
    requires Run(Fresh(capacity), steps).Some?
    ensures Sound(Run(Fresh(capacity), steps).value)
  {
    assert Items([]) + [] == [];
    RunKeepsSound(Fresh(capacity), steps);
  }

  /** No capacity above `top` is ever set. */
  predicate CapacityUpTo(steps: seq<Step>, top: int) {
    forall i :: 0 <= i < |steps| && steps[i].SetCapacity? ==> steps[i].capacity <= top
  }

  predicate Bounded(m: Monitor, top: int) {
    m.capacity <= top && |m.items| <= (if top < 0 then 0 else top + 1)
  }

  lemma {:induction false} SizeNeverExceedsCapacityPlusOne(m: Monitor, steps: seq<Step>, top: int)
    requires Exclusive(m) && Bounded(m, top) && CapacityUpTo(steps, top) && Run(m, steps).Some?
    ensures Bounded(Run(m, steps).value, top)
    decreases |steps|
  {
    if steps != [] {
      StepKeepsExclusive(m, steps[0]);
      SizeNeverExceedsCapacityPlusOne(Apply(m, steps[0]), steps[1..], top);
    }
  }

  predicate NoSignalNeeded(m: Monitor, steps: seq<Step>)
    requires Run(m, steps).Some?
    decreases |steps|
  {
    steps == [] || (NeedsNoSignal(m, steps[0]) && NoSignalNeeded(Apply(m, steps[0]), steps[1..]))
  }

  lemma {:induction false} RunLosesNoWakeup(m: Monitor, steps: seq<Step>, pops: bool)
    requires Exclusive(m) && NoLostWakeup(m, pops)
    requires Run(m, steps).Some? && NoSignalNeeded(m, steps)
    ensures Exclusive(Run(m, steps).value) && NoLostWakeup(Run(m, steps).value, pops)
    decreases |steps|
  {
    if steps != [] {
      StepKeepsExclusive(m, steps[0]);
      StepKeepsNoLostWakeup(m, steps[0], pops);
      RunLosesNoWakeup(Apply(m, steps[0]), steps[1..], pops);
    }
  }

  /**
   In every interleaving of pushes and pops, whenever the mutex is free: if a thread sleeps
   unsignalled on `not_empty`, as many signalled threads are on their way as there are items, and
   if one sleeps on `not_full`, as many as there are free places.
   */
  lemma NoLostWakeupOverEveryRun(capacity: int, steps: seq<Step>)
    requires Run(Fresh(capacity), steps).Some? && NoSignalNeeded(Fresh(capacity), steps)
    ensures var m := Run(Fresh(capacity), steps).value;
            m.holder == None ==>
              && (Sleepers(m, true) != {} ==> |m.items| <= |RousedThreads(m, true)|)
              && (Sleepers(m, false) != {} ==> m.capacity + 1 - |m.items| <= |RousedThreads(m, false)|)
  {
    RunLosesNoWakeup(Fresh(capacity), steps, true);
    RunLosesNoWakeup(Fresh(capacity), steps, false);
  }

  /** So nobody sleeps beside work that nobody is about to do. */
  lemma SomebodyIsAboutToRun(capacity: int, steps: seq<Step>, pops: bool) returns (t: Tid)
    requires Run(Fresh(capacity), steps).Some? && NoSignalNeeded(Fresh(capacity), steps)
    requires var m := Run(Fresh(capacity), steps).value;
             m.holder == None && Sleepers(m, pops) != {} && Supply(m, pops) > 0
    ensures var m := Run(Fresh(capacity), steps).value;
            t in RousedThreads(m, pops) && Enabled(m, Lock(t))
  {
    var m := Run(Fresh(capacity), steps).value;
    RunLosesNoWakeup(Fresh(capacity), steps, pops);
    assert RousedThreads(m, pops) != {};
    t :| t in RousedThreads(m, pops);
  }
}
