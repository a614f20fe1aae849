// The multi-level scheduler of kernel/src/sched/scheduler.rs together with
// the two blocking tables of kernel/src/sched/blocking.rs that `schedule`
// writes to.
//
// The statics RT_QUEUE, CFS_QUEUE, IDLE_QUEUE, CURRENT_TASK, BLOCKED_TASKS,
// WAKEUP_PENDING, ACCUMULATED_RUNTIME and NEED_RESCHED become the fields of
// one `Scheduler` object.  `SchedState` is a value snapshot of those fields;
// each method is specified by a function on snapshots, and the lemmas about
// those functions state what the scheduler promises.

module SchedScheduler {
  import opened Base
  import opened SchedContext
  import opened SchedTask
  import opened KeyedQueue

  datatype SchedState = SchedState(
    rtQueue: seq<(Key, Task)>,
    cfsQueue: seq<(Key, Task)>,
    idleQueue: seq<Task>,
    current: Option<Task>,
    blocked: map<nat, Task>,
    wakeupPending: set<nat>,
    accumulated: nat,
    needResched: bool)

  /** The RT key `(99 - rt_priority, id)`: higher priorities sort first. */
  function RtKey(t: Task): (k: Key)
    requires t.rtPriority <= RT_PRIORITY_MAX
    ensures k.id == t.id && k.major <= RT_PRIORITY_MAX
  {
    Key(RT_PRIORITY_MAX - t.rtPriority, t.id)
  }

  /** The CFS key `(vruntime, id)`. */
  function CfsKey(t: Task): (k: Key)
    ensures k.id == t.id && k.major == t.vruntime
  {
    Key(t.vruntime, t.id)
  }

  /** A Realtime task's rt_priority fits the `99 - rt_priority` subtraction. */
  predicate Enqueueable(t: Task)
  {
    t.schedClass == Realtime ==> t.rtPriority <= RT_PRIORITY_MAX
  }

  function TaskIds(ts: seq<Task>): multiset<nat>
  {
    if ts == [] then multiset{} else multiset{ts[0].id} + TaskIds(ts[1..])
  }

  function CurrentIds(c: Option<Task>): multiset<nat>
  {
    if c.Some? then multiset{c.value.id} else multiset{}
  }

  /** The ids of every task the scheduler owns, with multiplicity. */
  ghost function AllIds(s: SchedState): multiset<nat>
  {
    Ids(s.rtQueue) + Ids(s.cfsQueue) + TaskIds(s.idleQueue) +
    multiset(s.blocked.Keys) + CurrentIds(s.current)
  }

  ghost predicate RtEntry(e: (Key, Task))
  {
    e.1.schedClass == Realtime && WellFormed(e.1) && e.0 == RtKey(e.1)
  }

  ghost predicate CfsEntry(e: (Key, Task))
  {
    e.1.schedClass == Normal && WellFormed(e.1) && e.0 == CfsKey(e.1)
  }

  ghost predicate RtQueueOk(q: seq<(Key, Task)>)
  {
    Sorted(q) && forall e :: e in q ==> RtEntry(e)
  }

  ghost predicate CfsQueueOk(q: seq<(Key, Task)>)
  {
    Sorted(q) && forall e :: e in q ==> CfsEntry(e)
  }

  ghost predicate IdleQueueOk(q: seq<Task>)
  {
    forall t :: t in q ==> t.schedClass == Idle && WellFormed(t)
  }

  ghost predicate BlockedOk(m: map<nat, Task>)
  {
    forall id :: id in m ==> m[id].id == id && WellFormed(m[id])
  }

  /** Each queue holds its own class under the key the enqueue path computes. */
  ghost predicate Shaped(s: SchedState)
  {
    RtQueueOk(s.rtQueue) && CfsQueueOk(s.cfsQueue) && IdleQueueOk(s.idleQueue) &&
    BlockedOk(s.blocked) && (s.current.Some? ==> WellFormed(s.current.value)) &&
    s.accumulated < U64_LIMIT
  }

  /** No task id is owned twice. */
  ghost predicate Distinct(s: SchedState)
  {
    forall id :: AllIds(s)[id] <= 1
  }

  /** The scheduler invariant. */
  ghost predicate Valid(s: SchedState)
  {
    Shaped(s) && Distinct(s)
  }

  function Initial(): (s: SchedState)
    ensures AllIds(s) == multiset{}
  {
    SchedState([], [], [], None, map[], {}, 0, false)
  }

  lemma InitialValid()
    ensures Valid(Initial())
  {
    assert AllIds(Initial()) == multiset{};
  }

  /**
   * `enqueue_task_single` / `enqueue_to_appropriate_queue` (every caller
   * passes the task's own class): exactly the task's class queue grows.
   */
  function Enqueue(s: SchedState, t: Task): (r: SchedState)
    requires Sorted(s.rtQueue) && Sorted(s.cfsQueue) && Enqueueable(t)
    ensures Sorted(r.rtQueue) && Sorted(r.cfsQueue)
    ensures r.current == s.current && r.blocked == s.blocked
    ensures r.wakeupPending == s.wakeupPending && r.accumulated == s.accumulated
    ensures r.needResched == s.needResched
    ensures t.schedClass == Realtime ==>
      (RtKey(t), t) in r.rtQueue &&
      (forall e :: e in r.rtQueue ==> e == (RtKey(t), t) || e in s.rtQueue) &&
      (forall e :: e in s.rtQueue && e.0 != RtKey(t) ==> e in r.rtQueue) &&
      r.cfsQueue == s.cfsQueue && r.idleQueue == s.idleQueue
    ensures t.schedClass == Normal ==>
      (CfsKey(t), t) in r.cfsQueue &&
      (forall e :: e in r.cfsQueue ==> e == (CfsKey(t), t) || e in s.cfsQueue) &&
      (forall e :: e in s.cfsQueue && e.0 != CfsKey(t) ==> e in r.cfsQueue) &&
      r.rtQueue == s.rtQueue && r.idleQueue == s.idleQueue
    ensures t.schedClass == Idle ==>
      r.idleQueue == s.idleQueue + [t] && r.rtQueue == s.rtQueue && r.cfsQueue == s.cfsQueue
  {
    match t.schedClass
    case Realtime => s.(rtQueue := Insert(s.rtQueue, RtKey(t), t))
    case Normal => s.(cfsQueue := Insert(s.cfsQueue, CfsKey(t), t))
    case Idle => s.(idleQueue := s.idleQueue + [t])
  }

  lemma {:induction false} TaskIdsAppend(ts: seq<Task>, t: Task)
    ensures TaskIds(ts + [t]) == TaskIds(ts) + multiset{t.id}
    decreases |ts|
  {
    if ts != [] {
      assert (ts + [t])[1..] == ts[1..] + [t];
      TaskIdsAppend(ts[1..], t);
    }
  }

  lemma DistinctAfterAdding(s: SchedState, r: SchedState, id: nat)
    requires Distinct(s) && id !in AllIds(s) && AllIds(r) == AllIds(s) + multiset{id}
    ensures Distinct(r)
  {
    forall i ensures AllIds(r)[i] <= 1 {
      if i == id {
        assert AllIds(r)[i] == AllIds(s)[i] + 1;
      } else {
        assert AllIds(r)[i] == AllIds(s)[i];
      }
    }
  }

  lemma RtInsertOk(q: seq<(Key, Task)>, t: Task)
    requires RtQueueOk(q) && WellFormed(t) && t.schedClass == Realtime
    ensures RtQueueOk(Insert(q, RtKey(t), t))
  {
  }

  lemma CfsInsertOk(q: seq<(Key, Task)>, t: Task)
    requires CfsQueueOk(q) && WellFormed(t) && t.schedClass == Normal
    ensures CfsQueueOk(Insert(q, CfsKey(t), t))
  {
  }

  lemma EnqueueShaped(s: SchedState, t: Task)
    requires Shaped(s) && WellFormed(t)
    ensures Enqueueable(t) && Shaped(Enqueue(s, t))
  {
    match t.schedClass
    case Realtime => RtInsertOk(s.rtQueue, t);
    case Normal => CfsInsertOk(s.cfsQueue, t);
    case Idle =>
  }

  lemma EnqueueIds(s: SchedState, t: Task)
    requires Sorted(s.rtQueue) && Sorted(s.cfsQueue) && Enqueueable(t) && t.id !in AllIds(s)
    ensures AllIds(Enqueue(s, t)) == AllIds(s) + multiset{t.id}
  {
    match t.schedClass
    case Realtime => RtEnqueueIds(s, t);
    case Normal => CfsEnqueueIds(s, t);
    case Idle => IdleEnqueueIds(s, t);
  }

  lemma RtEnqueueIds(s: SchedState, t: Task)
    requires Sorted(s.rtQueue) && Sorted(s.cfsQueue) && t.schedClass == Realtime
    requires Enqueueable(t) && t.id !in AllIds(s)
    ensures AllIds(Enqueue(s, t)) == AllIds(s) + multiset{t.id}
  {
    RtInsertIds(s, t);
    RtEnqueueIsInsert(s, t);
  }

  lemma RtInsertIds(s: SchedState, t: Task)
    requires Sorted(s.rtQueue) && Enqueueable(t) && t.schedClass == Realtime && t.id !in AllIds(s)
    ensures AllIds(s.(rtQueue := Insert(s.rtQueue, RtKey(t), t))) == AllIds(s) + multiset{t.id}
  {
    InsertFreshIds(s.rtQueue, RtKey(t), t);
  }

  lemma RtEnqueueIsInsert(s: SchedState, t: Task)
    requires Sorted(s.rtQueue) && Sorted(s.cfsQueue) && t.schedClass == Realtime && Enqueueable(t)
    ensures Enqueue(s, t) == s.(rtQueue := Insert(s.rtQueue, RtKey(t), t))
  {
  }

  lemma CfsEnqueueIds(s: SchedState, t: Task)
    requires Sorted(s.rtQueue) && Sorted(s.cfsQueue) && t.schedClass == Normal
    requires t.id !in AllIds(s)
    ensures AllIds(Enqueue(s, t)) == AllIds(s) + multiset{t.id}
  {
    CfsInsertIds(s, t);
    CfsEnqueueIsInsert(s, t);
  }

  lemma CfsInsertIds(s: SchedState, t: Task)
    requires Sorted(s.cfsQueue) && t.id !in AllIds(s)
    ensures AllIds(s.(cfsQueue := Insert(s.cfsQueue, CfsKey(t), t))) == AllIds(s) + multiset{t.id}
  {
    InsertFreshIds(s.cfsQueue, CfsKey(t), t);
  }

  lemma CfsEnqueueIsInsert(s: SchedState, t: Task)
    requires Sorted(s.rtQueue) && Sorted(s.cfsQueue) && t.schedClass == Normal
    ensures Enqueue(s, t) == s.(cfsQueue := Insert(s.cfsQueue, CfsKey(t), t))
  {
  }

  lemma IdleEnqueueIds(s: SchedState, t: Task)
    requires Sorted(s.rtQueue) && Sorted(s.cfsQueue) && t.schedClass == Idle
    requires t.id !in AllIds(s)
    ensures AllIds(Enqueue(s, t)) == AllIds(s) + multiset{t.id}
  {
    TaskIdsAppend(s.idleQueue, t);
  }

  /**
   * Enqueueing a well-formed task under a fresh id keeps the invariant and
   * adds exactly that task to what the scheduler owns.
   */
  lemma EnqueueKeepsValid(s: SchedState, t: Task)
    requires Valid(s) && WellFormed(t) && t.id !in AllIds(s)
    ensures Enqueueable(t)
    ensures Valid(Enqueue(s, t))
    ensures AllIds(Enqueue(s, t)) == AllIds(s) + multiset{t.id}
  {
    EnqueueShaped(s, t);
    EnqueueIds(s, t);
    DistinctAfterAdding(s, Enqueue(s, t), t.id);
  }

  /**
   * Phase 1 of `schedule`: pop the first RT entry, else the first CFS
   * entry, else the front of the Idle FIFO.
   */
  function PickNext(s: SchedState): (r: (Option<Task>, SchedState))
    ensures r.0.None? <==> s.rtQueue == [] && s.cfsQueue == [] && s.idleQueue == []
    ensures r.0.None? ==> r.1 == s
    ensures r.1 == s.(rtQueue := r.1.rtQueue, cfsQueue := r.1.cfsQueue, idleQueue := r.1.idleQueue)
  {
    if s.rtQueue != [] then (Some(s.rtQueue[0].1), s.(rtQueue := s.rtQueue[1..]))
    else if s.cfsQueue != [] then (Some(s.cfsQueue[0].1), s.(cfsQueue := s.cfsQueue[1..]))
    else if s.idleQueue != [] then (Some(s.idleQueue[0]), s.(idleQueue := s.idleQueue[1..]))
    else (None, s)
  }

  lemma PickNextSorted(s: SchedState)
    requires Sorted(s.rtQueue) && Sorted(s.cfsQueue)
    ensures Sorted(PickNext(s).1.rtQueue) && Sorted(PickNext(s).1.cfsQueue)
  {
    if s.rtQueue != [] {
      SortedTail(s.rtQueue);
    } else if s.cfsQueue != [] {
      SortedTail(s.cfsQueue);
    }
  }

  /** The popped task leaves exactly its own id behind. */
  lemma PickNextIds(s: SchedState)
    requires RtQueueOk(s.rtQueue) && CfsQueueOk(s.cfsQueue) && PickNext(s).0.Some?
    ensures AllIds(PickNext(s).1) + multiset{PickNext(s).0.value.id} == AllIds(s)
  {
    if s.rtQueue != [] {
      PopRtIds(s);
    } else if s.cfsQueue != [] {
      PopCfsIds(s);
    } else {
      assert TaskIds(s.idleQueue) == multiset{s.idleQueue[0].id} + TaskIds(s.idleQueue[1..]);
    }
  }

  lemma PopRtIds(s: SchedState)
    requires RtQueueOk(s.rtQueue) && s.rtQueue != []
    ensures AllIds(s.(rtQueue := s.rtQueue[1..])) + multiset{s.rtQueue[0].1.id} == AllIds(s)
  {
    assert s.rtQueue[0] in s.rtQueue;
    assert Ids(s.rtQueue) == multiset{s.rtQueue[0].0.id} + Ids(s.rtQueue[1..]);
  }

  lemma PopCfsIds(s: SchedState)
    requires CfsQueueOk(s.cfsQueue) && s.cfsQueue != []
    ensures AllIds(s.(cfsQueue := s.cfsQueue[1..])) + multiset{s.cfsQueue[0].1.id} == AllIds(s)
  {
    assert s.cfsQueue[0] in s.cfsQueue;
    assert Ids(s.cfsQueue) == multiset{s.cfsQueue[0].0.id} + Ids(s.cfsQueue[1..]);
  }

  lemma PickNextShaped(s: SchedState)
    requires Shaped(s) && PickNext(s).0.Some?
    ensures Shaped(PickNext(s).1) && WellFormed(PickNext(s).0.value)
  {
    var rest := PickNext(s).1;
    if s.rtQueue != [] {
      assert s.rtQueue[0] in s.rtQueue;
      SortedTail(s.rtQueue);
      assert forall e :: e in rest.rtQueue ==> e in s.rtQueue;
    } else if s.cfsQueue != [] {
      assert s.cfsQueue[0] in s.cfsQueue;
      SortedTail(s.cfsQueue);
      assert forall e :: e in rest.cfsQueue ==> e in s.cfsQueue;
    } else {
      assert s.idleQueue[0] in s.idleQueue;
      assert forall u :: u in rest.idleQueue ==> u in s.idleQueue;
    }
  }

  /**
   * The selection rule: Realtime before Normal before Idle; within RT the
   * highest rt_priority (then the lowest id), within CFS the lowest
   * vruntime (then the lowest id), within Idle the oldest.
   */
  lemma PickNextIsBest(s: SchedState)
    requires Shaped(s) && PickNext(s).0.Some?
    ensures var (next, rest) := PickNext(s);
      var t := next.value;
      (t.schedClass == Realtime <==> s.rtQueue != []) &&
      (t.schedClass == Normal <==> s.rtQueue == [] && s.cfsQueue != []) &&
      (t.schedClass == Idle <==> s.rtQueue == [] && s.cfsQueue == []) &&
      (t.schedClass == Realtime ==> forall e :: e in rest.rtQueue ==>
        e.1.rtPriority < t.rtPriority || (e.1.rtPriority == t.rtPriority && t.id < e.1.id)) &&
      (t.schedClass == Normal ==> forall e :: e in rest.cfsQueue ==>
        t.vruntime < e.1.vruntime || (t.vruntime == e.1.vruntime && t.id < e.1.id)) &&
      (t.schedClass == Idle ==> t == s.idleQueue[0] && rest.idleQueue == s.idleQueue[1..])
  {
    var (next, rest) := PickNext(s);
    var t := next.value;
    if s.rtQueue != [] {
      var q := s.rtQueue;
      assert q[0] in q;
      forall e | e in rest.rtQueue
        ensures e.1.rtPriority < t.rtPriority || (e.1.rtPriority == t.rtPriority && t.id < e.1.id)
      {
        HeadIsLeast(q, e);
        assert e in q;
      }
    } else if s.cfsQueue != [] {
      var q := s.cfsQueue;
      assert q[0] in q;
      forall e | e in rest.cfsQueue
        ensures t.vruntime < e.1.vruntime || (t.vruntime == e.1.vruntime && t.id < e.1.id)
      {
        HeadIsLeast(q, e);
        assert e in q;
      }
    } else {
      assert s.idleQueue[0] in s.idleQueue;
    }
  }

  /** The runtime charged to a Normal outgoing task: the accumulator, or 1 if it is 0. */
  function ChargedRuntime(accumulated: nat): (d: nat)
    ensures d >= 1 && (accumulated > 0 ==> d == accumulated)
  {
    if accumulated > 0 then accumulated else 1
  }

  /** `schedule` panics on `delta * 1024` overflow when charging a Normal task. */
  predicate ScheduleSafe(s: SchedState)
  {
    s.current.Some? && s.current.value.schedClass == Normal && s.current.value.weight > 0 ==>
      ChargedRuntime(s.accumulated) * BASE_WEIGHT < U64_LIMIT
  }

  /**
   * The outgoing task as phase 2 leaves it: a Normal task is charged, and
   * a Running task becomes Ready; Blocked and Terminated stay as they are.
   */
  function Outgoing(prev: Task, accumulated: nat): (o: Task)
    requires prev.vruntime < U64_LIMIT
    requires prev.schedClass == Normal && prev.weight > 0 ==>
      ChargedRuntime(accumulated) * BASE_WEIGHT < U64_LIMIT
    ensures o == prev.(vruntime := o.vruntime, state := o.state)
    ensures o.state == (if prev.state == Running then Ready else prev.state)
    ensures prev.schedClass != Normal ==> o.vruntime == prev.vruntime
    ensures prev.schedClass == Normal ==>
      o.vruntime == UpdateVruntime(prev, ChargedRuntime(accumulated)).vruntime
    ensures WellFormed(prev) ==> WellFormed(o)
  {
    var charged := if prev.schedClass == Normal
      then UpdateVruntime(prev, ChargedRuntime(accumulated)) else prev;
    if charged.state == Running then charged.(state := Ready) else charged
  }

  /**
   * Phase 3: a Terminated outgoing task is dropped, a Blocked one is filed
   * in BLOCKED_TASKS under its id, any other one is enqueued by class.
   */
  function Dispose(s: SchedState, o: Task): (r: SchedState)
    requires Sorted(s.rtQueue) && Sorted(s.cfsQueue) && Enqueueable(o)
    ensures o.state == Terminated ==> r == s
    ensures o.state == Blocked ==> r == s.(blocked := s.blocked[o.id := o])
    ensures o.state != Terminated && o.state != Blocked ==> r == Enqueue(s, o)
  {
    match o.state
    case Terminated => s
    case Blocked => s.(blocked := s.blocked[o.id := o])
    case _ => Enqueue(s, o)
  }

  /** `schedule()`, phases 1 to 3, without the context switch itself. */
  function ScheduleStep(s: SchedState): (r: SchedState)
    requires Valid(s) && ScheduleSafe(s)
    ensures PickNext(s).0.None? ==> r == s
    ensures PickNext(s).0.Some? ==>
      r.current == Some(PickNext(s).0.value.(state := Running))
    ensures PickNext(s).0.Some? ==>
      r.accumulated == (if s.current.Some? then 0 else s.accumulated)
    ensures r.wakeupPending == s.wakeupPending && r.needResched == s.needResched
  {
    var (next, rest) := PickNext(s);
    if next.None? then s
    else
      var running := next.value.(state := Running);
      if s.current.None? then rest.(current := Some(running))
      else
        PickNextSorted(s);
        Dispose(Switched(s), Outgoing(s.current.value, s.accumulated))
  }

  /** Phase 3 keeps the invariant and files the outgoing task unless it terminated. */
  lemma DisposeKeepsValid(s: SchedState, o: Task)
    requires Valid(s) && WellFormed(o) && o.id !in AllIds(s)
    ensures Enqueueable(o)
    ensures Valid(Dispose(s, o))
    ensures AllIds(Dispose(s, o)) ==
      if o.state == Terminated then AllIds(s) else AllIds(s) + multiset{o.id}
  {
    if o.state == Blocked {
      BlockedInsertShaped(s, o);
      BlockedInsertIds(s, o);
      DistinctAfterAdding(s, s.(blocked := s.blocked[o.id := o]), o.id);
    } else if o.state != Terminated {
      EnqueueKeepsValid(s, o);
    }
  }

  lemma BlockedInsertShaped(s: SchedState, o: Task)
    requires Shaped(s) && WellFormed(o)
    ensures Shaped(s.(blocked := s.blocked[o.id := o]))
  {
  }

  lemma BlockedInsertIds(s: SchedState, o: Task)
    requires o.id !in AllIds(s)
    ensures AllIds(s.(blocked := s.blocked[o.id := o])) == AllIds(s) + multiset{o.id}
  {
    var r := s.(blocked := s.blocked[o.id := o]);
    assert o.id !in s.blocked;
    assert r.blocked.Keys == s.blocked.Keys + {o.id};
    FreshKeyMultiset(s.blocked.Keys, o.id);
  }

  /** Adding a fresh element to a set adds it once to the set's multiset. */
  lemma FreshKeyMultiset(keys: set<nat>, k: nat)
    requires k !in keys
    ensures multiset(keys + {k}) == multiset(keys) + multiset{k}
  {
  }

  /**
   * Phase 2 hands the CPU over: the picked task, now Running, becomes the
   * current task and the accumulator is swapped to 0.
   */
  function Switched(s: SchedState): (r: SchedState)
    requires PickNext(s).0.Some?
    ensures r.current == Some(PickNext(s).0.value.(state := Running)) && r.accumulated == 0
  {
    PickNext(s).1.(current := Some(PickNext(s).0.value.(state := Running)), accumulated := 0)
  }

  lemma SwitchedShaped(s: SchedState)
    requires Shaped(s) && PickNext(s).0.Some?
    ensures Shaped(Switched(s))
  {
    PickNextShaped(s);
  }

  /** The outgoing id leaves the owned set, the incoming one stays. */
  lemma SwitchedIds(s: SchedState)
    requires RtQueueOk(s.rtQueue) && CfsQueueOk(s.cfsQueue)
    requires PickNext(s).0.Some? && s.current.Some?
    ensures AllIds(Switched(s)) == AllIds(s) - multiset{s.current.value.id}
  {
    PickNextIds(s);
    SwitchIds(PickNext(s).1, s.current.value, PickNext(s).0.value.(state := Running));
  }

  lemma SwitchIds(rest: SchedState, prev: Task, running: Task)
    requires rest.current == Some(prev)
    ensures AllIds(rest.(current := Some(running), accumulated := 0)) ==
      AllIds(rest) - multiset{prev.id} + multiset{running.id}
  {
  }

  lemma DistinctAfterRemoving(s: SchedState, r: SchedState, id: nat)
    requires Distinct(s) && id in AllIds(s) && AllIds(r) == AllIds(s) - multiset{id}
    ensures Distinct(r) && id !in AllIds(r)
  {
    forall i ensures AllIds(r)[i] <= 1 {
      assert AllIds(r)[i] <= AllIds(s)[i];
    }
  }

  lemma SwitchKeepsValid(s: SchedState)
    requires Valid(s) && PickNext(s).0.Some? && s.current.Some?
    ensures Valid(Switched(s)) && s.current.value.id !in AllIds(Switched(s))
    ensures AllIds(Switched(s)) == AllIds(s) - multiset{s.current.value.id}
  {
    SwitchedShaped(s);
    SwitchedIds(s);
    DistinctAfterRemoving(s, Switched(s), s.current.value.id);
  }

  /**
   * `schedule` owns the same tasks afterwards: the outgoing task is back in
   * a run queue or in BLOCKED_TASKS, and only a Terminated one is dropped.
   */
  lemma ScheduleConservesTasks(s: SchedState)
    requires Valid(s) && ScheduleSafe(s)
    ensures Valid(ScheduleStep(s))
    ensures AllIds(ScheduleStep(s)) ==
      if PickNext(s).0.Some? && s.current.Some? && s.current.value.state == Terminated
      then AllIds(s) - multiset{s.current.value.id}
      else AllIds(s)
  {
    if PickNext(s).0.Some? {
      if s.current.None? {
        FirstRunKeepsValid(s);
      } else {
        ScheduleStepSwitches(s);
        SwitchRunKeepsValid(s);
      }
    }
  }

  lemma FirstRunKeepsValid(s: SchedState)
    requires Valid(s) && PickNext(s).0.Some? && s.current.None?
    ensures Valid(ScheduleStep(s)) && AllIds(ScheduleStep(s)) == AllIds(s)
  {
    var (next, rest) := PickNext(s);
    PickNextShaped(s);
    PickNextIds(s);
    var running := next.value.(state := Running);
    assert WellFormed(running) && rest.current.None?;
    assert ScheduleStep(s) == rest.(current := Some(running));
    InstallKeepsValid(rest, running, AllIds(s));
  }

  /** Making a popped task current in a state without one restores what was owned. */
  lemma InstallKeepsValid(rest: SchedState, t: Task, all: multiset<nat>)
    requires Shaped(rest) && WellFormed(t) && rest.current.None?
    requires AllIds(rest) + multiset{t.id} == all
    requires forall id :: all[id] <= 1
    ensures Valid(rest.(current := Some(t))) && AllIds(rest.(current := Some(t))) == all
  {
    var r := rest.(current := Some(t));
    assert AllIds(r) == AllIds(rest) + multiset{t.id};
  }

  /** A switch away from a current task: phase 3 files it back unless it terminated. */
  lemma SwitchRunKeepsValid(s: SchedState)
    requires Valid(s) && ScheduleSafe(s) && PickNext(s).0.Some? && s.current.Some?
    requires Sorted(Switched(s).rtQueue) && Sorted(Switched(s).cfsQueue)
    requires Enqueueable(Outgoing(s.current.value, s.accumulated))
    ensures Valid(Dispose(Switched(s), Outgoing(s.current.value, s.accumulated)))
    ensures AllIds(Dispose(Switched(s), Outgoing(s.current.value, s.accumulated))) ==
      if s.current.value.state == Terminated then AllIds(s) - multiset{s.current.value.id} else AllIds(s)
  {
    var p := s.current.value;
    var o := Outgoing(p, s.accumulated);
    SwitchKeepsValid(s);
    CurrentOwned(s);
    assert WellFormed(p);
    assert WellFormed(o) && o.id == p.id && (o.state == Terminated <==> p.state == Terminated);
    DisposeChain(Switched(s), o, AllIds(s), p.id);
  }

  /** The current task is among the owned ones. */
  lemma CurrentOwned(s: SchedState)
    requires s.current.Some?
    ensures s.current.value.id in AllIds(s)
  {
    assert CurrentIds(s.current)[s.current.value.id] == 1;
  }

  lemma DisposeChain(sw: SchedState, o: Task, all: multiset<nat>, p: nat)
    requires Valid(sw) && WellFormed(o) && o.id == p && p in all
    requires p !in AllIds(sw) && AllIds(sw) == all - multiset{p}
    ensures Valid(Dispose(sw, o))
    ensures AllIds(Dispose(sw, o)) == if o.state == Terminated then all - multiset{p} else all
  {
    DisposeKeepsValid(sw, o);
    RestoreOwned(all, AllIds(sw), AllIds(Dispose(sw, o)), p, o.state == Terminated);
  }

  /** Taking `p` out and, unless it terminated, putting it back. */
  lemma RestoreOwned(all: multiset<nat>, without: multiset<nat>, after: multiset<nat>, p: nat, dropped: bool)
    requires p in all && without == all - multiset{p}
    requires after == if dropped then without else without + multiset{p}
    ensures after == if dropped then all - multiset{p} else all
  {
  }

  lemma ScheduleStepSwitches(s: SchedState)
    requires Valid(s) && ScheduleSafe(s) && PickNext(s).0.Some? && s.current.Some?
    ensures Sorted(Switched(s).rtQueue) && Sorted(Switched(s).cfsQueue)
    ensures Enqueueable(Outgoing(s.current.value, s.accumulated))
    ensures ScheduleStep(s) == Dispose(Switched(s), Outgoing(s.current.value, s.accumulated))
  {
    PickNextSorted(s);
  }

  /** `current_task_id`: the current task's id, or the fresh id `TaskId::new` draws. */
  function CurrentTaskId(s: SchedState, freshId: nat): (id: nat)
    ensures s.current.Some? ==> id == s.current.value.id
    ensures s.current.None? ==> id == freshId
  {
    match s.current
    case Some(t) => t.id
    case None => freshId
  }

  /** The statics as one object; `State()` is their snapshot. */
  class Scheduler {
    var rtQueue: seq<(Key, Task)>
    var cfsQueue: seq<(Key, Task)>
    var idleQueue: seq<Task>
    var current: Option<Task>
    var blocked: map<nat, Task>
    var wakeupPending: set<nat>
    var accumulated: nat
    var needResched: bool

    function State(): SchedState
      reads this
    {
      SchedState(rtQueue, cfsQueue, idleQueue, current, blocked, wakeupPending,
        accumulated, needResched)
    }

    constructor ()
      ensures State() == Initial()
    {
      rtQueue, cfsQueue, idleQueue := [], [], [];
      current := None;
      blocked, wakeupPending := map[], {};
      accumulated, needResched := 0, false;
    }

    /** `enqueue_task_single` and `enqueue_to_appropriate_queue`. */
    method EnqueueTask(t: Task)
      requires Sorted(rtQueue) && Sorted(cfsQueue) && Enqueueable(t)
      modifies this
      ensures State() == Enqueue(old(State()), t)
    {
      match t.schedClass {
        case Realtime =>
          rtQueue := Insert(rtQueue, RtKey(t), t);
        case Normal =>
          cfsQueue := Insert(cfsQueue, CfsKey(t), t);
        case Idle =>
          idleQueue := idleQueue + [t];
      }
    }

    /** `try_add_task`: enqueues by class and always succeeds. */
    method TryAddTask(t: Task) returns (r: Result<(), TaskError>)
      requires Sorted(rtQueue) && Sorted(cfsQueue) && Enqueueable(t)
      modifies this
      ensures r == Ok(())
      ensures State() == Enqueue(old(State()), t)
    {
      EnqueueTask(t);
      r := Ok(());
    }

    /** `add_task`: `try_add_task` whose result cannot be an error. */
    method AddTask(t: Task)
      requires Sorted(rtQueue) && Sorted(cfsQueue) && Enqueueable(t)
      modifies this
      ensures State() == Enqueue(old(State()), t)
    {
      var r := TryAddTask(t);
      assert r.Ok?;
    }

    /** `set_current_task`: installs the task, dropping any previous one. */
    method SetCurrentTask(t: Task)
      modifies this
      ensures State() == old(State()).(current := Some(t))
    {
      current := Some(t);
    }

    /** `update_current_task_vruntime`: `fetch_add` on the u64 accumulator, wrapping. */
    method UpdateCurrentTaskVruntime(delta: nat)
      requires delta < U64_LIMIT
      modifies this
      ensures State() == old(State()).(accumulated := (old(accumulated) + delta) % U64_LIMIT)
    {
      accumulated := (accumulated + delta) % U64_LIMIT;
    }

    method SetNeedResched()
      modifies this
      ensures State() == old(State()).(needResched := true)
    {
      needResched := true;
    }

    /** `NEED_RESCHED.swap(false)`: reads and clears the flag. */
    method TakeNeedResched() returns (was: bool)
      modifies this
      ensures was == old(needResched)
      ensures State() == old(State()).(needResched := false)
    {
      was := needResched;
      needResched := false;
    }

    /** `current_task_id`; the fallback id is drawn from `ids`. */
    method CurrentTaskIdOf(ids: TaskIdAllocator) returns (id: nat)
      requires ids.Valid()
      modifies ids
      ensures ids.Valid()
      ensures id == CurrentTaskId(State(), old(ids.next))
      ensures ids.next == if current.Some? then old(ids.next) else WrappingAdd(old(ids.next), 1)
    {
      if current.Some? {
        id := current.value.id;
      } else {
        id := ids.NewId();
      }
    }

    /** Phase 1 of `schedule()`: pop from the first non-empty queue. */
    method PopNext() returns (next: Option<Task>)
      modifies this
      ensures (next, State()) == PickNext(old(State()))
    {
      next := None;
      if rtQueue != [] {
        next := Some(rtQueue[0].1);
        rtQueue := rtQueue[1..];
      } else if cfsQueue != [] {
        next := Some(cfsQueue[0].1);
        cfsQueue := cfsQueue[1..];
      } else if idleQueue != [] {
        next := Some(idleQueue[0]);
        idleQueue := idleQueue[1..];
      }
    }

    /** Phase 3 of `schedule()`: file the outgoing task. */
    method DisposeOutgoing(prev: Task)
      requires Sorted(rtQueue) && Sorted(cfsQueue) && Enqueueable(prev)
      modifies this
      ensures State() == Dispose(old(State()), prev)
    {
      match prev.state {
        case Terminated =>
        case Blocked =>
          blocked := blocked[prev.id := prev];
        case _ =>
          EnqueueTask(prev);
      }
    }

    /** `schedule()`: the queue and bookkeeping effects, step by step. */
    method Schedule()
      requires Valid(State()) && ScheduleSafe(State())
      modifies this
      ensures State() == ScheduleStep(old(State()))
    {
      ghost var s := State();
      var next := PopNext();
      if next.None? {
        return;
      }
      PickNextSorted(s);
      var running := next.value.(state := Running);
      if current.Some? {
        var prev := current.value;
        var acc := accumulated;
        accumulated := 0;
        if prev.schedClass == Normal {
          prev := UpdateVruntime(prev, ChargedRuntime(acc));
        }
        if prev.state == Running {
          prev := prev.(state := Ready);
        }
        assert prev == Outgoing(s.current.value, s.accumulated);
        current := Some(running);
        DisposeOutgoing(prev);
      } else {
        current := Some(running);
      }
    }

    /** `yield_now`: a plain `schedule()`. */
    method YieldNow()
      requires Valid(State()) && ScheduleSafe(State())
      modifies this
      ensures State() == ScheduleStep(old(State()))
    {
      Schedule();
    }
  }
}
