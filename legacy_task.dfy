// The older scheduler generation of kernel/src/task.rs, which is the one
// kernel/src/main.rs builds into the kernel (it declares `mod task;`).
//
// It differs from the generation under kernel/src/sched/ in its rules:
// one priority byte selects the class (0 Idle, 1 to 99 Normal, 100 and up
// Realtime) and the weight; the RT key is `(255 - priority, id)`; `schedule`
// charges vruntime only when some runtime accumulated; and there is no
// wake-up-pending set, so `block_current_task` always blocks and
// `unblock_task` of a task that has not blocked yet does nothing.
// `Context::new` is the same code in both files (SchedContext.ContextInit).

module LegacyTask {
  import opened Base
  import opened SchedContext
  import opened KeyedQueue
  import SchedTask

  const PRIORITY_IDLE: nat := 0
  const PRIORITY_MIN: nat := 1
  const PRIORITY_DEFAULT: nat := 10
  const PRIORITY_MAX: nat := 255
  /** Priorities from here up are Realtime. */
  const PRIORITY_RT_MIN: nat := 100
  const BASE_WEIGHT: nat := 1024

  datatype SchedulingClass = Realtime | Normal | Idle

  datatype TaskState = Running | Ready | Blocked | Terminated

  datatype Task = Task(
    id: nat,
    name: string,
    priority: nat,
    schedClass: SchedulingClass,
    weight: nat,
    vruntime: nat,
    context: Context,
    state: TaskState)

  /** `priority_to_class`. */
  function PriorityToClass(priority: nat): (c: SchedulingClass)
    ensures c == Idle <==> priority == PRIORITY_IDLE
    ensures c == Realtime <==> priority >= PRIORITY_RT_MIN
    ensures c == Normal <==> PRIORITY_MIN <= priority < PRIORITY_RT_MIN
  {
    if priority == PRIORITY_IDLE then Idle
    else if priority >= PRIORITY_RT_MIN then Realtime
    else Normal
  }

  /** The table index `39 - min(priority * 40 / 256, 39)`. */
  function WeightIndex(priority: nat): (i: nat)
    requires priority <= PRIORITY_MAX
    ensures i < 40
  {
    39 - Min(priority * 40 / 256, 39)
  }

  /**
   * `priority_to_weight`: the 0..255 range squeezed onto the same 40-entry
   * table as `nice_to_weight`, low priorities at the light end.
   */
  function PriorityToWeight(priority: nat): (w: nat)
    requires priority <= PRIORITY_MAX
    ensures 15 <= w <= 88761
  {
    assert |SchedTask.PRIO_TO_WEIGHT| == 40;
    SchedTask.PRIO_TO_WEIGHT[WeightIndex(priority)]
  }

  /**
   * The ends of the mapping, and the default priority 10, which the code
   * maps to 18 (the doc comment of `priority_to_weight` says 1024).
   */
  lemma PriorityToWeightValues()
    ensures PriorityToWeight(PRIORITY_IDLE) == 15
    ensures PriorityToWeight(PRIORITY_MAX) == 88761
    ensures PriorityToWeight(PRIORITY_DEFAULT) == 18
    ensures PriorityToWeight(PRIORITY_DEFAULT) != BASE_WEIGHT
  {
    assert WeightIndex(PRIORITY_IDLE) == 39;
    assert WeightIndex(PRIORITY_MAX) == 0;
    assert WeightIndex(PRIORITY_DEFAULT) == 38;
  }

  lemma ScaledMonotone(a: nat, b: nat)
    requires a <= b
    ensures a * 40 / 256 <= b * 40 / 256
  {
    var q := a * 40 / 256;
    assert q * 256 <= a * 40 <= b * 40;
  }

  /** A higher priority never gets a smaller weight. */
  lemma PriorityToWeightMonotone(a: nat, b: nat)
    requires a <= b <= PRIORITY_MAX
    ensures PriorityToWeight(a) <= PriorityToWeight(b)
  {
    ScaledMonotone(a, b);
    SchedTask.WeightTableStrictlyDecreasing();
    var ia, ib := WeightIndex(a), WeightIndex(b);
    assert ib <= ia;
    if ib < ia {
      assert SchedTask.PRIO_TO_WEIGHT[ib] > SchedTask.PRIO_TO_WEIGHT[ia];
    }
  }

  /** The fields a task of this generation keeps: a priority byte and a u64 vruntime. */
  ghost predicate Fits(t: Task)
  {
    t.priority <= PRIORITY_MAX && t.vruntime < U64_LIMIT
  }

  /**
   * `Task::new(name, priority, entry)`: priority 0 is refused first; then
   * the context; class and weight come from the priority.
   */
  function NewTask(id: nat, name: string, priority: nat, entryPoint: nat, stackTop: nat)
    : (r: Result<Task, TaskError>)
    requires priority <= PRIORITY_MAX
    ensures priority < PRIORITY_MIN ==> r == Err(InvalidPriority)
    ensures priority >= PRIORITY_MIN ==>
      (r.Err? <==> ContextInit(entryPoint, stackTop).Err?) &&
      (r.Err? ==> r.error == ContextInit(entryPoint, stackTop).error)
    ensures r.Ok? ==> r.value.schedClass != Idle && r.value.state == Ready
    ensures r.Ok? ==> r.value.schedClass == PriorityToClass(priority)
    ensures r.Ok? ==> r.value.weight == PriorityToWeight(priority) && r.value.priority == priority
    ensures r.Ok? ==> r.value.vruntime == 0 && r.value.id == id && Fits(r.value)
  {
    if priority < PRIORITY_MIN then Err(InvalidPriority)
    else match ContextInit(entryPoint, stackTop)
      case Err(e) => Err(e)
      case Ok(context) =>
        Ok(Task(id, name, priority, PriorityToClass(priority), PriorityToWeight(priority),
          0, context, Ready))
  }

  /** `Task::new_idle(name, entry)`: priority 0, class Idle, weight 15. */
  function NewIdle(id: nat, name: string, entryPoint: nat, stackTop: nat)
    : (r: Result<Task, TaskError>)
    ensures r.Err? <==> ContextInit(entryPoint, stackTop).Err?
    ensures r.Err? ==> r.error == ContextInit(entryPoint, stackTop).error
    ensures r.Ok? ==> r.value.schedClass == Idle && r.value.priority == PRIORITY_IDLE
    ensures r.Ok? ==> r.value.weight == 15 && r.value.vruntime == 0 && r.value.state == Ready
    ensures r.Ok? ==> r.value.id == id && Fits(r.value)
  {
    match ContextInit(entryPoint, stackTop)
    case Err(e) => Err(e)
    case Ok(context) =>
      PriorityToWeightValues();
      Ok(Task(id, name, PRIORITY_IDLE, Idle, PriorityToWeight(PRIORITY_IDLE), 0, context, Ready))
  }

  /**
   * `update_vruntime(delta)`: weight 0 leaves the task alone; otherwise
   * vruntime grows by `delta * 1024 / weight`, saturating.
   */
  function UpdateVruntime(t: Task, delta: nat): (r: Task)
    requires t.vruntime < U64_LIMIT && (t.weight > 0 ==> delta * BASE_WEIGHT < U64_LIMIT)
    ensures r == t.(vruntime := r.vruntime)
    ensures t.vruntime <= r.vruntime < U64_LIMIT
    ensures t.weight == 0 ==> r == t
    ensures t.weight > 0 && t.vruntime + delta * BASE_WEIGHT / t.weight < U64_LIMIT ==>
      r.vruntime * t.weight <= t.vruntime * t.weight + delta * BASE_WEIGHT
    ensures t.weight > 0 && t.vruntime * t.weight + delta * BASE_WEIGHT < U64_LIMIT * t.weight ==>
      r.vruntime * t.weight <= t.vruntime * t.weight + delta * BASE_WEIGHT < (r.vruntime + 1) * t.weight
    ensures t.weight > 0 && t.vruntime * t.weight + delta * BASE_WEIGHT >= U64_LIMIT * t.weight ==>
      r.vruntime == U64_MAX
  {
    if t.weight == 0 then t
    else
      SchedTask.ChargeBracket(t.vruntime, delta * BASE_WEIGHT, t.weight);
      t.(vruntime := SaturatingAdd(t.vruntime, delta * BASE_WEIGHT / t.weight))
  }

  /**
   * CFS fairness in this generation: over the same runtime, a heavier
   * task's vruntime advances no further than a lighter one's.
   */
  lemma HeavierAdvancesLess(t1: Task, t2: Task, delta: nat)
    requires t1.vruntime == t2.vruntime < U64_LIMIT && delta * BASE_WEIGHT < U64_LIMIT
    requires t1.weight >= t2.weight > 0
    ensures UpdateVruntime(t1, delta).vruntime <= UpdateVruntime(t2, delta).vruntime
  {
    SchedTask.DivisorAntitone(delta * BASE_WEIGHT, t2.weight, t1.weight);
  }

  datatype LegacyState = LegacyState(
    rtQueue: seq<(Key, Task)>,
    cfsQueue: seq<(Key, Task)>,
    idleQueue: seq<Task>,
    current: Option<Task>,
    blocked: map<nat, Task>,
    accumulated: nat,
    needResched: bool)

  /** The RT key `(255 - priority, id)`. */
  function RtKey(t: Task): (k: Key)
    requires t.priority <= PRIORITY_MAX
    ensures k.id == t.id && k.major <= PRIORITY_MAX
  {
    Key(PRIORITY_MAX - t.priority, t.id)
  }

  function CfsKey(t: Task): (k: Key)
    ensures k.id == t.id && k.major == t.vruntime
  {
    Key(t.vruntime, t.id)
  }

  /**
   * The head of an RT queue filed under `RtKey` is a task of the highest
   * priority, and the lowest id among those: `pop_first` takes it.
   */
  lemma RtHeadIsHighest(q: seq<(Key, Task)>, e: (Key, Task))
    requires Sorted(q) && q != [] && e in q[1..]
    requires forall x :: x in q ==> x.1.priority <= PRIORITY_MAX && x.0 == RtKey(x.1)
    ensures q[0].1.priority > e.1.priority || (q[0].1.priority == e.1.priority && q[0].1.id < e.1.id)
  {
    HeadIsLeast(q, e);
    assert q[0] in q;
  }

  /** The queues are ordered and every owned task fits its fields. */
  ghost predicate Consistent(s: LegacyState)
  {
    Sorted(s.rtQueue) && Sorted(s.cfsQueue) &&
    (forall e :: e in s.rtQueue ==> Fits(e.1)) &&
    (forall e :: e in s.cfsQueue ==> Fits(e.1)) &&
    (forall t :: t in s.idleQueue ==> Fits(t)) &&
    (forall id :: id in s.blocked ==> Fits(s.blocked[id])) &&
    (s.current.Some? ==> Fits(s.current.value))
  }

  function Initial(): (s: LegacyState)
    ensures Consistent(s) && s.current.None? && s.blocked == map[]
  {
    LegacyState([], [], [], None, map[], 0, false)
  }

  /** `enqueue_task`: the task goes to its class's queue under its key. */
  function Enqueue(s: LegacyState, t: Task): (r: LegacyState)
    requires Sorted(s.rtQueue) && Sorted(s.cfsQueue) && t.priority <= PRIORITY_MAX
    ensures Sorted(r.rtQueue) && Sorted(r.cfsQueue)
    ensures r.current == s.current && r.blocked == s.blocked
    ensures r.accumulated == s.accumulated && r.needResched == s.needResched
    ensures t.schedClass == Realtime ==>
      (RtKey(t), t) in r.rtQueue &&
      (forall e :: e in r.rtQueue ==> e == (RtKey(t), t) || e in s.rtQueue) &&
      (forall e :: e in s.rtQueue && e.0 != RtKey(t) ==> e in r.rtQueue) &&
      r.cfsQueue == s.cfsQueue && r.idleQueue == s.idleQueue
    ensures t.schedClass == Normal ==>
      (CfsKey(t), t) in r.cfsQueue &&
      (forall e :: e in r.cfsQueue ==> e == (CfsKey(t), t) || e in s.cfsQueue) &&
      (forall e :: e in s.cfsQueue && e.0 != CfsKey(t) ==> e in r.cfsQueue) &&
      r.rtQueue == s.rtQueue && r.idleQueue == s.idleQueue
    ensures t.schedClass == Idle ==>
      r.idleQueue == s.idleQueue + [t] && r.rtQueue == s.rtQueue && r.cfsQueue == s.cfsQueue
  {
    match t.schedClass
    case Realtime => s.(rtQueue := Insert(s.rtQueue, RtKey(t), t))
    case Normal => s.(cfsQueue := Insert(s.cfsQueue, CfsKey(t), t))
    case Idle => s.(idleQueue := s.idleQueue + [t])
  }

  lemma EnqueueKeepsConsistent(s: LegacyState, t: Task)
    requires Consistent(s) && Fits(t)
    ensures Consistent(Enqueue(s, t))
  {
  }

  /** The first step of `schedule`: pop from the first non-empty queue in RT, CFS, Idle order. */
  function PickNext(s: LegacyState): (r: (Option<Task>, LegacyState))
    ensures r.0.None? <==> s.rtQueue == [] && s.cfsQueue == [] && s.idleQueue == []
    ensures r.0.None? ==> r.1 == s
    ensures r.1 == s.(rtQueue := r.1.rtQueue, cfsQueue := r.1.cfsQueue, idleQueue := r.1.idleQueue)
  {
    if s.rtQueue != [] then (Some(s.rtQueue[0].1), s.(rtQueue := s.rtQueue[1..]))
    else if s.cfsQueue != [] then (Some(s.cfsQueue[0].1), s.(cfsQueue := s.cfsQueue[1..]))
    else if s.idleQueue != [] then (Some(s.idleQueue[0]), s.(idleQueue := s.idleQueue[1..]))
    else (None, s)
  }

  /** Popping keeps the queues ordered, and the popped task fits. */
  lemma PickNextKeepsConsistent(s: LegacyState)
    requires Consistent(s)
    ensures Consistent(PickNext(s).1)
    ensures PickNext(s).0.Some? ==> Fits(PickNext(s).0.value)
  {
    if s.rtQueue != [] {
      SortedTail(s.rtQueue);
      assert s.rtQueue[0] in s.rtQueue;
      assert forall e :: e in s.rtQueue[1..] ==> e in s.rtQueue;
    } else if s.cfsQueue != [] {
      SortedTail(s.cfsQueue);
      assert s.cfsQueue[0] in s.cfsQueue;
      assert forall e :: e in s.cfsQueue[1..] ==> e in s.cfsQueue;
    } else if s.idleQueue != [] {
      assert s.idleQueue[0] in s.idleQueue;
      assert forall t :: t in s.idleQueue[1..] ==> t in s.idleQueue;
    }
  }

  /**
   * Every queued task waits in its own class's queue, the keyed ones under
   * the key `enqueue_task` files it by.
   */
  ghost predicate Shaped(s: LegacyState)
  {
    Consistent(s) &&
    (forall e :: e in s.rtQueue ==>
      e.1.schedClass == Realtime && e.1.priority <= PRIORITY_MAX && e.0 == RtKey(e.1)) &&
    (forall e :: e in s.cfsQueue ==> e.1.schedClass == Normal && e.0 == CfsKey(e.1)) &&
    (forall t :: t in s.idleQueue ==> t.schedClass == Idle)
  }

  /**
   * The selection rule of this generation: Realtime before Normal before
   * Idle; within RT the highest priority (then the lowest id), within CFS
   * the lowest vruntime (then the lowest id), within Idle the oldest.  The
   * task leaves its own queue and the other two queues are unchanged.
   */
  lemma PickNextIsBest(s: LegacyState)
    requires Shaped(s) && PickNext(s).0.Some?
    ensures var (next, rest) := PickNext(s);
      var t := next.value;
      (t.schedClass == Realtime <==> s.rtQueue != []) &&
      (t.schedClass == Normal <==> s.rtQueue == [] && s.cfsQueue != []) &&
      (t.schedClass == Idle <==> s.rtQueue == [] && s.cfsQueue == []) &&
      (t.schedClass == Realtime ==>
        s.rtQueue == [(RtKey(t), t)] + rest.rtQueue &&
        rest.cfsQueue == s.cfsQueue && rest.idleQueue == s.idleQueue &&
        forall e :: e in rest.rtQueue ==>
          e.1.priority < t.priority || (e.1.priority == t.priority && t.id < e.1.id)) &&
      (t.schedClass == Normal ==>
        s.cfsQueue == [(CfsKey(t), t)] + rest.cfsQueue &&
        rest.rtQueue == s.rtQueue && rest.idleQueue == s.idleQueue &&
        forall e :: e in rest.cfsQueue ==>
          t.vruntime < e.1.vruntime || (t.vruntime == e.1.vruntime && t.id < e.1.id)) &&
      (t.schedClass == Idle ==>
        s.idleQueue == [t] + rest.idleQueue &&
        rest.rtQueue == s.rtQueue && rest.cfsQueue == s.cfsQueue)
  {
    var (next, rest) := PickNext(s);
    var t := next.value;
    if s.rtQueue != [] {
      var q := s.rtQueue;
      assert q[0] in q;
      assert q == [q[0]] + q[1..];
      forall e | e in rest.rtQueue
        ensures e.1.priority < t.priority || (e.1.priority == t.priority && t.id < e.1.id)
      {
        assert e in q;
        RtHeadIsHighest(q, e);
      }
    } else if s.cfsQueue != [] {
      var q := s.cfsQueue;
      assert q[0] in q;
      assert q == [q[0]] + q[1..];
      forall e | e in rest.cfsQueue
        ensures t.vruntime < e.1.vruntime || (t.vruntime == e.1.vruntime && t.id < e.1.id)
      {
        HeadIsLeast(q, e);
        assert e in q;
      }
    } else {
      assert s.idleQueue[0] in s.idleQueue;
      assert s.idleQueue == [s.idleQueue[0]] + s.idleQueue[1..];
    }
  }

  lemma InitialShaped()
    ensures Shaped(Initial())
  {
  }

  lemma EnqueueKeepsShaped(s: LegacyState, t: Task)
    requires Shaped(s) && Fits(t)
    ensures Shaped(Enqueue(s, t))
  {
    EnqueueKeepsConsistent(s, t);
  }

  lemma PickNextKeepsShaped(s: LegacyState)
    requires Shaped(s)
    ensures Shaped(PickNext(s).1)
  {
    PickNextKeepsConsistent(s);
    if s.rtQueue != [] {
      assert forall e :: e in s.rtQueue[1..] ==> e in s.rtQueue;
    } else if s.cfsQueue != [] {
      assert forall e :: e in s.cfsQueue[1..] ==> e in s.cfsQueue;
    } else if s.idleQueue != [] {
      assert forall t :: t in s.idleQueue[1..] ==> t in s.idleQueue;
    }
  }

  lemma DisposeKeepsShaped(s: LegacyState, o: Task)
    requires Shaped(s) && Fits(o)
    ensures Shaped(Dispose(s, o))
  {
    DisposeKeepsConsistent(s, o);
    if o.state != Terminated && o.state != Blocked {
      EnqueueKeepsShaped(s, o);
    }
  }

  /** `schedule` panics on `accumulated * 1024` overflow when charging a Normal task. */
  predicate ScheduleSafe(s: LegacyState)
  {
    s.current.Some? && s.current.value.schedClass == Normal && s.current.value.weight > 0 ==>
      s.accumulated * BASE_WEIGHT < U64_LIMIT
  }

  /**
   * The outgoing task as `schedule` leaves it: a Normal task is charged
   * only if some runtime accumulated, and a Running task becomes Ready.
   */
  function Outgoing(prev: Task, accumulated: nat): (o: Task)
    requires prev.vruntime < U64_LIMIT
    requires prev.schedClass == Normal && prev.weight > 0 ==> accumulated * BASE_WEIGHT < U64_LIMIT
    ensures o == prev.(vruntime := o.vruntime, state := o.state)
    ensures o.state == (if prev.state == Running then Ready else prev.state)
    ensures accumulated == 0 || prev.schedClass != Normal ==> o.vruntime == prev.vruntime
    ensures accumulated > 0 && prev.schedClass == Normal ==>
      o.vruntime == UpdateVruntime(prev, accumulated).vruntime
    ensures Fits(prev) ==> Fits(o)
  {
    var charged := if accumulated > 0 && prev.schedClass == Normal
      then UpdateVruntime(prev, accumulated) else prev;
    if charged.state == Running then charged.(state := Ready) else charged
  }

  /** Terminated is dropped, Blocked goes to BLOCKED_TASKS, anything else is enqueued. */
  function Dispose(s: LegacyState, o: Task): (r: LegacyState)
    requires Sorted(s.rtQueue) && Sorted(s.cfsQueue) && o.priority <= PRIORITY_MAX
    ensures o.state == Terminated ==> r == s
    ensures o.state == Blocked ==> r == s.(blocked := s.blocked[o.id := o])
    ensures o.state != Terminated && o.state != Blocked ==> r == Enqueue(s, o)
  {
    match o.state
    case Terminated => s
    case Blocked => s.(blocked := s.blocked[o.id := o])
    case _ => Enqueue(s, o)
  }

  lemma DisposeKeepsConsistent(s: LegacyState, o: Task)
    requires Consistent(s) && Fits(o)
    ensures Consistent(Dispose(s, o))
  {
    if o.state != Terminated && o.state != Blocked {
      EnqueueKeepsConsistent(s, o);
    }
  }

  /** `schedule()` without the context switch. */
  function ScheduleStep(s: LegacyState): (r: LegacyState)
    requires Consistent(s) && ScheduleSafe(s)
    ensures Consistent(r)
    ensures PickNext(s).0.None? ==> r == s
    ensures PickNext(s).0.Some? ==>
      r.current == Some(PickNext(s).0.value.(state := Running))
    ensures PickNext(s).0.Some? ==>
      r.accumulated == (if s.current.Some? then 0 else s.accumulated)
    ensures r.needResched == s.needResched
  {
    PickNextKeepsConsistent(s);
    var (next, rest) := PickNext(s);
    if next.None? then s
    else
      var running := next.value.(state := Running);
      if s.current.None? then rest.(current := Some(running))
      else
        var o := Outgoing(s.current.value, s.accumulated);
        var switched := rest.(current := Some(running), accumulated := 0);
        assert Consistent(switched);
        DisposeKeepsConsistent(switched, o);
        Dispose(switched, o)
  }

  /** `schedule` keeps every queued task in its own class's queue under its key. */
  lemma ScheduleKeepsShaped(s: LegacyState)
    requires Shaped(s) && ScheduleSafe(s)
    ensures Shaped(ScheduleStep(s))
  {
    PickNextKeepsConsistent(s);
    PickNextKeepsShaped(s);
    var (next, rest) := PickNext(s);
    if next.Some? && s.current.Some? {
      var o := Outgoing(s.current.value, s.accumulated);
      var switched := rest.(current := Some(next.value.(state := Running)), accumulated := 0);
      DisposeKeepsShaped(switched, o);
    }
  }

  /** `block_current_task`: mark the current task Blocked, then always `schedule`. */
  function Block(s: LegacyState): (r: LegacyState)
    requires Consistent(s) && ScheduleSafe(s)
    ensures Consistent(r)
    ensures s.current.None? ==> r == ScheduleStep(s)
    ensures s.current.Some? ==>
      r == ScheduleStep(s.(current := Some(s.current.value.(state := Blocked))))
  {
    match s.current
    case None => ScheduleStep(s)
    case Some(t) => ScheduleStep(s.(current := Some(t.(state := Blocked))))
  }

  /** A task that blocks while another is ready ends up in BLOCKED_TASKS. */
  lemma BlockFilesTask(s: LegacyState)
    requires Consistent(s) && ScheduleSafe(s) && s.current.Some? && PickNext(s).0.Some?
    ensures var t := s.current.value;
      t.id in Block(s).blocked && Block(s).blocked[t.id] == Outgoing(t.(state := Blocked), s.accumulated)
  {
  }

  /** `unblock_task`: a blocked task becomes Ready and is enqueued; any other id is ignored. */
  function Unblock(s: LegacyState, id: nat): (r: LegacyState)
    requires Consistent(s)
    ensures Consistent(r)
    ensures r.blocked == s.blocked - {id}
    ensures id !in s.blocked ==> r == s
    ensures id in s.blocked ==>
      r == Enqueue(s.(blocked := s.blocked - {id}), s.blocked[id].(state := Ready))
  {
    if id in s.blocked then
      var t := s.blocked[id].(state := Ready);
      EnqueueKeepsConsistent(s.(blocked := s.blocked - {id}), t);
      Enqueue(s.(blocked := s.blocked - {id}), t)
    else s
  }

  /** Blocking and waking keep every queued task in its own class's queue under its key. */
  lemma BlockUnblockKeepShaped(s: LegacyState, id: nat)
    requires Shaped(s) && ScheduleSafe(s)
    ensures Shaped(Block(s)) && Shaped(Unblock(s, id))
  {
    if s.current.Some? {
      ScheduleKeepsShaped(s.(current := Some(s.current.value.(state := Blocked))));
    } else {
      ScheduleKeepsShaped(s);
    }
    if id in s.blocked {
      EnqueueKeepsShaped(s.(blocked := s.blocked - {id}), s.blocked[id].(state := Ready));
    }
  }

  /**
   * The lost wake-up of this generation: a wake-up that arrives before its
   * task has blocked is dropped, and the block that follows files the task
   * in BLOCKED_TASKS all the same.
   */
  lemma WakeupBeforeBlockIsLost(s: LegacyState)
    requires Consistent(s) && ScheduleSafe(s) && s.current.Some? && PickNext(s).0.Some?
    requires s.current.value.id !in s.blocked
    ensures Unblock(s, s.current.value.id) == s
    ensures s.current.value.id in Block(Unblock(s, s.current.value.id)).blocked
  {
    BlockFilesTask(s);
  }

  /** Unblocks the ids in order, as `wake_all` does. */
  function UnblockAll(s: LegacyState, ids: seq<nat>): (r: LegacyState)
    requires Consistent(s)
    ensures Consistent(r)
    ensures r.blocked == s.blocked - set id | id in ids
    ensures r.current == s.current && r.accumulated == s.accumulated
    decreases |ids|
  {
    if ids == [] then s
    else
      var r := UnblockAll(Unblock(s, ids[0]), ids[1..]);
      assert (set id | id in ids) == {ids[0]} + set id | id in ids[1..];
      r
  }

  /** The statics RT_QUEUE, CFS_QUEUE, IDLE_QUEUE, CURRENT_TASK, BLOCKED_TASKS and the atomics. */
  class LegacyScheduler {
    var rtQueue: seq<(Key, Task)>
    var cfsQueue: seq<(Key, Task)>
    var idleQueue: seq<Task>
    var current: Option<Task>
    var blocked: map<nat, Task>
    var accumulated: nat
    var needResched: bool

    function State(): LegacyState
      reads this
    {
      LegacyState(rtQueue, cfsQueue, idleQueue, current, blocked, accumulated, needResched)
    }

    constructor ()
      ensures State() == Initial()
    {
      rtQueue, cfsQueue, idleQueue := [], [], [];
      current, blocked := None, map[];
      accumulated, needResched := 0, false;
    }

    method EnqueueTask(t: Task)
      requires Sorted(rtQueue) && Sorted(cfsQueue) && t.priority <= PRIORITY_MAX
      modifies this
      ensures State() == Enqueue(old(State()), t)
    {
      match t.schedClass {
        case Realtime =>
          rtQueue := Insert(rtQueue, RtKey(t), t);
        case Normal =>
          cfsQueue := Insert(cfsQueue, CfsKey(t), t);
        case Idle =>
          idleQueue := idleQueue + [t];
      }
    }

    /** `try_add_task`: always succeeds. */
    method TryAddTask(t: Task) returns (r: Result<(), TaskError>)
      requires Sorted(rtQueue) && Sorted(cfsQueue) && t.priority <= PRIORITY_MAX
      modifies this
      ensures r == Ok(()) && State() == Enqueue(old(State()), t)
    {
      EnqueueTask(t);
      r := Ok(());
    }

    method AddTask(t: Task)
      requires Sorted(rtQueue) && Sorted(cfsQueue) && t.priority <= PRIORITY_MAX
      modifies this
      ensures State() == Enqueue(old(State()), t)
    {
      var r := TryAddTask(t);
      assert r.Ok?;
    }

    method SetCurrentTask(t: Task)
      modifies this
      ensures State() == old(State()).(current := Some(t))
    {
      current := Some(t);
    }

    /** `update_current_task_vruntime`: a wrapping `fetch_add`. */
    method UpdateCurrentTaskVruntime(delta: nat)
      requires delta < U64_LIMIT
      modifies this
      ensures State() == old(State()).(accumulated := (old(accumulated) + delta) % U64_LIMIT)
    {
      accumulated := (accumulated + delta) % U64_LIMIT;
    }

    method SetNeedResched()
      modifies this
      ensures State() == old(State()).(needResched := true)
    {
      needResched := true;
    }

    method CurrentTaskIdOf(ids: SchedTask.TaskIdAllocator) returns (id: nat)
      requires ids.Valid()
      modifies ids
      ensures ids.Valid()
      ensures current.Some? ==> id == current.value.id && ids.next == old(ids.next)
      ensures current.None? ==> id == old(ids.next) && ids.next == WrappingAdd(old(ids.next), 1)
    {
      if current.Some? {
        id := current.value.id;
      } else {
        id := ids.NewId();
      }
    }

    /** The pop at the head of `schedule`: realtime first, then CFS, then idle. */
    method PopNext() returns (next: Option<Task>)
      modifies this
      ensures (next, State()) == PickNext(old(State()))
    {
      next := None;
      if rtQueue != [] {
        next := Some(rtQueue[0].1);
        rtQueue := rtQueue[1..];
      } else if cfsQueue != [] {
        next := Some(cfsQueue[0].1);
        cfsQueue := cfsQueue[1..];
      } else if idleQueue != [] {
        next := Some(idleQueue[0]);
        idleQueue := idleQueue[1..];
      }
    }

    /** Where `schedule` puts the outgoing task. */
    method DisposeOutgoing(o: Task)
      requires Sorted(rtQueue) && Sorted(cfsQueue) && o.priority <= PRIORITY_MAX
      modifies this
      ensures State() == Dispose(old(State()), o)
    {
      if o.state == Blocked {
        blocked := blocked[o.id := o];
      } else if o.state != Terminated {
        EnqueueTask(o);
      }
    }

    method Schedule()
      requires Consistent(State()) && ScheduleSafe(State())
      modifies this
      ensures State() == ScheduleStep(old(State()))
    {
      ghost var s := State();
      PickNextKeepsConsistent(s);
      var next := PopNext();
      if next.None? {
        return;
      }
      var running := next.value.(state := Running);
      if current.Some? {
        var prev := current.value;
        var acc := accumulated;
        accumulated := 0;
        if acc > 0 && prev.schedClass == Normal {
          prev := UpdateVruntime(prev, acc);
        }
        if prev.state == Running {
          prev := prev.(state := Ready);
        }
        assert prev == Outgoing(s.current.value, s.accumulated);
        current := Some(running);
        assert Consistent(State());
        DisposeOutgoing(prev);
      } else {
        current := Some(running);
      }
    }

    method YieldNow()
      requires Consistent(State()) && ScheduleSafe(State())
      modifies this
      ensures State() == ScheduleStep(old(State()))
    {
      Schedule();
    }

    method CheckReschedOnInterruptExit()
      requires Consistent(State()) && ScheduleSafe(State())
      modifies this
      ensures old(needResched) ==> State() == ScheduleStep(old(State()).(needResched := false))
      ensures !old(needResched) ==> State() == old(State())
    {
      if needResched {
        needResched := false;
        Schedule();
      }
    }

    method BlockCurrentTask()
      requires Consistent(State()) && ScheduleSafe(State())
      modifies this
      ensures State() == Block(old(State()))
    {
      if current.Some? {
        current := Some(current.value.(state := Blocked));
      }
      Schedule();
    }

    method UnblockTask(id: nat)
      requires Consistent(State())
      modifies this
      ensures State() == Unblock(old(State()), id)
    {
      if id in blocked {
        var t := blocked[id].(state := Ready);
        blocked := blocked - {id};
        EnqueueTask(t);
      }
    }
  }
}
