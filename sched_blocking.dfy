// Blocking and waking of kernel/src/sched/blocking.rs, and the interrupt-exit
// path of kernel/src/sched/scheduler.rs that runs the timer softirq first.
//
// BLOCKED_TASKS and WAKEUP_PENDING are fields of the `Scheduler` object
// (module SchedScheduler) because `schedule` writes the first of them.
// A wake-up that arrives before its task has blocked is remembered in
// WAKEUP_PENDING and cancels the next block of that task.

module SchedBlocking {
  import opened Base
  import opened SchedTask
  import opened KeyedQueue
  import opened SchedScheduler
  import opened KernelTimer

  /** RFLAGS.IF is bit 9. */
  const RFLAGS_IF: bv64 := 0x200

  /** `is_interrupt_context`: interrupts are disabled, read from the RFLAGS image. */
  function IsInterruptContext(rflags: bv64): (b: bool)
    ensures b <==> (rflags >> 9) & 1 == 0
  {
    rflags & RFLAGS_IF == 0
  }

  /**
   * The critical section of `block_current_task`: whether to call
   * `schedule`, and the state it leaves.  A pending wake-up for the current
   * task is consumed instead of blocking.
   */
  function BlockDecision(s: SchedState): (r: (bool, SchedState))
    ensures r.0 <==> s.current.Some? && s.current.value.id !in s.wakeupPending
    ensures s.current.None? ==> r.1 == s
    ensures s.current.Some? && s.current.value.id in s.wakeupPending ==>
      r.1 == s.(wakeupPending := s.wakeupPending - {s.current.value.id})
    ensures r.0 ==> r.1 == s.(current := Some(s.current.value.(state := Blocked)))
  {
    match s.current
    case None => (false, s)
    case Some(t) =>
      if t.id in s.wakeupPending then (false, s.(wakeupPending := s.wakeupPending - {t.id}))
      else (true, s.(current := Some(t.(state := Blocked))))
  }

  /** The critical section keeps the invariant and the owned tasks. */
  lemma BlockDecisionKeepsValid(s: SchedState)
    requires Valid(s) && ScheduleSafe(s)
    ensures Valid(BlockDecision(s).1) && ScheduleSafe(BlockDecision(s).1)
    ensures AllIds(BlockDecision(s).1) == AllIds(s)
  {
    var r := BlockDecision(s).1;
    assert AllIds(r) == AllIds(s);
  }

  /** `block_current_task`: the critical section, then `schedule` if it decided to block. */
  function BlockCurrent(s: SchedState): (r: SchedState)
    requires Valid(s) && ScheduleSafe(s)
    ensures Valid(r)
    ensures AllIds(r) == AllIds(s)
  {
    BlockDecisionKeepsValid(s);
    var (block, s1) := BlockDecision(s);
    if block then
      ScheduleConservesTasks(s1);
      ScheduleStep(s1)
    else s1
  }

  /** The current task's id is in no other table. */
  lemma CurrentNotBlocked(s: SchedState)
    requires Distinct(s) && s.current.Some?
    ensures s.current.value.id !in s.blocked
  {
    var id := s.current.value.id;
    assert CurrentIds(s.current)[id] == 1;
    assert AllIds(s)[id] >= multiset(s.blocked.Keys)[id] + 1;
  }

  /**
   * A task that blocks while another task is ready is filed in
   * BLOCKED_TASKS, in state Blocked, and stops being current.
   */
  lemma BlockFilesTask(s: SchedState)
    requires Valid(s) && ScheduleSafe(s)
    requires s.current.Some? && s.current.value.id !in s.wakeupPending
    requires PickNext(s).0.Some?
    ensures var id := s.current.value.id;
      id in BlockCurrent(s).blocked && BlockCurrent(s).blocked[id].state == Blocked &&
      BlockCurrent(s).current.Some? && BlockCurrent(s).current.value.id != id
  {
    BlockDecisionKeepsValid(s);
    var s1 := BlockDecision(s).1;
    assert PickNext(s1) == PickNext(s).(1 := PickNext(s).1.(current := s1.current));
    SwitchFilesBlocked(s1);
  }

  /** `schedule` from a Blocked current task files it and runs another. */
  lemma SwitchFilesBlocked(s: SchedState)
    requires Valid(s) && ScheduleSafe(s) && PickNext(s).0.Some?
    requires s.current.Some? && s.current.value.state == Blocked
    ensures var id := s.current.value.id;
      id in ScheduleStep(s).blocked && ScheduleStep(s).blocked[id].state == Blocked &&
      ScheduleStep(s).current.Some? && ScheduleStep(s).current.value.id != id
  {
    ScheduleStepSwitches(s);
    var o := Outgoing(s.current.value, s.accumulated);
    assert o.state == Blocked && o.id == s.current.value.id;
    ScheduleConservesTasks(s);
    FiledApart(Switched(s), o, ScheduleStep(s));
  }

  /** A task filed in the blocked table of a distinct state is not its current task. */
  lemma FiledApart(sw: SchedState, o: Task, r: SchedState)
    requires r == sw.(blocked := sw.blocked[o.id := o])
    requires Distinct(r) && r.current.Some?
    ensures o.id in r.blocked && r.blocked[o.id] == o && r.current.value.id != o.id
  {
    CurrentNotBlocked(r);
  }

  /**
   * `unblock_task`: a blocked task is made Ready and enqueued by class;
   * the id of a task that has not blocked yet is remembered as pending.
   */
  function Unblock(s: SchedState, id: nat): (r: SchedState)
    requires Sorted(s.rtQueue) && Sorted(s.cfsQueue)
    requires id in s.blocked ==> Enqueueable(s.blocked[id])
    ensures r.blocked == s.blocked - {id}
    ensures r.current == s.current && r.accumulated == s.accumulated
    ensures r.needResched == s.needResched
    ensures id !in s.blocked ==> r == s.(wakeupPending := s.wakeupPending + {id})
    ensures id in s.blocked ==> r.wakeupPending == s.wakeupPending
  {
    if id in s.blocked then
      var t := s.blocked[id].(state := Ready);
      Enqueue(s.(blocked := s.blocked - {id}), t)
    else
      s.(wakeupPending := s.wakeupPending + {id})
  }

  lemma UnblockRemovedIds(s: SchedState, id: nat)
    requires id in s.blocked
    ensures AllIds(s.(blocked := s.blocked - {id})) + multiset{id} == AllIds(s)
  {
    assert multiset((s.blocked - {id}).Keys) + multiset{id} == multiset(s.blocked.Keys) by {
      assert s.blocked.Keys == (s.blocked - {id}).Keys + {id};
    }
  }

  /** Waking keeps the invariant and moves the task instead of copying or dropping it. */
  lemma UnblockKeepsValid(s: SchedState, id: nat)
    requires Valid(s)
    ensures Valid(Unblock(s, id)) && AllIds(Unblock(s, id)) == AllIds(s)
  {
    if id in s.blocked {
      var t := s.blocked[id].(state := Ready);
      var s0 := s.(blocked := s.blocked - {id});
      UnblockRemovedIds(s, id);
      assert Shaped(s0);
      DistinctAfterRemoving(s, s0, id);
      EnqueueKeepsValid(s0, t);
    }
  }

  /** A woken blocked task is Ready in the run queue of its class. */
  lemma UnblockMakesReady(s: SchedState, id: nat)
    requires Valid(s) && id in s.blocked
    ensures var t := s.blocked[id].(state := Ready);
      match t.schedClass
      case Realtime => (RtKey(t), t) in Unblock(s, id).rtQueue
      case Normal => (CfsKey(t), t) in Unblock(s, id).cfsQueue
      case Idle => t in Unblock(s, id).idleQueue
  {
  }

  /**
   * No lost wake-up: a wake-up that overtakes the block it answers makes
   * that block return at once, leaving the scheduler as it was.
   */
  lemma NoLostWakeup(s: SchedState)
    requires Valid(s) && s.current.Some? && s.current.value.id !in s.wakeupPending
    ensures BlockDecision(Unblock(s, s.current.value.id)) == (false, s)
  {
    CurrentNotBlocked(s);
    var id := s.current.value.id;
    assert s.wakeupPending + {id} - {id} == s.wakeupPending;
  }

  /** Runs the callbacks the timer softirq returned: `UnblockTask` wakes its task. */
  function RunCallbacks(s: SchedState, cs: seq<Callback>): (r: SchedState)
    requires Valid(s)
    ensures Valid(r) && AllIds(r) == AllIds(s)
    ensures r.current == s.current && r.accumulated == s.accumulated
    ensures r.needResched == s.needResched
    decreases |cs|
  {
    if cs == [] then s
    else
      match cs[0]
      case UnblockTask(id) =>
        UnblockKeepsValid(s, id);
        RunCallbacks(Unblock(s, id), cs[1..])
      case Opaque(_) => RunCallbacks(s, cs[1..])
  }

  /**
   * The second half of `check_resched_on_interrupt_exit`: NEED_RESCHED is
   * swapped to false, and `schedule` runs if it was set.
   */
  function Resched(s: SchedState): (r: SchedState)
    requires Valid(s) && ScheduleSafe(s)
    ensures Valid(r) && !r.needResched
    ensures !s.needResched ==> r == s
  {
    var cleared := s.(needResched := false);
    assert AllIds(cleared) == AllIds(s);
    if s.needResched then
      ScheduleConservesTasks(cleared);
      ScheduleStep(cleared)
    else s
  }

  /** `block_current_task` on the scheduler object. */
  method BlockCurrentTask(sched: Scheduler)
    requires Valid(sched.State()) && ScheduleSafe(sched.State())
    modifies sched
    ensures sched.State() == BlockCurrent(old(sched.State()))
  {
    ghost var s0 := sched.State();
    var shouldBlock := DecideBlock(sched);
    BlockDecisionKeepsValid(s0);
    if shouldBlock {
      sched.Schedule();
    }
  }

  /** The critical section of `block_current_task` on the scheduler object. */
  method DecideBlock(sched: Scheduler) returns (shouldBlock: bool)
    modifies sched
    ensures (shouldBlock, sched.State()) == BlockDecision(old(sched.State()))
  {
    shouldBlock := false;
    if sched.current.Some? {
      var id := sched.current.value.id;
      if id in sched.wakeupPending {
        sched.wakeupPending := sched.wakeupPending - {id};
      } else {
        sched.current := Some(sched.current.value.(state := Blocked));
        shouldBlock := true;
      }
    }
  }

  /** `unblock_task` on the scheduler object. */
  method UnblockTask(sched: Scheduler, id: nat)
    requires Valid(sched.State())
    modifies sched
    ensures sched.State() == Unblock(old(sched.State()), id)
  {
    if id in sched.blocked {
      var t := sched.blocked[id].(state := Ready);
      sched.blocked := sched.blocked - {id};
      sched.EnqueueTask(t);
    } else {
      sched.wakeupPending := sched.wakeupPending + {id};
    }
  }

  /** The number of ticks `sleep_ms` waits: at least one. */
  function SleepTicks(ms: nat, frequencyHz: nat): (ticks: nat)
    requires ms * frequencyHz < U64_LIMIT
    ensures ticks >= 1
    ensures ticks * 1000 <= Max(ms * frequencyHz, 1000)
    ensures ms * frequencyHz >= 1000 ==> ms * frequencyHz < (ticks + 1) * 1000
  {
    Max(MsToTicks(ms, frequencyHz), 1)
  }

  /**
   * `sleep_ms`: zero yields; otherwise a timer that wakes the current task
   * is registered and the task blocks.  `rflags` is the RFLAGS image the
   * debug assertion reads.
   */
  method SleepMs(sched: Scheduler, timers: TimerSystem, ids: TaskIdAllocator, ms: nat, rflags: bv64)
    requires !IsInterruptContext(rflags)
    requires Valid(sched.State()) && ScheduleSafe(sched.State())
    requires timers.Valid() && ids.Valid()
    requires ms * timers.frequencyHz < U64_LIMIT
    requires timers.tickCount + SleepTicks(ms, timers.frequencyHz) < U64_LIMIT
    modifies sched, timers, ids
    ensures timers.Valid()
    ensures ms == 0 ==>
      (sched.State() == ScheduleStep(old(sched.State())) &&
       timers.heap == old(timers.heap) && timers.nextTimerId == old(timers.nextTimerId))
    ensures ms > 0 ==>
      var id := CurrentTaskId(old(sched.State()), old(ids.next));
      var wake := Timer(old(timers.nextTimerId),
        old(timers.tickCount) + SleepTicks(ms, old(timers.frequencyHz)), Some(Callback.UnblockTask(id)));
      timers.heap == HeapPush(old(timers.heap), wake) &&
      sched.State() == BlockCurrent(old(sched.State()))
    ensures timers.pending == old(timers.pending) && timers.tickCount == old(timers.tickCount)
  {
    if ms == 0 {
      sched.YieldNow();
      return;
    }
    ArmSleepTimer(sched, timers, ids, ms);
    BlockCurrentTask(sched);
  }

  /** The `ms > 0` half of `sleep_ms` before blocking: a wake-up timer for the current task. */
  method ArmSleepTimer(sched: Scheduler, timers: TimerSystem, ids: TaskIdAllocator, ms: nat)
    requires timers.Valid() && ids.Valid()
    requires ms * timers.frequencyHz < U64_LIMIT
    requires timers.tickCount + SleepTicks(ms, timers.frequencyHz) < U64_LIMIT
    modifies timers, ids
    ensures timers.Valid()
    ensures timers.heap == HeapPush(old(timers.heap), Timer(old(timers.nextTimerId),
      old(timers.tickCount) + SleepTicks(ms, old(timers.frequencyHz)),
      Some(Callback.UnblockTask(CurrentTaskId(sched.State(), old(ids.next))))))
    ensures timers.pending == old(timers.pending) && timers.tickCount == old(timers.tickCount)
  {
    var taskId := sched.CurrentTaskIdOf(ids);
    var ticks := SleepTicks(ms, timers.frequencyHz);
    var _ := timers.RegisterTimer(ticks, Callback.UnblockTask(taskId));
  }

  /** Runs the returned callbacks against the scheduler, in order. */
  method RunTimerCallbacks(sched: Scheduler, cs: seq<Callback>)
    requires Valid(sched.State())
    modifies sched
    ensures sched.State() == RunCallbacks(old(sched.State()), cs)
  {
    var i := 0;
    while i < |cs|
      invariant 0 <= i <= |cs|
      invariant Valid(sched.State())
      invariant RunCallbacks(old(sched.State()), cs) == RunCallbacks(sched.State(), cs[i..])
    {
      assert cs[i..][1..] == cs[i + 1..];
      match cs[i] {
        case UnblockTask(id) =>
          UnblockKeepsValid(sched.State(), id);
          UnblockTask(sched, id);
        case Opaque(_) =>
      }
      i := i + 1;
    }
  }

  /**
   * `check_resched_on_interrupt_exit`: the timer softirq first, so tasks it
   * wakes can be picked, then `schedule` if NEED_RESCHED was set (the flag
   * is cleared either way).
   */
  method CheckReschedOnInterruptExit(sched: Scheduler, timers: TimerSystem)
    requires Valid(sched.State()) && ScheduleSafe(sched.State())
    modifies sched, timers
    ensures var woken := if old(timers.softirqPending) && !old(timers.inSoftirq)
        then RunCallbacks(old(sched.State()), Callbacks(old(timers.pending)))
        else old(sched.State());
      sched.State() == Resched(woken)
    ensures !timers.softirqPending || old(timers.inSoftirq)
  {
    if timers.softirqPending {
      var ran := timers.DoSoftirq();
      RunTimerCallbacks(sched, ran);
    }
    ghost var woken := sched.State();
    var resched := sched.TakeNeedResched();
    assert AllIds(sched.State()) == AllIds(woken);
    if resched {
      sched.Schedule();
    }
  }
}
