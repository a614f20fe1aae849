// The FIFO wait queue of kernel/src/sync/wait_queue.rs.  It stores task
// ids and uses the scheduler the kernel builds, kernel/src/task.rs
// (module LegacyTask), to block and wake them.

module WaitQueues {
  import opened Base
  import opened LegacyTask
  import SchedTask

  class WaitQueue {
    /** The waiting task ids, oldest first. */
    var waiters: seq<nat>

    constructor ()
      ensures waiters == []
    {
      waiters := [];
    }

    /** `wait`: the current task's id joins the back, then the task blocks. */
    method Wait(sched: LegacyScheduler, ids: SchedTask.TaskIdAllocator)
      requires Consistent(sched.State()) && ScheduleSafe(sched.State())
      requires ids.Valid()
      modifies this, sched, ids
      ensures var id := if old(sched.current).Some? then old(sched.current).value.id else old(ids.next);
        waiters == old(waiters) + [id]
      ensures sched.State() == Block(old(sched.State()))
    {
      var taskId := sched.CurrentTaskIdOf(ids);
      waiters := waiters + [taskId];
      sched.BlockCurrentTask();
    }

    /**
     * `wake_one`: false and no change on an empty queue; otherwise the
     * oldest waiter leaves the queue and is unblocked.
     */
    method WakeOne(sched: LegacyScheduler) returns (woke: bool)
      requires Consistent(sched.State())
      modifies this, sched
      ensures woke <==> old(waiters) != []
      ensures !woke ==> waiters == old(waiters) && sched.State() == old(sched.State())
      ensures woke ==>
        (waiters == old(waiters)[1..] && sched.State() == Unblock(old(sched.State()), old(waiters)[0]))
    {
      if waiters == [] {
        return false;
      }
      var taskId := waiters[0];
      waiters := waiters[1..];
      sched.UnblockTask(taskId);
      woke := true;
    }

    /** `wake_all`: unblocks every waiter, oldest first, and leaves the queue empty. */
    method WakeAll(sched: LegacyScheduler)
      requires Consistent(sched.State())
      modifies this, sched
      ensures waiters == []
      ensures sched.State() == UnblockAll(old(sched.State()), old(waiters))
    {
      while waiters != []
        invariant Consistent(sched.State())
        invariant UnblockAll(old(sched.State()), old(waiters)) == UnblockAll(sched.State(), waiters)
        decreases |waiters|
      {
        var taskId := waiters[0];
        waiters := waiters[1..];
        sched.UnblockTask(taskId);
      }
    }
  }
}
