/** The shared task pool (src/scheduler.h, src/scheduler.cpp).

    A task is a coroutine or a callback, with the thread it is pinned to; thread 0 means "any".  The
    functions give the meaning of queueing and taking; class Scheduler does both in place. */
module TaskPool {
  import opened Wrappers

  /** A timeout callback knows the socket call it belongs to; other callbacks are opaque. */
  datatype Callback = TimeoutOf(call: nat) | UserFunc(func: nat)

  datatype Work = Co(co: nat) | Cb(cb: Callback)

  datatype Task = Task(work: Work, threadId: nat)

  type Pool = seq<Task>

  predicate Eligible(task: Task, tid: nat) {
    task.threadId == 0 || task.threadId == tid
  }

  /** The position the scan of `run` stops at: the first task the thread may take, or the end. */
  function FirstEligible(pool: Pool, tid: nat): (i: nat)
    ensures i <= |pool|
    ensures i < |pool| ==> Eligible(pool[i], tid)
    ensures forall j :: 0 <= j < i ==> !Eligible(pool[j], tid)
  {
    if pool == [] then 0
    else if Eligible(pool[0], tid) then 0
    else 1 + FirstEligible(pool[1..], tid)
  }

  function Without(pool: Pool, i: nat): Pool
    requires i < |pool|
  {
    pool[..i] + pool[i + 1..]
  }

  /** What one call of `schedule` leaves: nothing is accepted after stop() unless forced, and an
      empty coroutine pointer or function is not queued. */
  function Queue(pool: Pool, autoStop: bool, work: Option<Work>, tid: nat, force: bool): Pool {
    if autoStop && !force then pool
    else if work.Some? then pool + [Task(work.value, tid)]
    else pool
  }

  /** `scheduleIterator`: every element, unpinned. */
  function QueueAll(pool: Pool, autoStop: bool, works: seq<Option<Work>>, force: bool): Pool
    decreases works
  {
    if works == [] then pool
    else QueueAll(Queue(pool, autoStop, works[0], 0, force), autoStop, works[1..], force)
  }

  class Scheduler {
    var taskPools: Pool
    var autoStop: bool
    var stopping: bool
    var idleThreadCnt: nat
    var activeThreadCnt: nat
    var tickles: nat  // wake-ups sent so far

    constructor ()
      ensures taskPools == [] && !autoStop && stopping && idleThreadCnt == 0 && activeThreadCnt == 0 && tickles == 0
    {
      taskPools, autoStop, stopping, idleThreadCnt, activeThreadCnt, tickles := [], false, true, 0, 0, 0;
    }

    method Tickle()
      modifies this`tickles
      ensures tickles == old(tickles) + if idleThreadCnt > 0 then 1 else 0
    {
      if idleThreadCnt > 0 {
        tickles := tickles + 1;
      }
    }

    method ScheduleWithoutLock(work: Option<Work>, threadId: nat, force: bool) returns (needTickle: bool)
      modifies this`taskPools
      ensures taskPools == Queue(old(taskPools), autoStop, work, threadId, force)
      ensures taskPools == old(taskPools) + if (!autoStop || force) && work.Some? then [Task(work.value, threadId)] else []
      ensures needTickle == ((!autoStop || force) && taskPools != [] && idleThreadCnt > 0)
    {
      if autoStop && !force {
        return false;
      }
      if work.Some? {
        taskPools := taskPools + [Task(work.value, threadId)];
      }
      needTickle := taskPools != [] && idleThreadCnt > 0;
    }

    /** A wake-up is sent exactly when something is accepted or queued already while a thread is idle. */
    method Schedule(work: Option<Work>, threadId: nat, force: bool)
      modifies this`taskPools, this`tickles
      ensures taskPools == Queue(old(taskPools), autoStop, work, threadId, force)
      ensures tickles > old(tickles) <==> (!autoStop || force) && taskPools != [] && idleThreadCnt > 0
    {
      var needTickle := ScheduleWithoutLock(work, threadId, force);
      if needTickle {
        Tickle();
      }
    }

    method ScheduleIterator(works: seq<Option<Work>>, force: bool)
      modifies this`taskPools, this`tickles
      ensures taskPools == QueueAll(old(taskPools), autoStop, works, force)
      ensures tickles > old(tickles) <==> works != [] && (!autoStop || force) && taskPools != [] && idleThreadCnt > 0
    {
      var needTickle := false;
      var i := 0;
      while i < |works|
        invariant 0 <= i <= |works| && tickles == old(tickles)
        invariant needTickle == (i > 0 && (!autoStop || force) && taskPools != [] && idleThreadCnt > 0)
        invariant QueueAll(taskPools, autoStop, works[i..], force) == QueueAll(old(taskPools), autoStop, works, force)
      {
        assert works[i..][1..] == works[i + 1..];
        var one := ScheduleWithoutLock(works[i], 0, force);
        needTickle := if one then true else needTickle;
        i := i + 1;
      }
      assert works[i..] == [];
      if needTickle {
        Tickle();
      }
    }

    /** The locked scan at the top of `run`.  The loop walks the list once and stops at the first task
        it may take; skipped tasks, or tasks left while someone idles, ask for a wake-up. */
    method Take(tid: nat) returns (task: Option<Task>, needTickle: bool)
      modifies this`taskPools
      ensures var i := FirstEligible(old(taskPools), tid);
              if i == |old(taskPools)| then task == None && taskPools == old(taskPools)
              else task == Some(old(taskPools)[i]) && taskPools == old(taskPools)[..i] + old(taskPools)[i + 1..]
      ensures needTickle == (FirstEligible(old(taskPools), tid) > 0 || (taskPools != [] && idleThreadCnt > 0))
    {
      task, needTickle := None, false;
      var i := 0;
      while i < |taskPools|
        invariant 0 <= i <= |taskPools|
        invariant forall j :: 0 <= j < i ==> !Eligible(taskPools[j], tid)
        invariant needTickle == (i > 0)
      {
        if taskPools[i].threadId != 0 && taskPools[i].threadId != tid {
          i := i + 1;
          needTickle := true;
          continue;
        }
        FirstEligibleIs(taskPools, tid, i);
        task := Some(taskPools[i]);
        taskPools := Without(taskPools, i);
        break;
      }
      if task == None {
        FirstEligibleIs(taskPools, tid, |taskPools|);
      }
      if taskPools != [] && idleThreadCnt > 0 {
        needTickle := true;
      }
    }
  }

  lemma FirstEligibleIs(pool: Pool, tid: nat, i: nat)
    requires i <= |pool|
    requires i < |pool| ==> Eligible(pool[i], tid)
    requires forall j :: 0 <= j < i ==> !Eligible(pool[j], tid)
    ensures FirstEligible(pool, tid) == i
  {
    var f := FirstEligible(pool, tid);
    if f < i { assert false; }
    if i < f { assert false; }
  }

  /** Queueing never disturbs what is already queued, and what was accepted is at the end. */
  lemma {:induction false} QueueAllAppends(pool: Pool, autoStop: bool, works: seq<Option<Work>>, force: bool)
    ensures pool <= QueueAll(pool, autoStop, works, force)
    ensures autoStop && !force ==> QueueAll(pool, autoStop, works, force) == pool
    ensures (!autoStop || force) && (forall w | w in works :: w.Some?) ==>
              |QueueAll(pool, autoStop, works, force)| == |pool| + |works| &&
              forall i :: 0 <= i < |works| ==> QueueAll(pool, autoStop, works, force)[|pool| + i] == Task(works[i].value, 0)
    decreases works
  {
    if works == [] {
    } else {
      var next := Queue(pool, autoStop, works[0], 0, force);
      QueueAllAppends(next, autoStop, works[1..], force);
      assert forall w | w in works[1..] :: w in works;
      if (!autoStop || force) && (forall w | w in works :: w.Some?) {
        var all := QueueAll(next, autoStop, works[1..], force);
        assert works[0] in works;
        forall i | 0 <= i < |works|
          ensures all[|pool| + i] == Task(works[i].value, 0)
        {
          if i > 0 {
            assert works[i] == works[1..][i - 1];
            assert all[|next| + (i - 1)] == Task(works[i].value, 0);
          }
        }
      }
    }
  }
}
