/** What holds over every run of the event loop. */
module EventLoopTheorems {
  import opened Wrappers
  import opened TaskPool
  import opened IoEvents
  import opened EventLoop
  import opened EventLoopInvariant

  // ---------------------------------------------------------------- runs

  /** The state start() leaves: every thread at the top of run, nothing registered or queued. */
  ghost predicate Initial(s: Sys) {
    && 0 !in s.threads && s.caller !in s.workers && s.threads.Keys == s.workers + {s.caller}
    && (forall t :: t in s.threads ==> s.threads[t] == Scanning)
    && s.io == INITIAL && s.pool == [] && !s.autoStop && !s.stopFlag && !s.crashed
    && s.idleCnt == 0 && s.activeCnt == |s.workers| && s.idleDone == {}
    && s.cos == map[] && s.calls == map[] && s.timers == map[]
    && s.regs == [] && s.live == map[] && s.log == []
  }

  /** A run: every label is enabled where it is taken. */
  ghost predicate Execution(ss: seq<Sys>, ls: seq<Label>) {
    && |ss| == |ls| + 1 && Initial(ss[0])
    && forall i :: 0 <= i < |ls| ==> Enabled(ss[i], ls[i]) && ss[i + 1] == Apply(ss[i], ls[i])
  }

  lemma InitialInv(s: Sys)
    requires Initial(s)
    ensures LoopInv(s)
  {
    IoEvents.InitialInv();
    assert Working(s) == s.workers;
    assert Idling(s) == {};
    assert forall x: Slot :: !Registered(s.io, x.fd, x.event);
  }

  /** Every state of every run satisfies the invariant, unless the run ends in a crash. */
  lemma {:induction false} ExecutionInv(ss: seq<Sys>, ls: seq<Label>, i: nat)
    requires Execution(ss, ls) && i < |ss|
    ensures ss[i].crashed || LoopInv(ss[i])
    decreases i
  {
    if i == 0 {
      InitialInv(ss[0]);
    } else {
      ExecutionInv(ss, ls, i - 1);
      StepKeeps(ss[i - 1], ls[i - 1]);
    }
  }

  /** A run crashes only in its last step, by delivering readiness that is not registered. */
  lemma CrashIsMismatch(ss: seq<Sys>, ls: seq<Label>, i: nat)
    requires Execution(ss, ls) && i < |ss| && ss[i].crashed
    ensures i == |ls| && i > 0 && ls[i - 1].DeliverNext? && Mismatch(ss[i - 1], ls[i - 1].tid)
  {
    hide LiveOk, LogOk, SlotCosOk, PoolOk, ThreadCosOk, CallsOk, ThreadsOk, RecsOk, KernelOk, Apply, Mismatch;
    assert forall k :: 0 <= k < |ls| ==> !ss[k].crashed;
    if i > 0 {
      ExecutionInv(ss, ls, i - 1);
      StepKeeps(ss[i - 1], ls[i - 1]);
    }
  }

  // ---------------------------------------------------------------- single wake-up

  /** A coroutine is in at most one of: a slot, one place of the pool, one hand, one thread's registers;
      and what could wake it is pinned to the thread it belongs to. */
  lemma OnePlace(s: Sys, c: nat)
    requires LoopInv(s) && c in s.cos
    ensures forall i: nat, j: nat :: IsCo(s.pool, i, c) && IsCo(s.pool, j, c) ==> i == j
    ensures forall x, y :: x in s.live && y in s.live && CtxAt(s, x).co == Some(c) && CtxAt(s, y).co == Some(c) ==> x == y
    ensures forall t, u :: (Holds(s, t, c) || Executes(s, t, c)) && (Holds(s, u, c) || Executes(s, u, c)) ==> t == u
    ensures forall i: nat :: IsCo(s.pool, i, c) ==>
              && (forall t :: !Holds(s, t, c)) && (forall x :: x in s.live ==> CtxAt(s, x).co != Some(c))
              && (s.cos[c].home != 0 ==> s.pool[i].threadId == s.cos[c].home)
    ensures forall x :: x in s.live && CtxAt(s, x).co == Some(c) ==>
              (forall t :: !Holds(s, t, c)) && CtxAt(s, x).threadId == s.cos[c].home != 0
  {
    assert RecOk(s.cos[c]);
    forall x | x in s.live && CtxAt(s, x).co == Some(c)
      ensures s.cos[c].loc == AtSlot(x) && CtxAt(s, x).threadId == s.cos[c].home
    {
      assert SlotLinked(s, x);
    }
  }

  /** Whenever a thread resumes a coroutine: no thread is executing it, it has not finished, it never ran
      on another thread, and no second reference to it is left anywhere. */
  lemma ResumeIsSafe(s: Sys, t: nat, id: nat, c: nat)
    requires LoopInv(s) && Enabled(s, Dispatch(t, id)) && s.threads[t].task.work == Co(c)
    ensures c in s.cos && !s.cos[c].done && (s.cos[c].home == 0 || s.cos[c].home == t)
    ensures forall u :: !Executes(s, u, c)
    ensures forall i: nat :: !IsCo(s.pool, i, c)
    ensures forall x :: x in s.live ==> CtxAt(s, x).co != Some(c)
    ensures forall u :: Holds(s, u, c) ==> u == t
    ensures var s' := Apply(s, Dispatch(t, id)); Executes(s', t, c) && s'.cos[c].home == t
  {
    ThreadFact(s, t);
    assert Holds(s, t, c);
    assert RecOk(s.cos[c]);
    forall x | x in s.live
      ensures CtxAt(s, x).co != Some(c)
    {
      assert SlotLinked(s, x);
    }
  }

  /** Coroutine `c` has been registered on the slot, pinned to thread `t`, if slot and kernel allow it, and
      waits for the event; else nothing is registered and its call is over. */
  ghost predicate Pinned(s: Sys, s': Sys, c: nat, slot: Slot, t: nat, up: bool) {
    c in s'.cos &&
    if up && !Registered(s.io, slot.fd, slot.event) then
      s'.regs == s.regs + [Reg(slot, Task(Co(c), t))] && IsLive(s', |s.regs|) && s'.cos[c].phase.Waiting?
    else s'.regs == s.regs && s'.cos[c].phase == Plain
  }

  /** A successful addEvent inside doSocketIo registers the calling coroutine, pinned to its thread. */
  lemma RegisterPins(s: Sys, t: nat, up: bool)
    requires LoopInv(s) && InCall(s, t) && PhaseOn(s, t).Arming?
    ensures Pinned(s, DoRegister(s, t, up), s.threads[t].co, s.calls[PhaseOn(s, t).call].slot, t, up)
  {
    hide LiveOk, LogOk, SlotCosOk, PoolOk, ThreadCosOk, ThreadsOk, CallsOk, KernelOk, RecOk, SlotsOk, CountOk;
    var c, slot := s.threads[t].co, s.calls[PhaseOn(s, t).call].slot;
    IoInv(s);
    AddEventKeepsInv(s.io, slot.fd, slot.event, None, c, t, up);
    if up && !Registered(s.io, slot.fd, slot.event) {
      AddEventSlots(s.io, slot, None, c, t);
    }
  }

  // ---------------------------------------------------------------- conservation

  /** The tasks some retirements queued, in order. */
  function QueuedBy(log: seq<Retirement>): seq<Task> {
    if log == [] then []
    else QueuedBy(log[..|log| - 1]) + if log[|log| - 1].queued.Some? then [log[|log| - 1].queued.value] else []
  }

  lemma QueuedByOne(e: Retirement)
    ensures QueuedBy([e]) == if e.queued.Some? then [e.queued.value] else []
  {
    assert [e][..0] == [];
  }

  /** What a section that retires registrations does to the history and to the pool. */
  ghost predicate Retires(s: Sys, s': Sys) {
    && s.log <= s'.log && s'.regs == s.regs
    && s'.pool == s.pool + QueuedBy(s'.log[|s.log|..])
  }

  lemma FireRetires(s: Sys, slot: Slot, how: How, wanted: bool)
    requires Coherent(s) && slot.fd < |s.io.fds| && (wanted ==> Registered(s.io, slot.fd, slot.event))
    ensures Retires(s, FireIf(s, slot, how, wanted))
  {
    hide LiveOk, LogOk, SlotCosOk, PoolOk, ThreadCosOk, CallsOk, ThreadsOk, Fire, SlotRemoved, SlotsOk, CountOk;
    var s' := FireIf(s, slot, how, wanted);
    if wanted {
      FireShape(s, slot, how);
      var e := s'.log[|s.log|];
      assert s'.log[|s.log|..] == [e];
      QueuedByOne(e);
    } else {
      assert s'.log[|s.log|..] == [];
    }
  }

  lemma QueuedByConcat(a: seq<Retirement>, b: seq<Retirement>)
    ensures QueuedBy(a + b) == QueuedBy(a) + QueuedBy(b)
  {
    if b == [] {
      assert a + b == a;
    } else {
      assert (a + b)[..|a + b| - 1] == a + b[..|b| - 1];
    }
  }

  lemma RetiresChain(s: Sys, s1: Sys, s2: Sys)
    requires Retires(s, s1) && Retires(s1, s2)
    ensures Retires(s, s2)
  {
    hide QueuedBy;
    Tails(s.log, s1.log, s2.log);
    QueuedByConcat(s1.log[|s.log|..], s2.log[|s1.log|..]);
    PoolsJoin(s.pool, QueuedBy(s1.log[|s.log|..]), QueuedBy(s2.log[|s1.log|..]));
  }

  lemma Tails(a: seq<Retirement>, b: seq<Retirement>, c: seq<Retirement>)
    requires a <= b <= c
    ensures a <= c && c[|a|..] == b[|a|..] + c[|b|..]
  {
  }

  lemma PoolsJoin(a: Pool, b: Pool, c: Pool)
    ensures (a + b) + c == a + (b + c)
  {
  }

  lemma FireBothRetires(s: Sys, fd: nat, how: How, wanted: set<Event>)
    requires Coherent(s) && fd < |s.io.fds| && how != ByDelete && wanted <= s.io.fds[fd].events
    ensures Retires(s, FireIf(FireIf(s, Slot(fd, READ), how, READ in wanted), Slot(fd, WRITE), how, WRITE in wanted))
  {
    hide LiveOk, LogOk, SlotCosOk, PoolOk, ThreadCosOk, CallsOk, ThreadsOk, Fire, SlotsOk, CountOk, Coherent, FireIf, Retires;
    FireIfKeeps(s, Slot(fd, READ), how, READ in wanted);
    FireRetires(s, Slot(fd, READ), how, READ in wanted);
    var s1 := FireIf(s, Slot(fd, READ), how, READ in wanted);
    assert WRITE in wanted ==> WRITE in s1.io.fds[fd].events;
    FireRetires(s1, Slot(fd, WRITE), how, WRITE in wanted);
    RetiresChain(s, s1, FireIf(s1, Slot(fd, WRITE), how, WRITE in wanted));
  }

  lemma CancelRetires(s: Sys, slot: Slot, up: bool)
    requires LoopInv(s)
    ensures Retires(s, DoCancel(s, slot, up))
  {
    hide LiveOk, LogOk, SlotCosOk, PoolOk, ThreadCosOk, CallsOk, ThreadsOk, Fire, SlotsOk, CountOk, KernelOk;
    if Registered(s.io, slot.fd, slot.event) && up {
      UnmaskFact(s.io, slot.fd, slot.event);
      var s1 := WithKernel(s, Unmask(s.io, slot.fd, slot.event, up).value);
      KernelOnly(s, s1.io.kernel);
      FireRetires(s1, slot, ByCancel, true);
    }
  }

  lemma CancelAllRetires(s: Sys, fd: nat, up: bool)
    requires LoopInv(s)
    ensures Retires(s, DoCancelAll(s, fd, up))
  {
    hide LiveOk, LogOk, SlotCosOk, PoolOk, ThreadCosOk, CallsOk, ThreadsOk, Fire, SlotsOk, CountOk, Retires;
    if fd >= |s.io.fds| || s.io.fds[fd].events == {} || !up {
      NothingRetired(s);
    } else {
      var events := s.io.fds[fd].events;
      var s1 := WithKernel(s, s.io.kernel - {fd});
      KernelOnly(s, s1.io.kernel);
      FireBothRetires(s1, fd, ByCancel, events);
      RetiresSameStart(s, s1, FireIf(FireIf(s1, Slot(fd, READ), ByCancel, READ in events), Slot(fd, WRITE), ByCancel, WRITE in events));
      FireIfKeeps(s1, Slot(fd, READ), ByCancel, READ in events);
      assert Registered(FireIf(s1, Slot(fd, READ), ByCancel, READ in events).io, fd, WRITE) <==> WRITE in events;
    }
  }

  lemma NothingRetired(s: Sys)
    ensures Retires(s, s)
  {
    assert s.log[|s.log|..] == [];
  }

  lemma RetiresSameStart(s: Sys, s1: Sys, s2: Sys)
    requires Retires(s1, s2) && s1.log == s.log && s1.regs == s.regs && s1.pool == s.pool
    ensures Retires(s, s2)
  {
  }

  lemma DeliverRetires(s: Sys, t: nat, up: bool)
    requires LoopInv(s) && Enabled(s, DeliverNext(t, up)) && !Mismatch(s, t)
    ensures Retires(s, DoDeliver(s, t, up))
  {
    hide LiveOk, LogOk, SlotCosOk, PoolOk, ThreadCosOk, CallsOk, ThreadsOk, SlotsOk, CountOk, Fire, KernelOk;
    var r := s.threads[t].ready[0];
    var f := s.io.fds[r.fd];
    var s1 := Move(s, t, Delivering(s.threads[t].ready[1..]));
    DeliverMoves(s, t);
    if f.events * r.events != {} && up {
      var left := f.events - r.events;
      MaskFact(s.io, r.fd, r.events);
      var s2 := WithKernel(s1, KernelCtl(s.io.kernel, RemoveOp(left), r.fd, left, up).value);
      KernelOnly(s1, s2.io.kernel);
      FireBothRetires(s2, r.fd, ByDelivery, r.events);
    }
  }

  lemma DeleteRetires(s: Sys, slot: Slot, up: bool)
    requires LoopInv(s)
    ensures Retires(s, DoDelete(s, slot, up))
  {
    hide LiveOk, LogOk, SlotCosOk, PoolOk, ThreadCosOk, CallsOk, ThreadsOk, KernelOk, SlotsOk, CountOk, SlotRemoved;
    IoInv(s);
    DelEventKeepsInv(s.io, slot.fd, slot.event, up);
    var s' := DoDelete(s, slot, up);
    if up && Registered(s.io, slot.fd, slot.event) {
      DeleteShape(s, slot);
      assert s'.log[|s.log|..] == [Retirement(s.live[slot], ByDelete, None)];
      QueuedByOne(Retirement(s.live[slot], ByDelete, None));
    } else {
      assert s'.log[|s.log|..] == [];
    }
  }

  /** Over one label the history only grows; registrations retired in it have their continuations, and
      nothing else, appended to the pool in that very step. */
  lemma StepRetires(s: Sys, l: Label)
    requires LoopInv(s) && Enabled(s, l) && !Apply(s, l).crashed
    ensures s.regs <= Apply(s, l).regs && s.log <= Apply(s, l).log
    ensures Apply(s, l).log != s.log ==> Retires(s, Apply(s, l))
  {
    hide LoopInv, DoDeliver, DoDelete, DoCancel, DoCancelAll, DoCancelTimeout, Mismatch, Enabled, Retires, InCall, Runs;
    CallLabel(s, l);
    match l {
      case DeliverNext(t, up) =>
        StepKeeps(s, l);
        if up { DeliverRetires(s, t, up); } else { RefusedDelivery(s, t); }
        RetiresGrows(s, Apply(s, l));
      case Delete(t, slot, up) => DeleteRetires(s, slot, up); RetiresGrows(s, Apply(s, l));
      case Cancel(t, slot, up) => CancelRetires(s, slot, up); RetiresGrows(s, Apply(s, l));
      case CancelAll(t, fd, up) => CancelAllRetires(s, fd, up); RetiresGrows(s, Apply(s, l));
      case CancelTimeout(t, up) => CancelTimeoutRetires(s, t, up); RetiresGrows(s, Apply(s, l));
      case _ => OtherLabels(s, l);
    }
  }

  lemma RetiresGrows(s: Sys, s': Sys)
    requires Retires(s, s')
    ensures s.regs <= s'.regs && s.log <= s'.log
  {
  }

  lemma RefusedDelivery(s: Sys, t: nat)
    requires Enabled(s, DeliverNext(t, false))
    ensures Retires(s, DoDeliver(s, t, false))
  {
    assert s.log[|s.log|..] == [];
  }

  lemma CancelTimeoutRetires(s: Sys, t: nat, up: bool)
    requires LoopInv(s) && InCall(s, t) && PhaseOn(s, t).Cancelling?
    ensures Retires(s, DoCancelTimeout(s, t, up))
  {
    hide LiveOk, LogOk, SlotCosOk, PoolOk, ThreadCosOk, CallsOk, ThreadsOk, KernelOk, DoCancel;
    var s1 := SetPhase(s, t, Plain);
    RunsFact(s, t);
    PhaseKeeps(s, s1, t);
    CancelRetires(s1, s.calls[PhaseOn(s, t).call].slot, up);
  }

  lemma OtherLabels(s: Sys, l: Label)
    requires Enabled(s, l) && !l.DeliverNext? && !l.Delete? && !l.Cancel? && !l.CancelAll? && !l.CancelTimeout?
    ensures s.regs <= Apply(s, l).regs && Apply(s, l).log == s.log
  {
    hide DoTake, DoDispatch, DoDecide, DoCloseCheck, DoIdleCheck, DoExpire, DoDeliver, DoBegin, DoAttempt, DoRegister, DoYield, DoWake, DoAddCallback, DoDelete, DoCancel, DoCancelAll, DoCheckTimeout, DoCancelTimeout, DoFinish, DoSpawn;
  }

  lemma {:induction false} HistoryGrows(ss: seq<Sys>, ls: seq<Label>, i: nat, j: nat)
    requires Execution(ss, ls) && i <= j < |ss| && !ss[j].crashed
    ensures ss[i].regs <= ss[j].regs && ss[i].log <= ss[j].log
    decreases j - i
  {
    hide Enabled, Apply, LoopInv, Retires;
    if i < j {
      OnlyTheLastCrashes(ss, ls, j - 1);
      ExecutionInv(ss, ls, j - 1);
      StepRetires(ss[j - 1], ls[j - 1]);
      HistoryGrows(ss, ls, i, j - 1);
    }
  }

  lemma OnlyTheLastCrashes(ss: seq<Sys>, ls: seq<Label>, i: nat)
    requires Execution(ss, ls) && i < |ls|
    ensures !ss[i].crashed
  {
  }

  /** Conservation: at any later point of the run a registration is either still outstanding in its slot,
      or retired exactly once; the log entry queued the registered continuation, or nothing if the
      registration was deleted. */
  lemma Conservation(ss: seq<Sys>, ls: seq<Label>, i: nat, r: nat, j: nat)
    requires Execution(ss, ls) && i <= j < |ss| && !ss[j].crashed && r < |ss[i].regs|
    ensures r < |ss[j].regs| && ss[j].regs[r] == ss[i].regs[r]
    ensures Retired(ss[j].log, r) == if IsLive(ss[j], r) then 0 else 1
    ensures forall k :: 0 <= k < |ss[j].log| && ss[j].log[k].reg == r ==>
              ss[j].log[k].queued == if ss[j].log[k].how == ByDelete then None else Some(ss[i].regs[r].task)
  {
    hide LiveOk, SlotCosOk, PoolOk, ThreadCosOk, CallsOk, ThreadsOk, RecsOk, KernelOk;
    HistoryGrows(ss, ls, i, j);
    ExecutionInv(ss, ls, j);
    assert forall k :: 0 <= k < |ss[j].log| ==> RetirementOk(ss[j], ss[j].log[k]);
  }

  // ---------------------------------------------------------------- shutdown

  /** stopping() means: every worker has passed line 164, the pool is empty, nothing is registered, and no
      coroutine waits in a slot. */
  lemma StoppingMeans(s: Sys)
    requires LoopInv(s) && Stopping(s)
    ensures forall t :: t in s.workers ==> Gone(s.threads[t])
    ensures s.pool == [] && s.live == map[]
    ensures forall c :: c in s.cos ==> !s.cos[c].loc.AtSlot? && s.cos[c].loc != Queued
    ensures forall r :: 0 <= r < |s.regs| ==> Retired(s.log, r) == 1
  {
    PendingZero(s.io);
    forall t | t in s.workers
      ensures Gone(s.threads[t])
    {
      CountFact(s, t);
    }
    forall x
      ensures x !in s.live
    {
      LiveFact(s, x);
    }
    forall c | c in s.cos
      ensures !s.cos[c].loc.AtSlot? && s.cos[c].loc != Queued
    {
      assert CoLinked(s, c);
      assert s.cos[c].loc == Queued ==> exists i: nat :: IsCo(s.pool, i, c);
    }
  }

  /** An outstanding registration or a queued task keeps stopping() false. */
  lemma OutstandingKeepsRunning(s: Sys, r: nat)
    requires LoopInv(s) && IsLive(s, r)
    ensures !Stopping(s)
  {
    if Stopping(s) { StoppingMeans(s); }
  }

  /** The calling thread has no task in hand; every other thread that could has left. */
  predicate Quiet(s: Sys) {
    s.caller in s.threads ==> !s.threads[s.caller].Holding? && !s.threads[s.caller].Executing?
  }

  predicate OutsideForced(l: Label) {
    l.Spawn? && l.actor == None && l.force
  }

  lemma NobodyIsBusy(s: Sys, t: nat)
    requires LoopInv(s) && Stopping(s) && Quiet(s) && t in s.threads
    ensures !s.threads[t].Holding? && !s.threads[t].Executing?
  {
    CountFact(s, t);
  }

  /** Labels of the run and idle loops, as opposed to those of a running coroutine. */
  predicate LoopLabel(l: Label) {
    l.Take? || l.Decide? || l.CloseCheck? || l.IdleCheck? || l.Expire? || l.DeliverNext? || l.IdleYield?
  }

  lemma LoopLabelsStable(s: Sys, l: Label)
    requires LoopInv(s) && Stopping(s) && Quiet(s) && Enabled(s, l) && LoopLabel(l)
    ensures Stopping(Apply(s, l)) && Quiet(Apply(s, l)) && !Apply(s, l).crashed
  {
    hide LoopInv, DecidePc, IdleEnds, EarlyClosure, KernelCtl, FireIf, LockFree, ExpiredWorks, QueueAll;
    CountFactOf(s, l.tid);
    if l.DeliverNext? { NothingToDeliver(s, l.tid, l.up); }
    if l.Expire? { QueueAllAppends(s.pool, s.autoStop, ExpiredWorks(s, l.ids), false); }
    if l.Decide? && DecidePc(s, l.tid) == Closing { ClosingIsCounted(s, l.tid); }
  }

  lemma CountFactOf(s: Sys, t: nat)
    requires LoopInv(s) && t in s.threads
    ensures t in s.workers && !Gone(s.threads[t]) ==> s.activeCnt > 0
  {
    CountFact(s, t);
  }

  lemma ClosingIsCounted(s: Sys, t: nat)
    requires LoopInv(s) && At(s, t, NoTask) && DecidePc(s, t) == Closing
    ensures s.activeCnt > 0
  {
    CountFact(s, t);
  }

  /** Once stopping() holds and the calling thread holds no task, it holds for ever: nobody can register,
      queue or take anything, short of a forced schedule() from outside. */
  lemma StoppingIsStable(s: Sys, l: Label)
    requires LoopInv(s) && Stopping(s) && Quiet(s) && Enabled(s, l) && !OutsideForced(l)
    ensures Stopping(Apply(s, l)) && Quiet(Apply(s, l)) && !Apply(s, l).crashed
  {
    if LoopLabel(l) {
      LoopLabelsStable(s, l);
    } else {
      hide LoopInv, Stopping, Quiet;
      if ByThread(l) && l.tid in s.threads { NobodyIsBusy(s, l.tid); }
      if l.Spawn? && l.actor.Some? && l.actor.value in s.threads { NobodyIsBusy(s, l.actor.value); }
      assert l.Spawn? || l.SetAutoStop? || l.SetStopping?;
      FlagLabelsStable(s, l);
    }
  }

  lemma FlagLabelsStable(s: Sys, l: Label)
    requires Stopping(s) && Quiet(s) && Enabled(s, l) && !OutsideForced(l)
    requires l.SetAutoStop? || l.SetStopping? || (l.Spawn? && l.actor == None)
    ensures Stopping(Apply(s, l)) && Quiet(Apply(s, l)) && !Apply(s, l).crashed
  {
  }

  predicate ByThread(l: Label) {
    !l.Spawn? && !l.SetAutoStop? && !l.SetStopping?
  }

  lemma NothingToDeliver(s: Sys, t: nat, up: bool)
    requires LoopInv(s) && Stopping(s) && Enabled(s, DeliverNext(t, up))
    ensures DoDeliver(s, t, up) == Move(s, t, Delivering(s.threads[t].ready[1..]))
  {
    PendingZero(s.io);
    var r := s.threads[t].ready[0];
    assert forall e :: e !in s.io.fds[r.fd].events;
    assert s.io.fds[r.fd].events * r.events == {};
  }

  /** Without the quietness it is not: a coroutine still running on the calling thread can register. */
  lemma BusyCallerEndsStopping(s: Sys, slot: Slot, func: nat)
    requires LoopInv(s) && Stopping(s) && RunsPlain(s, s.caller) && !s.crashed
    ensures Enabled(s, AddCallback(s.caller, slot, func, true))
    ensures !Stopping(Apply(s, AddCallback(s.caller, slot, func, true)))
  {
    hide LoopInv, AddEvent, Inv;
    StoppingMeans(s);
    FreeSlot(s, slot);
    AddEventKeepsInv(s.io, slot.fd, slot.event, Some(UserFunc(func)), s.threads[s.caller].co, s.caller, true);
  }

  lemma FreeSlot(s: Sys, slot: Slot)
    requires LoopInv(s) && s.live == map[]
    ensures Inv(s.io) && |s.io.fds| >= INITIAL_FDS && !Registered(s.io, slot.fd, slot.event)
  {
    LiveFact(s, slot);
  }

  /** A worker that finds canEarlyClosure() false again after line 164 goes on into epoll_wait and then
      blocks on the mutex it still holds: from then on no task is ever queued or taken. */
  lemma WedgeIsForEver(s: Sys, l: Label, t: nat)
    requires Enabled(s, l) && At(s, t, Wedged)
    ensures !l.Take? && !l.Expire? && !l.Spawn? && Apply(s, l).pool == s.pool
    ensures !Apply(s, l).crashed ==> At(Apply(s, l), t, Wedged)
  {
    assert !LockFree(s);
    if l.Register? || l.AddCallback? || l.Delete? {
      WedgedMeanwhile(s, l, t);
    } else if l.Begin? || l.Attempt? || l.Wake? || l.CheckTimeout? || l.SetAutoStop? || l.SetStopping? {
      hide LockFree;
    } else {
      WedgedMoves(s, l, t);
    }
  }

  lemma WedgedMeanwhile(s: Sys, l: Label, t: nat)
    requires Enabled(s, l) && At(s, t, Wedged) && (l.Register? || l.AddCallback? || l.Delete?)
    ensures Apply(s, l).pool == s.pool && Apply(s, l).threads == s.threads
  {
    hide DoRegister, DoAddCallback, DelEvent, LockFree;
  }

  lemma WedgedMoves(s: Sys, l: Label, t: nat)
    requires Enabled(s, l) && At(s, t, Wedged) && !LockFree(s)
    requires l.Take? || l.Decide? || l.Expire? || l.DeliverNext? || l.Cancel? || l.CancelAll? || l.CancelTimeout? || l.Spawn?
             || l.CloseCheck? || l.IdleCheck? || l.IdleYield? || l.Dispatch? || l.YieldCo? || l.Finish?
    ensures !l.Take? && !l.Expire? && !l.Spawn? && Apply(s, l).pool == s.pool
    ensures !Apply(s, l).crashed ==> At(Apply(s, l), t, Wedged)
  {
    hide LockFree, Stopping, EarlyClosure, DoTake, DoDecide, DoExpire, DoDeliver, DoCancel, DoCancelAll, DoCancelTimeout, DoSpawn;
  }

  lemma PendingIffLive(s: Sys)
    requires LoopInv(s)
    ensures s.io.pending != 0 <==> s.live != map[]
  {
    hide LogOk, SlotCosOk, PoolOk, ThreadCosOk, CallsOk, RecsOk, ThreadsOk, KernelOk;
    PendingZero(s.io);
    if s.live != map[] {
      var x :| x in s.live;
      LiveFact(s, x);
    }
    if s.io.pending != 0 {
      var i, e :| 0 <= i < |s.io.fds| && e in s.io.fds[i].events;
      LiveFact(s, Slot(i, e));
      assert Slot(i, e) in s.live;
    }
  }

  /** The race exists: a worker about to leave, and any other thread whose coroutine registers an event
      between the two checks. */
  lemma RaceWedges(s: Sys, t: nat, u: nat, slot: Slot, func: nat)
    requires LoopInv(s) && LockFree(s) && At(s, t, NoTask) && t in s.workers && EarlyClosure(s) && RunsPlain(s, u)
    ensures Enabled(s, Decide(t))
    ensures var s1 := Apply(s, Decide(t));
            Enabled(s1, AddCallback(u, slot, func, true)) &&
            var s2 := Apply(s1, AddCallback(u, slot, func, true));
            Enabled(s2, CloseCheck(t)) && At(Apply(s2, CloseCheck(t)), t, Wedged)
  {
    hide LoopInv, AddEvent, Inv;
    NotCrashed(s);
    CountFactFull(s, t);
    PendingIffLive(s);
    var s1 := Apply(s, Decide(t));
    FreeSlot(s, slot);
    AddEventKeepsInv(s1.io, slot.fd, slot.event, Some(UserFunc(func)), s1.threads[u].co, u, true);
  }

  lemma CountFactFull(s: Sys, t: nat)
    requires LoopInv(s) && t in s.threads
    ensures t in s.workers ==> t != s.caller && t !in s.idleDone
  {
    CountFact(s, t);
  }

  // ---------------------------------------------------------------- the loop and the manager agree

  /** The machine's sections do to contexts, masks, counter and pool what class IoManager's methods do. */
  lemma FireIfIsTriggerIf(s: Sys, slot: Slot, how: How, wanted: bool)
    requires Coherent(s) && slot.fd < |s.io.fds| && (wanted ==> Registered(s.io, slot.fd, slot.event))
    ensures var (io', tasks) := TriggerIf(s.io, slot.fd, slot.event, wanted);
            FireIf(s, slot, how, wanted).io == io' && FireIf(s, slot, how, wanted).pool == s.pool + tasks
  {
    hide LogOk, SlotCosOk, PoolOk, ThreadCosOk, CallsOk, ThreadsOk, RecsOk;
    if wanted { FireShape(s, slot, how); }
  }

  lemma FireBothIsTriggerBoth(s: Sys, fd: nat, how: How, wanted: set<Event>)
    requires Coherent(s) && fd < |s.io.fds| && how != ByDelete && wanted <= s.io.fds[fd].events
    ensures SlotsOk(s.io)
    ensures var (io', tasks) := TriggerBoth(s.io, fd, wanted);
            var s2 := FireIf(FireIf(s, Slot(fd, READ), how, READ in wanted), Slot(fd, WRITE), how, WRITE in wanted);
            s2.io == io' && s2.pool == s.pool + tasks
  {
    hide LogOk, SlotCosOk, PoolOk, ThreadCosOk, CallsOk, ThreadsOk, RecsOk, Fire, SlotsOk, CountOk, TriggerIf, FireIf;
    FireIfKeeps(s, Slot(fd, READ), how, READ in wanted);
    FireIfIsTriggerIf(s, Slot(fd, READ), how, READ in wanted);
    var s1 := FireIf(s, Slot(fd, READ), how, READ in wanted);
    assert WRITE in wanted ==> WRITE in s1.io.fds[fd].events;
    FireIfIsTriggerIf(s1, Slot(fd, WRITE), how, WRITE in wanted);
    TriggerKeepsSlots(s.io, fd, READ, READ in wanted);
  }

  lemma DeliveryIsDeliver(s: Sys, t: nat, up: bool)
    requires LoopInv(s) && Enabled(s, DeliverNext(t, up))
    ensures SlotsOk(s.io)
    ensures var r, s' := s.threads[t].ready[0], DoDeliver(s, t, up);
            match Deliver(s.io, r.fd, r.events, up)
            case Skipped => s'.io == s.io && s'.pool == s.pool && !s'.crashed
            case Delivered(io', tasks) => s'.io == io' && s'.pool == s.pool + tasks && !s'.crashed
            case Aborted => s'.crashed
  {
    hide LiveOk, LogOk, SlotCosOk, PoolOk, ThreadCosOk, CallsOk, ThreadsOk, RecsOk, SlotsOk, CountOk, Fire, KernelOk, FireIf;
    IoInv(s);
    DeliverKeeps(s, t, up);
    var r := s.threads[t].ready[0];
    var f := s.io.fds[r.fd];
    var s1 := Move(s, t, Delivering(s.threads[t].ready[1..]));
    DeliverMoves(s, t);
    if f.events * r.events != {} && up && r.events <= f.events {
      var left := f.events - r.events;
      MaskFact(s.io, r.fd, r.events);
      var s2 := WithKernel(s1, KernelCtl(s.io.kernel, RemoveOp(left), r.fd, left, up).value);
      KernelOnly(s1, s2.io.kernel);
      FireBothIsTriggerBoth(s2, r.fd, ByDelivery, r.events);
    }
  }
}
