/** The invariant of the event loop, kept by every label. */
module EventLoopInvariant {
  import opened Wrappers
  import opened TaskPool
  import opened IoEvents
  import opened EventLoop

  // ---------------------------------------------------------------- registrations and history

  function CtxAt(s: Sys, slot: Slot): EventCtx
    requires slot.fd < |s.io.fds|
  {
    s.io.fds[slot.fd].Ctx(slot.event)
  }

  ghost predicate LiveOk(s: Sys) {
    && SlotsOk(s.io) && CountOk(s.io) && |s.io.fds| >= INITIAL_FDS
    && (forall slot :: slot in s.live <==> Registered(s.io, slot.fd, slot.event))
    && (forall slot :: slot in s.live ==>
          s.live[slot] < |s.regs| && s.regs[s.live[slot]] == Reg(slot, CtxAt(s, slot).Continuation()))
  }

  function Retired(log: seq<Retirement>, reg: nat): nat {
    if log == [] then 0
    else Retired(log[..|log| - 1], reg) + if log[|log| - 1].reg == reg then 1 else 0
  }

  predicate IsLive(s: Sys, reg: nat) {
    reg < |s.regs| && s.regs[reg].slot in s.live && s.live[s.regs[reg].slot] == reg
  }

  predicate RetirementOk(s: Sys, e: Retirement) {
    e.reg < |s.regs| && e.queued == if e.how == ByDelete then None else Some(s.regs[e.reg].task)
  }

  /** Every registration is either outstanding or retired exactly once; delivery and cancellation queue
      the very continuation that was registered, deletion queues nothing. */
  ghost predicate LogOk(s: Sys) {
    && (forall r :: 0 <= r < |s.regs| ==> Retired(s.log, r) == if IsLive(s, r) then 0 else 1)
    && (forall i :: 0 <= i < |s.log| ==> RetirementOk(s, s.log[i]))
  }

  // ---------------------------------------------------------------- coroutines

  /** A slot that holds a coroutine holds one that says so, and is pinned to the thread that owns it. */
  predicate SlotLinked(s: Sys, slot: Slot)
    requires slot.fd < |s.io.fds|
  {
    var ctx := CtxAt(s, slot);
    ctx.co.Some? ==>
      ctx.co.value in s.cos && s.cos[ctx.co.value].loc == AtSlot(slot) && s.cos[ctx.co.value].home == ctx.threadId
  }

  predicate CoLinked(s: Sys, c: nat)
    requires c in s.cos
  {
    var loc := s.cos[c].loc;
    loc.AtSlot? ==> loc.slot in s.live && loc.slot.fd < |s.io.fds| && CtxAt(s, loc.slot).co == Some(c)
  }

  ghost predicate SlotCosOk(s: Sys)
    requires LiveOk(s)
  {
    && (forall slot :: slot in s.live ==> SlotLinked(s, slot))
    && (forall c :: c in s.cos ==> CoLinked(s, c))
  }

  predicate IsCo(pool: Pool, i: nat, c: nat) {
    i < |pool| && pool[i].work == Co(c)
  }

  ghost predicate PoolOk(s: Sys) {
    && (forall i: nat, c :: IsCo(s.pool, i, c) ==>
          c in s.cos && s.cos[c].loc == Queued && (s.cos[c].home != 0 ==> s.pool[i].threadId == s.cos[c].home))
    && (forall i: nat, j: nat, c :: IsCo(s.pool, i, c) && IsCo(s.pool, j, c) ==> i == j)
    && (forall c :: c in s.cos && s.cos[c].loc == Queued ==> exists i: nat :: IsCo(s.pool, i, c))
  }

  predicate Holds(s: Sys, t: nat, c: nat) {
    t in s.threads && s.threads[t].Holding? && s.threads[t].task.work == Co(c)
  }

  predicate Executes(s: Sys, t: nat, c: nat) {
    t in s.threads && s.threads[t] == Executing(c)
  }

  ghost predicate ThreadCosOk(s: Sys) {
    && 0 !in s.threads
    && (forall t, c :: Holds(s, t, c) ==> c in s.cos && s.cos[c].loc == InHand(t))
    && (forall c :: c in s.cos && s.cos[c].loc.InHand? ==> Holds(s, s.cos[c].loc.tid, c))
    && (forall t, c :: Executes(s, t, c) ==> c in s.cos && s.cos[c].on == t)
    && (forall c :: c in s.cos && s.cos[c].on != 0 ==> Executes(s, s.cos[c].on, c))
  }

  predicate RecOk(r: CoRec) {
    && (r.on != 0 ==> r.on == r.home)
    && (r.home == 0 ==> (r.phase.Plain? || r.phase.Checking?) && !r.done && (r.loc == Queued || r.loc.InHand?))
    && (r.on != 0 && !r.phase.Waiting? ==> r.loc == Nowhere)
    && (r.loc.InHand? ==> r.on == 0 && (r.home == 0 || r.home == r.loc.tid))
    && (r.on == 0 && r.home != 0 ==> r.done || r.phase.Parked?)
    && (r.phase.Waiting? ==> r.on != 0)
    && (r.done ==> r.on == 0 && r.loc == Nowhere && r.phase.Plain?)
    && (r.loc.AtSlot? ==> r.phase.Waiting? || r.phase.Parked?)
  }

  ghost predicate RecsOk(s: Sys) {
    forall c :: c in s.cos ==> RecOk(s.cos[c])
  }

  // ---------------------------------------------------------------- socket calls

  predicate PhaseCallOk(calls: map<nat, Call>, phase: Phase) {
    !phase.Plain? ==> phase.call in calls
  }

  predicate WorkOk(calls: map<nat, Call>, work: Work) {
    work.Cb? && work.cb.TimeoutOf? ==> work.cb.call in calls
  }

  ghost predicate CallsOk(s: Sys) {
    && (forall c :: c in s.cos ==> PhaseCallOk(s.calls, s.cos[c].phase))
    && (forall i :: 0 <= i < |s.pool| ==> WorkOk(s.calls, s.pool[i].work))
    && (forall t :: t in s.threads && s.threads[t].Holding? ==> WorkOk(s.calls, s.threads[t].task.work))
    && (forall id :: id in s.timers ==> s.timers[id] in s.calls && id < s.nextTimer)
    && (forall r :: 0 <= r < |s.regs| ==> WorkOk(s.calls, s.regs[r].task.work))
  }

  // ---------------------------------------------------------------- threads

  predicate Gone(pc: Pc) {
    pc.Closing? || pc.Wedged? || pc.Left?
  }

  predicate InIdle(pc: Pc) {
    pc.IdleTop? || pc.Expiring? || pc.Delivering?
  }

  function Working(s: Sys): set<nat> {
    set t | t in s.workers && t in s.threads && !Gone(s.threads[t])
  }

  function Idling(s: Sys): set<nat> {
    set t | t in s.threads && InIdle(s.threads[t])
  }

  /** The counters are what they are named after.  A worker's idle coroutine never returns by itself:
      inside idle the worker counts as active, so stopping() is false, and as idle, so canEarlyClosure()
      is; hence no worker leaves the loop without passing line 164. */
  ghost predicate ThreadsOk(s: Sys) {
    && s.workers <= s.threads.Keys && s.caller !in s.workers
    && s.threads.Keys <= s.workers + {s.caller}
    && s.activeCnt == |Working(s)|
    && s.idleCnt == |Idling(s)|
    && s.idleDone <= {s.caller}
    && (forall t :: t in s.threads && HoldsLock(s.threads[t]) ==> t in s.workers)
    && (forall t :: t in s.threads && s.threads[t].Expiring? ==> forall r :: r in s.threads[t].ready ==> r.fd < |s.io.fds|)
    && (forall t :: t in s.threads && s.threads[t].Delivering? ==> forall r :: r in s.threads[t].ready ==> r.fd < |s.io.fds|)
  }

  /** Everything but the kernel's masks, which the triggers of one section lag behind. */
  ghost predicate Coherent(s: Sys) {
    && !s.crashed
    && LiveOk(s) && LogOk(s) && SlotCosOk(s) && PoolOk(s) && ThreadCosOk(s) && RecsOk(s) && CallsOk(s) && ThreadsOk(s)
  }

  ghost predicate LoopInv(s: Sys) {
    Coherent(s) && KernelOk(s.io)
  }

  // ---------------------------------------------------------------- frame lemmas

  lemma RetiredAppend(log: seq<Retirement>, e: Retirement, reg: nat)
    ensures Retired(log + [e], reg) == Retired(log, reg) + if e.reg == reg then 1 else 0
  {
    assert (log + [e])[..|log|] == log;
  }

  /** Only coroutine `c` may differ. */
  ghost predicate SameCosBut(s: Sys, s': Sys, c: nat) {
    forall d :: d != c ==> (d in s.cos <==> d in s'.cos) && (d in s.cos ==> s'.cos[d] == s.cos[d])
  }

  predicate SamePlace(s: Sys, s': Sys, c: nat) {
    c in s.cos && c in s'.cos && s'.cos[c].loc == s.cos[c].loc && s'.cos[c].home == s.cos[c].home
  }

  lemma HistoryFrame(s: Sys, s': Sys)
    requires LiveOk(s) && LogOk(s)
    requires s'.io.fds == s.io.fds && s'.io.pending == s.io.pending
    requires s'.live == s.live && s'.regs == s.regs && s'.log == s.log
    ensures LiveOk(s') && LogOk(s')
  {
    assert forall r :: 0 <= r < |s.regs| ==> IsLive(s', r) == IsLive(s, r);
    assert forall i :: 0 <= i < |s.log| ==> RetirementOk(s, s.log[i]) == RetirementOk(s', s'.log[i]);
  }

  lemma SlotCosFrame(s: Sys, s': Sys, c: nat)
    requires LiveOk(s) && LiveOk(s') && SlotCosOk(s)
    requires s'.io.fds == s.io.fds && s'.live == s.live
    requires SameCosBut(s, s', c)
    requires s'.cos == s.cos || ((c in s.cos ==> !s.cos[c].loc.AtSlot?) && (c in s'.cos ==> !s'.cos[c].loc.AtSlot?)) || SamePlace(s, s', c)
    ensures SlotCosOk(s')
  {
  }

  lemma PoolFrame(s: Sys, s': Sys, c: nat)
    requires PoolOk(s)
    requires s'.pool == s.pool && SameCosBut(s, s', c)
    requires s'.cos == s.cos || ((c in s.cos ==> s.cos[c].loc != Queued) && (c in s'.cos ==> s'.cos[c].loc != Queued)) || SamePlace(s, s', c)
    ensures PoolOk(s')
  {
  }

  /** A task of another kind, or a coroutine that was nowhere near the pool, is appended. */
  lemma PoolAppend(s: Sys, s': Sys, c: nat, task: Task)
    requires PoolOk(s)
    requires s'.pool == s.pool + [task] && SameCosBut(s, s', c)
    requires c in s.cos ==> s.cos[c].loc != Queued
    requires if task.work.Co? then
               task.work.co == c && c in s'.cos && s'.cos[c].loc == Queued
               && (s'.cos[c].home != 0 ==> task.threadId == s'.cos[c].home)
             else c in s'.cos ==> s'.cos[c].loc != Queued
    ensures PoolOk(s')
  {
    forall i: nat, d | IsCo(s'.pool, i, d)
      ensures IsCo(s.pool, i, d) || (i == |s.pool| && task.work == Co(d))
    {
    }
    forall d | d in s'.cos && s'.cos[d].loc == Queued
      ensures exists i: nat :: IsCo(s'.pool, i, d)
    {
      if d == c {
        assert IsCo(s'.pool, |s.pool|, c);
      } else {
        var i: nat :| IsCo(s.pool, i, d);
        assert IsCo(s'.pool, i, d);
      }
    }
  }

  lemma PoolRemove(s: Sys, s': Sys, i: nat)
    requires PoolOk(s)
    requires i < |s.pool| && s'.pool == Without(s.pool, i)
    requires if s.pool[i].work.Co? then
               var c := s.pool[i].work.co;
               SameCosBut(s, s', c) && c in s'.cos && s'.cos[c].loc != Queued
             else s'.cos == s.cos
    ensures PoolOk(s')
  {
    forall j: nat, c | IsCo(s'.pool, j, c)
      ensures IsCo(s.pool, if j < i then j else j + 1, c)
    {
    }
    assert s.pool[i].work.Co? ==> IsCo(s.pool, i, s.pool[i].work.co);
    forall c | c in s'.cos && s'.cos[c].loc == Queued
      ensures exists j: nat :: IsCo(s'.pool, j, c)
    {
      var j: nat :| IsCo(s.pool, j, c);
      assert IsCo(s'.pool, if j < i then j else j - 1, c);
    }
  }

  predicate About(pc: Pc, c: nat) {
    pc == Executing(c) || (pc.Holding? && pc.task.work == Co(c))
  }

  predicate AboutCo(pc: Pc) {
    pc.Executing? || (pc.Holding? && pc.task.work.Co?)
  }

  /** Thread `t` moves, and coroutine `c`, if any, moves with it. */
  lemma ThreadCosFrame(s: Sys, s': Sys, t: nat, c: nat)
    requires ThreadCosOk(s) && SameCosBut(s, s', c)
    requires t in s.threads && t in s'.threads && s'.threads == s.threads[t := s'.threads[t]]
    requires AboutCo(s.threads[t]) ==> About(s.threads[t], c)
    requires AboutCo(s'.threads[t]) ==> About(s'.threads[t], c) && c in s'.cos
    requires c in s.cos ==> (s.cos[c].loc.InHand? ==> s.cos[c].loc.tid == t) && (s.cos[c].on != 0 ==> s.cos[c].on == t)
    requires c in s'.cos ==>
               && (s'.cos[c].loc.InHand? <==> Holds(s', t, c)) && (Holds(s', t, c) ==> s'.cos[c].loc == InHand(t))
               && (s'.cos[c].on != 0 <==> Executes(s', t, c)) && (Executes(s', t, c) ==> s'.cos[c].on == t)
    ensures ThreadCosOk(s')
  {
    forall u, d | u != t
      ensures Holds(s', u, d) == Holds(s, u, d) && Executes(s', u, d) == Executes(s, u, d)
    {
    }
    forall d | d != c
      ensures !Holds(s, t, d) && !Executes(s, t, d) && !Holds(s', t, d) && !Executes(s', t, d)
    {
    }
  }

  lemma ThreadCosMove(s: Sys, s': Sys, t: nat)
    requires ThreadCosOk(s) && s'.cos == s.cos
    requires t in s.threads && t in s'.threads && s'.threads == s.threads[t := s'.threads[t]]
    requires !AboutCo(s.threads[t]) && !AboutCo(s'.threads[t])
    ensures ThreadCosOk(s')
  {
    assert forall u, d :: Holds(s', u, d) == Holds(s, u, d) && Executes(s', u, d) == Executes(s, u, d);
  }

  /** No thread moves; coroutine `c` keeps its hand and thread, or never had one. */
  lemma ThreadCosStill(s: Sys, s': Sys, c: nat)
    requires ThreadCosOk(s) && s'.threads == s.threads && SameCosBut(s, s', c)
    requires c in s.cos ==> c in s'.cos && s'.cos[c].on == s.cos[c].on
    requires c in s.cos && c in s'.cos ==> s'.cos[c].loc == s.cos[c].loc || (!s.cos[c].loc.InHand? && !s'.cos[c].loc.InHand?)
    requires c !in s.cos && c in s'.cos ==> s'.cos[c].on == 0 && !s'.cos[c].loc.InHand?
    ensures ThreadCosOk(s')
  {
    assert forall u, d :: Holds(s', u, d) == Holds(s, u, d) && Executes(s', u, d) == Executes(s, u, d);
  }

  lemma CallsFrame(s: Sys, s': Sys)
    requires CallsOk(s) && s.calls.Keys <= s'.calls.Keys
    requires forall c :: c in s'.cos ==> (c in s.cos && s'.cos[c].phase == s.cos[c].phase) || PhaseCallOk(s'.calls, s'.cos[c].phase)
    requires forall task :: task in s'.pool ==> task in s.pool || WorkOk(s'.calls, task.work)
    requires forall t :: t in s'.threads && s'.threads[t].Holding? ==>
               (t in s.threads && s'.threads[t] == s.threads[t]) || WorkOk(s'.calls, s'.threads[t].task.work)
    requires forall id :: id in s'.timers ==> (id in s.timers && s'.timers[id] == s.timers[id]) || (s'.timers[id] in s'.calls && id < s'.nextTimer)
    requires s'.nextTimer >= s.nextTimer
    requires s.regs <= s'.regs && forall r :: |s.regs| <= r < |s'.regs| ==> WorkOk(s'.calls, s'.regs[r].task.work)
    ensures CallsOk(s')
  {
    forall i | 0 <= i < |s'.pool|
      ensures WorkOk(s'.calls, s'.pool[i].work)
    {
      if s'.pool[i] in s.pool {
        var j :| 0 <= j < |s.pool| && s.pool[j] == s'.pool[i];
        assert WorkOk(s.calls, s.pool[j].work);
      } else {
        assert s'.pool[i] in s'.pool;
      }
    }
  }

  /** A thread moving between two program points that count the same. */
  lemma ThreadsMove(s: Sys, s': Sys, t: nat)
    requires ThreadsOk(s) && t in s.threads
    requires t in s'.threads && s'.threads == s.threads[t := s'.threads[t]]
    requires s'.workers == s.workers && s'.caller == s.caller && s'.idleDone == s.idleDone
    requires s'.activeCnt == s.activeCnt && s'.idleCnt == s.idleCnt
    requires |s'.io.fds| >= |s.io.fds|
    requires Gone(s'.threads[t]) == Gone(s.threads[t]) && InIdle(s'.threads[t]) == InIdle(s.threads[t])
    requires HoldsLock(s'.threads[t]) ==> t in s.workers
    requires s'.threads[t].Expiring? || s'.threads[t].Delivering? ==> forall r :: r in s'.threads[t].ready ==> r.fd < |s'.io.fds|
    ensures ThreadsOk(s')
  {
    assert Working(s') == Working(s);
    assert Idling(s') == Idling(s);
  }

  lemma ThreadsStill(s: Sys, s': Sys)
    requires ThreadsOk(s) && s'.threads == s.threads
    requires s'.workers == s.workers && s'.caller == s.caller && s'.idleDone == s.idleDone
    requires s'.activeCnt == s.activeCnt && s'.idleCnt == s.idleCnt
    requires |s'.io.fds| >= |s.io.fds|
    ensures ThreadsOk(s')
  {
    assert Working(s') == Working(s);
    assert Idling(s') == Idling(s);
  }

  // ---------------------------------------------------------------- reading the invariant

  lemma PoolFact(s: Sys, i: nat)
    requires PoolOk(s) && CallsOk(s) && i < |s.pool|
    ensures WorkOk(s.calls, s.pool[i].work)
    ensures s.pool[i].work.Co? ==>
              var c := s.pool[i].work.co;
              c in s.cos && s.cos[c].loc == Queued && (s.cos[c].home != 0 ==> s.pool[i].threadId == s.cos[c].home)
  {
    assert s.pool[i].work.Co? ==> IsCo(s.pool, i, s.pool[i].work.co);
  }

  lemma ThreadFact(s: Sys, t: nat)
    requires ThreadCosOk(s) && CallsOk(s) && t in s.threads
    ensures t != 0
    ensures s.threads[t].Holding? ==> WorkOk(s.calls, s.threads[t].task.work)
    ensures s.threads[t].Holding? && s.threads[t].task.work.Co? ==>
              s.threads[t].task.work.co in s.cos && s.cos[s.threads[t].task.work.co].loc == InHand(t)
    ensures s.threads[t].Executing? ==> s.threads[t].co in s.cos && s.cos[s.threads[t].co].on == t
  {
    assert s.threads[t].Holding? && s.threads[t].task.work.Co? ==> Holds(s, t, s.threads[t].task.work.co);
    assert s.threads[t].Executing? ==> Executes(s, t, s.threads[t].co);
  }

  /** A coroutine no thread is about has neither a hand nor a thread. */
  lemma CoFact(s: Sys, c: nat)
    requires ThreadCosOk(s) && c in s.cos
    ensures s.cos[c].on != 0 ==> Executes(s, s.cos[c].on, c)
    ensures s.cos[c].loc.InHand? ==> Holds(s, s.cos[c].loc.tid, c)
  {
  }

  lemma PhaseFact(s: Sys, c: nat)
    requires CallsOk(s) && c in s.cos
    ensures PhaseCallOk(s.calls, s.cos[c].phase)
  {
  }

  // ---------------------------------------------------------------- the run loop

  /** The task a thread may take is for a coroutine nobody is executing, and that is its own or nobody's. */
  lemma TakeFact(s: Sys, t: nat, i: nat)
    requires ThreadCosOk(s) && PoolOk(s) && RecsOk(s) && CallsOk(s)
    requires At(s, t, Scanning) && i < |s.pool| && Eligible(s.pool[i], t) && s.pool[i].work.Co?
    ensures var c := s.pool[i].work.co;
            c in s.cos && s.cos[c].on == 0 && (s.cos[c].home == 0 || s.cos[c].home == t)
            && RecOk(s.cos[c].(loc := InHand(t)))
  {
    var c := s.pool[i].work.co;
    PoolFact(s, i);
    ThreadFact(s, t);
    CoFact(s, c);
    assert RecOk(s.cos[c]);
  }

  lemma TakeCoKeeps(s: Sys, t: nat, i: nat)
    requires LoopInv(s) && At(s, t, Scanning) && i == FirstEligible(s.pool, t) < |s.pool| && s.pool[i].work.Co?
    ensures LoopInv(DoTake(s, t))
  {
    hide LiveOk, LogOk, SlotCosOk, PoolOk, ThreadCosOk, ThreadsOk, CallsOk, KernelOk, RecOk, WorkOk;
    var s', c := DoTake(s, t), s.pool[i].work.co;
    ThreadFact(s, t);
    PoolFact(s, i);
    CoFact(s, c);
    TakeFact(s, t, i);
    HistoryFrame(s, s');
    SlotCosFrame(s, s', c);
    ThreadCosFrame(s, s', t, c);
    PoolRemove(s, s', i);
    CallsFrame(s, s');
    ThreadsMove(s, s', t);
  }

  lemma TakeKeeps(s: Sys, t: nat)
    requires LoopInv(s) && Enabled(s, Take(t))
    ensures LoopInv(DoTake(s, t))
  {
    hide LiveOk, LogOk, SlotCosOk, PoolOk, ThreadCosOk, ThreadsOk, CallsOk, KernelOk, RecOk, WorkOk;
    var i := FirstEligible(s.pool, t);
    var s' := DoTake(s, t);
    if i < |s.pool| && s.pool[i].work.Co? {
      TakeCoKeeps(s, t, i);
    } else if i < |s.pool| {
      PoolFact(s, i);
      HistoryFrame(s, s');
      SlotCosFrame(s, s', 0);
      PoolRemove(s, s', i);
      ThreadCosMove(s, s', t);
      CallsFrame(s, s');
      ThreadsMove(s, s', t);
    } else {
      ThreadsMove(s, s', t);
      PcOnly(s, s', t);
    }
  }

  /** A thread moves, and counters and flags change; nothing else does. */
  lemma PcOnly(s: Sys, s': Sys, t: nat)
    requires LoopInv(s) && ThreadsOk(s')
    requires t in s.threads && t in s'.threads && s'.threads == s.threads[t := s'.threads[t]]
    requires s' == s.(threads := s'.threads, autoStop := s'.autoStop, stopFlag := s'.stopFlag,
                   idleCnt := s'.idleCnt, activeCnt := s'.activeCnt, idleDone := s'.idleDone)
    requires !AboutCo(s.threads[t]) && !AboutCo(s'.threads[t]) && !s'.threads[t].Holding?
    ensures LoopInv(s')
  {
    hide LiveOk, LogOk, SlotCosOk, PoolOk, ThreadCosOk, ThreadsOk, CallsOk, KernelOk, RecOk, WorkOk;
    HistoryFrame(s, s');
    SlotCosFrame(s, s', 0);
    PoolFrame(s, s', 0);
    ThreadCosMove(s, s', t);
    CallsFrame(s, s');
  }

  lemma WorkingStep(s: Sys, s': Sys, t: nat)
    requires t in s.threads && t in s'.threads && s'.threads == s.threads[t := s'.threads[t]] && s'.workers == s.workers
    requires Gone(s.threads[t]) ==> Gone(s'.threads[t])
    ensures |Working(s')| == |Working(s)| - if t in s.workers && Gone(s'.threads[t]) && !Gone(s.threads[t]) then 1 else 0
  {
    if t in s.workers && Gone(s'.threads[t]) && !Gone(s.threads[t]) {
      assert t in Working(s);
      assert Working(s') == Working(s) - {t};
    } else {
      assert Working(s') == Working(s);
    }
  }

  lemma IdlingStep(s: Sys, s': Sys, t: nat)
    requires t in s.threads && t in s'.threads && s'.threads == s.threads[t := s'.threads[t]]
    ensures |Idling(s')| + (if InIdle(s.threads[t]) then 1 else 0) == |Idling(s)| + if InIdle(s'.threads[t]) then 1 else 0
  {
    var rest := Idling(s) - {t};
    assert Idling(s) == if InIdle(s.threads[t]) then rest + {t} else rest;
    assert Idling(s') == if InIdle(s'.threads[t]) then rest + {t} else rest;
  }

  /** The counters follow a thread's move. */
  lemma ThreadsStep(s: Sys, s': Sys, t: nat)
    requires ThreadsOk(s) && t in s.threads && t in s'.threads && s'.threads == s.threads[t := s'.threads[t]]
    requires s'.workers == s.workers && s'.caller == s.caller && s'.idleDone <= {s.caller} && |s'.io.fds| >= |s.io.fds|
    requires Gone(s.threads[t]) ==> Gone(s'.threads[t])
    requires s'.activeCnt == s.activeCnt - if t in s.workers && Gone(s'.threads[t]) && !Gone(s.threads[t]) then 1 else 0
    requires s'.idleCnt + (if InIdle(s.threads[t]) then 1 else 0) == s.idleCnt + if InIdle(s'.threads[t]) then 1 else 0
    requires HoldsLock(s'.threads[t]) ==> t in s.workers
    requires s'.threads[t].Expiring? || s'.threads[t].Delivering? ==> forall r :: r in s'.threads[t].ready ==> r.fd < |s'.io.fds|
    ensures ThreadsOk(s')
  {
    hide Working, Idling, Gone, InIdle;
    WorkingStep(s, s', t);
    IdlingStep(s, s', t);
  }

  lemma CountFact(s: Sys, t: nat)
    requires ThreadsOk(s) && t in s.threads
    ensures t in s.workers && !Gone(s.threads[t]) ==> s.activeCnt > 0
    ensures InIdle(s.threads[t]) ==> s.idleCnt > 0
    ensures t == s.caller || t in s.workers
    ensures s.idleDone <= {s.caller} && s.caller !in s.workers
    ensures HoldsLock(s.threads[t]) ==> t in s.workers
  {
    assert t in s.workers && !Gone(s.threads[t]) ==> t in Working(s);
    assert InIdle(s.threads[t]) ==> t in Idling(s);
  }

  lemma ReadyFact(s: Sys, t: nat)
    requires ThreadsOk(s) && t in s.threads
    ensures s.threads[t].Expiring? || s.threads[t].Delivering? ==> forall r :: r in s.threads[t].ready ==> r.fd < |s.io.fds|
  {
  }

  lemma DecideKeeps(s: Sys, t: nat)
    requires LoopInv(s) && Enabled(s, Decide(t))
    ensures LoopInv(DoDecide(s, t))
  {
    hide LiveOk, LogOk, SlotCosOk, PoolOk, ThreadCosOk, ThreadsOk, CallsOk, KernelOk;
    var s' := DoDecide(s, t);
    CountFact(s, t);
    ThreadsStep(s, s', t);
    PcOnly(s, s', t);
  }

  lemma CloseCheckKeeps(s: Sys, t: nat)
    requires LoopInv(s) && Enabled(s, CloseCheck(t))
    ensures LoopInv(DoCloseCheck(s, t))
  {
    hide LiveOk, LogOk, SlotCosOk, PoolOk, ThreadCosOk, ThreadsOk, CallsOk, KernelOk;
    var s' := DoCloseCheck(s, t);
    CountFact(s, t);
    ThreadsStep(s, s', t);
    PcOnly(s, s', t);
  }

  /** A worker inside idle sees neither stopping() nor canEarlyClosure(). */
  lemma IdleWorkerStays(s: Sys, t: nat)
    requires ThreadsOk(s) && t in s.threads && InIdle(s.threads[t])
    ensures !EarlyClosure(s)
    ensures t in s.workers ==> !Stopping(s)
  {
    assert t in Idling(s);
    if t in s.workers { assert t in Working(s); }
  }

  lemma IdleCheckKeeps(s: Sys, t: nat, ready: seq<Ready>)
    requires LoopInv(s) && Enabled(s, IdleCheck(t, ready))
    ensures LoopInv(DoIdleCheck(s, t, ready))
  {
    hide LiveOk, LogOk, SlotCosOk, PoolOk, ThreadCosOk, ThreadsOk, CallsOk, KernelOk;
    var s' := DoIdleCheck(s, t, ready);
    CountFact(s, t);
    IdleWorkerStays(s, t);
    ThreadsStep(s, s', t);
    PcOnly(s, s', t);
  }

  lemma IdleYieldKeeps(s: Sys, t: nat)
    requires LoopInv(s) && Enabled(s, IdleYield(t))
    ensures LoopInv(Apply(s, IdleYield(t)))
  {
    hide LiveOk, LogOk, SlotCosOk, PoolOk, ThreadCosOk, ThreadsOk, CallsOk, KernelOk;
    var s' := Move(s, t, Scanning).(idleCnt := Decrement(s.idleCnt));
    CountFact(s, t);
    ThreadsStep(s, s', t);
    PcOnly(s, s', t);
  }

  lemma FlagsKeep(s: Sys, autoStop: bool, stopFlag: bool)
    requires LoopInv(s)
    ensures LoopInv(s.(autoStop := autoStop, stopFlag := stopFlag))
  {
    hide LiveOk, LogOk, SlotCosOk, PoolOk, ThreadCosOk, CallsOk, KernelOk, RecOk, WorkOk, ThreadsOk;
    var s' := s.(autoStop := autoStop, stopFlag := stopFlag);
    ThreadsStill(s, s');
    HistoryFrame(s, s');
    SlotCosFrame(s, s', 0);
    PoolFrame(s, s', 0);
    ThreadCosStill(s, s', 0);
    CallsFrame(s, s');
  }

  /** Coroutine `c` and thread `t` move together; nothing else changes. */
  lemma MoveWith(s: Sys, s': Sys, t: nat, c: nat)
    requires LoopInv(s)
    requires t in s.threads && c in s.cos && c in s'.cos && t in s'.threads
    requires s' == s.(threads := s.threads[t := s'.threads[t]], cos := s.cos[c := s'.cos[c]])
    requires About(s.threads[t], c)
    requires s'.threads[t] == Scanning || s'.threads[t] == Executing(c)
    requires RecOk(s.cos[c]) && RecOk(s'.cos[c]) && PhaseCallOk(s.calls, s'.cos[c].phase)
    requires s.cos[c].on == if s.threads[t] == Executing(c) then t else 0
    requires s.cos[c].loc.InHand? ==> s.cos[c].loc == InHand(t)
    requires s.threads[t].Holding? ==> s.cos[c].loc == InHand(t)
    requires !s'.cos[c].loc.InHand? && s'.cos[c].on == if s'.threads[t] == Executing(c) then t else 0
    requires SamePlace(s, s', c) || (s.cos[c].loc.InHand? && s'.cos[c].loc == Nowhere)
    ensures LoopInv(s')
  {
    hide LiveOk, LogOk, SlotCosOk, PoolOk, ThreadCosOk, ThreadsOk, CallsOk, KernelOk, RecOk, WorkOk, PhaseCallOk;
    ThreadFact(s, t);
    CoFact(s, c);
    HistoryFrame(s, s');
    SlotCosFrame(s, s', c);
    PoolFrame(s, s', c);
    ThreadCosFrame(s, s', t, c);
    CallsFrame(s, s');
    ThreadsMove(s, s', t);
  }

  lemma DispatchCoKeeps(s: Sys, t: nat, id: nat)
    requires LoopInv(s) && Enabled(s, Dispatch(t, id)) && s.threads[t].task.work.Co?
    ensures LoopInv(DoDispatch(s, t, id))
  {
    hide LiveOk, LogOk, SlotCosOk, PoolOk, ThreadCosOk, ThreadsOk, CallsOk, KernelOk;
    var c := s.threads[t].task.work.co;
    ThreadFact(s, t);
    PhaseFact(s, c);
    assert RecOk(s.cos[c]);
    MoveWith(s, DoDispatch(s, t, id), t, c);
  }

  lemma DispatchCbKeeps(s: Sys, t: nat, id: nat)
    requires LoopInv(s) && Enabled(s, Dispatch(t, id)) && s.threads[t].task.work.Cb?
    ensures LoopInv(DoDispatch(s, t, id))
  {
    hide LiveOk, LogOk, SlotCosOk, PoolOk, ThreadCosOk, ThreadsOk, CallsOk, KernelOk;
    var s' := DoDispatch(s, t, id);
    ThreadFact(s, t);
    var mid := Move(s, t, Scanning);
    ThreadsMove(s, mid, t);
    PcOnly(s, mid, t);
    NewCoKeeps(mid, s', id, Task(Co(id), s.threads[t].task.threadId));
  }

  /** A coroutine that never ran is created and queued. */
  lemma NewCoKeeps(s: Sys, s': Sys, id: nat, task: Task)
    requires LoopInv(s) && id !in s.cos && id in s'.cos
    requires s' == s.(cos := s.cos[id := s'.cos[id]], pool := s.pool + [task])
    requires task.work == Co(id) && s'.cos[id].loc == Queued && s'.cos[id].home == 0 && s'.cos[id].on == 0
    requires RecOk(s'.cos[id]) && PhaseCallOk(s.calls, s'.cos[id].phase)
    ensures LoopInv(s')
  {
    hide LiveOk, LogOk, SlotCosOk, PoolOk, ThreadCosOk, ThreadsOk, CallsOk, KernelOk, RecOk, PhaseCallOk;
    HistoryFrame(s, s');
    SlotCosFrame(s, s', id);
    PoolAppend(s, s', id, task);
    ThreadCosStill(s, s', id);
    CallsFrame(s, s');
    ThreadsStill(s, s');
  }

  lemma PoolAppendCallbacks(s: Sys, s': Sys)
    requires PoolOk(s) && s'.cos == s.cos
    requires s.pool <= s'.pool && forall i :: |s.pool| <= i < |s'.pool| ==> s'.pool[i].work.Cb?
    ensures PoolOk(s')
  {
    forall i: nat, d
      ensures IsCo(s'.pool, i, d) <==> IsCo(s.pool, i, d)
    {
    }
  }

  lemma TimerFact(s: Sys, id: nat)
    requires CallsOk(s) && id in s.timers
    ensures s.timers[id] in s.calls
  {
  }

  lemma ExpiredPool(s: Sys, ids: seq<nat>)
    requires CallsOk(s) && forall id :: id in ids ==> id in s.timers
    ensures var p := QueueAll(s.pool, s.autoStop, ExpiredWorks(s, ids), false);
            && s.pool <= p
            && (forall i :: |s.pool| <= i < |p| ==> p[i].work.Cb?)
            && (forall task :: task in p ==> task in s.pool || WorkOk(s.calls, task.work))
  {
    var works := ExpiredWorks(s, ids);
    var p := QueueAll(s.pool, s.autoStop, works, false);
    QueueAllAppends(s.pool, s.autoStop, works, false);
    forall i | |s.pool| <= i < |p|
      ensures p[i].work.Cb? && WorkOk(s.calls, p[i].work)
    {
      assert p[|s.pool| + (i - |s.pool|)] == Task(works[i - |s.pool|].value, 0);
      TimerFact(s, ids[i - |s.pool|]);
    }
    forall task | task in p
      ensures task in s.pool || WorkOk(s.calls, task.work)
    {
      var i :| 0 <= i < |p| && p[i] == task;
      if i < |s.pool| { assert s.pool[i] == task; }
    }
  }

  lemma ExpireKeeps(s: Sys, t: nat, ids: seq<nat>)
    requires LoopInv(s) && Enabled(s, Expire(t, ids))
    ensures LoopInv(DoExpire(s, t, ids))
  {
    hide LiveOk, LogOk, SlotCosOk, PoolOk, ThreadCosOk, ThreadsOk, CallsOk, KernelOk, RecOk, WorkOk, QueueAll, ExpiredWorks;
    var s' := DoExpire(s, t, ids);
    ExpiredPool(s, ids);
    ReadyFact(s, t);
    HistoryFrame(s, s');
    SlotCosFrame(s, s', 0);
    PoolAppendCallbacks(s, s');
    ThreadCosMove(s, s', t);
    CallsFrame(s, s');
    ThreadsMove(s, s', t);
  }

  // ---------------------------------------------------------------- coroutines between their waits

  /** The coroutine a thread executes changes phase; calls and timers may change with it. */
  lemma PhaseKeeps(s: Sys, s': Sys, t: nat)
    requires LoopInv(s) && Runs(s, t)
    requires var c := s.threads[t].co;
             c in s'.cos && s' == s.(cos := s.cos[c := s.cos[c].(phase := s'.cos[c].phase)],
             calls := s'.calls, timers := s'.timers, nextTimer := s'.nextTimer)
             && RecOk(s'.cos[c]) && PhaseCallOk(s'.calls, s'.cos[c].phase)
    requires s.calls.Keys <= s'.calls.Keys && s'.nextTimer >= s.nextTimer
    requires forall id :: id in s'.timers ==> (id in s.timers && s'.timers[id] == s.timers[id]) || (s'.timers[id] in s'.calls && id < s'.nextTimer)
    ensures LoopInv(s')
  {
    hide LiveOk, LogOk, SlotCosOk, PoolOk, ThreadCosOk, ThreadsOk, CallsOk, KernelOk, RecOk, PhaseCallOk;
    var c := s.threads[t].co;
    HistoryFrame(s, s');
    SlotCosFrame(s, s', c);
    PoolFrame(s, s', c);
    ThreadCosStill(s, s', c);
    CallsFrame(s, s');
    ThreadsStill(s, s');
  }

  lemma RunsFact(s: Sys, t: nat)
    requires LoopInv(s) && Runs(s, t)
    ensures var rec := s.cos[s.threads[t].co];
            rec.on == t && rec.home == t && t != 0 && !rec.done && (!rec.phase.Waiting? ==> rec.loc == Nowhere)
            && PhaseCallOk(s.calls, rec.phase)
  {
    var c := s.threads[t].co;
    ThreadFact(s, t);
    PhaseFact(s, c);
    assert RecOk(s.cos[c]);
  }

  lemma BeginKeeps(s: Sys, t: nat, slot: Slot, timed: bool, call: nat)
    requires LoopInv(s) && Enabled(s, Begin(t, slot, timed, call))
    ensures LoopInv(DoBegin(s, t, slot, timed, call))
  {
    hide LiveOk, LogOk, SlotCosOk, PoolOk, ThreadCosOk, ThreadsOk, CallsOk, KernelOk;
    RunsFact(s, t);
    PhaseKeeps(s, DoBegin(s, t, slot, timed, call), t);
  }

  lemma AttemptKeeps(s: Sys, t: nat, again: bool)
    requires LoopInv(s) && InCall(s, t) && PhaseOn(s, t).Trying?
    ensures LoopInv(DoAttempt(s, t, again))
  {
    hide LiveOk, LogOk, SlotCosOk, PoolOk, ThreadCosOk, ThreadsOk, CallsOk, KernelOk;
    RunsFact(s, t);
    PhaseKeeps(s, DoAttempt(s, t, again), t);
  }

  lemma WakeKeeps(s: Sys, t: nat, retry: bool)
    requires LoopInv(s) && InCall(s, t) && PhaseOn(s, t).Parked?
    ensures LoopInv(DoWake(s, t, retry))
  {
    hide LiveOk, LogOk, SlotCosOk, PoolOk, ThreadCosOk, ThreadsOk, CallsOk, KernelOk;
    RunsFact(s, t);
    PhaseKeeps(s, DoWake(s, t, retry), t);
  }

  lemma CheckTimeoutKeeps(s: Sys, t: nat)
    requires LoopInv(s) && InCall(s, t) && PhaseOn(s, t).Checking?
    ensures LoopInv(DoCheckTimeout(s, t))
  {
    hide LiveOk, LogOk, SlotCosOk, PoolOk, ThreadCosOk, ThreadsOk, CallsOk, KernelOk;
    RunsFact(s, t);
    PhaseKeeps(s, DoCheckTimeout(s, t), t);
  }

  lemma YieldKeeps(s: Sys, t: nat)
    requires LoopInv(s) && Runs(s, t) && PhaseOn(s, t).Waiting?
    ensures LoopInv(DoYield(s, t))
  {
    hide LiveOk, LogOk, SlotCosOk, PoolOk, ThreadCosOk, ThreadsOk, CallsOk, KernelOk;
    RunsFact(s, t);
    assert RecOk(s.cos[s.threads[t].co]);
    MoveWith(s, DoYield(s, t), t, s.threads[t].co);
  }

  lemma FinishKeeps(s: Sys, t: nat)
    requires LoopInv(s) && Enabled(s, Finish(t))
    ensures LoopInv(DoFinish(s, t))
  {
    hide LiveOk, LogOk, SlotCosOk, PoolOk, ThreadCosOk, ThreadsOk, CallsOk, KernelOk;
    RunsFact(s, t);
    assert RecOk(s.cos[s.threads[t].co]);
    MoveWith(s, DoFinish(s, t), t, s.threads[t].co);
  }

  lemma SpawnKeeps(s: Sys, actor: Option<nat>, callback: Option<nat>, pin: nat, force: bool, id: nat)
    requires LoopInv(s) && Enabled(s, Spawn(actor, callback, pin, force, id))
    ensures LoopInv(DoSpawn(s, callback, pin, force, id))
  {
    hide LiveOk, LogOk, SlotCosOk, PoolOk, ThreadCosOk, ThreadsOk, CallsOk, KernelOk;
    var s' := DoSpawn(s, callback, pin, force, id);
    if !s.autoStop || force {
      if callback.Some? {
        NewCallbackKeeps(s, s', callback.value, pin);
      } else {
        NewCoKeeps(s, s', id, Task(Co(id), pin));
      }
    }
  }

  lemma NewCallbackKeeps(s: Sys, s': Sys, func: nat, pin: nat)
    requires LoopInv(s) && s' == s.(pool := s.pool + [Task(Cb(UserFunc(func)), pin)])
    ensures LoopInv(s')
  {
    hide LiveOk, LogOk, SlotCosOk, PoolOk, ThreadCosOk, ThreadsOk, CallsOk, KernelOk, RecOk;
    HistoryFrame(s, s');
    SlotCosFrame(s, s', 0);
    PoolAppendCallbacks(s, s');
    ThreadCosStill(s, s', 0);
    CallsFrame(s, s');
    ThreadsStill(s, s');
  }

  // ---------------------------------------------------------------- addEvent

  ghost predicate SlotsKept(io: Io, io': Io) {
    forall x: Slot :: (Registered(io', x.fd, x.event) <==> Registered(io, x.fd, x.event)) &&
                      (Registered(io, x.fd, x.event) ==> io'.fds[x.fd].Ctx(x.event) == io.fds[x.fd].Ctx(x.event))
  }

  /** One slot gains its bit; the others keep bits and contexts. */
  ghost predicate SlotAdded(io: Io, io': Io, slot: Slot) {
    && !Registered(io, slot.fd, slot.event) && Registered(io', slot.fd, slot.event)
    && (forall x: Slot :: x != slot ==> (Registered(io', x.fd, x.event) <==> Registered(io, x.fd, x.event)))
    && (forall x: Slot :: Registered(io, x.fd, x.event) ==> io'.fds[x.fd].Ctx(x.event) == io.fds[x.fd].Ctx(x.event))
  }

  lemma GrowSlots(io: Io, fd: nat)
    requires Inv(io)
    ensures SlotsKept(io, io.(fds := Grow(io.fds, fd)))
  {
    hide KernelOk, CountOk, SlotsOk;
    GrowKeepsInv(io, fd);
  }

  lemma AddSlot(io: Io, io': Io, slot: Slot, ctx: EventCtx)
    requires slot.fd < |io.fds| && slot.event !in io.fds[slot.fd].events
    requires var f := io.fds[slot.fd];
             io'.fds == io.fds[slot.fd := f.(events := f.events + {slot.event}).WithCtx(slot.event, ctx)]
    ensures SlotAdded(io, io', slot)
    ensures io'.fds[slot.fd].Ctx(slot.event) == ctx
  {
  }

  lemma AddEventSlots(io: Io, slot: Slot, cb: Option<Callback>, co: nat, tid: nat)
    requires Inv(io) && AddEvent(io, slot.fd, slot.event, cb, co, tid, true).1
    ensures var io' := AddEvent(io, slot.fd, slot.event, cb, co, tid, true).0;
            && SlotAdded(io, io', slot) && Inv(io') && |io'.fds| >= |io.fds|
            && var ctx := io'.fds[slot.fd].Ctx(slot.event);
               ctx.Occupied() && if cb.Some? then ctx.cb == cb && ctx.co == None
                                 else ctx.co == Some(co) && ctx.cb == None && ctx.threadId == tid
  {
    hide KernelOk, CountOk, SlotsOk;
    var grown := io.(fds := Grow(io.fds, slot.fd));
    var io' := AddEvent(io, slot.fd, slot.event, cb, co, tid, true).0;
    AddEventKeepsInv(io, slot.fd, slot.event, cb, co, tid, true);
    GrowKeepsInv(io, slot.fd);
    GrowSlots(io, slot.fd);
    AddSlot(grown, io', slot, io'.fds[slot.fd].Ctx(slot.event));
  }

  lemma AddFailedIo(io: Io, slot: Slot, cb: Option<Callback>, co: nat, tid: nat, up: bool)
    requires Inv(io) && !AddEvent(io, slot.fd, slot.event, cb, co, tid, up).1
    ensures AddEvent(io, slot.fd, slot.event, cb, co, tid, up).0 == io.(fds := Grow(io.fds, slot.fd))
  {
  }

  lemma SlotsKeptHistory(s: Sys, s': Sys)
    requires LiveOk(s) && LogOk(s) && SlotsOk(s'.io) && CountOk(s'.io) && |s'.io.fds| >= INITIAL_FDS
    requires s' == s.(io := s'.io) && SlotsKept(s.io, s'.io)
    ensures LiveOk(s') && LogOk(s')
  {
    assert forall r :: 0 <= r < |s.regs| ==> IsLive(s', r) == IsLive(s, r);
    assert forall i :: 0 <= i < |s.log| ==> RetirementOk(s, s.log[i]) == RetirementOk(s', s'.log[i]);
  }

  lemma SlotsKeptCos(s: Sys, s': Sys)
    requires LiveOk(s) && LiveOk(s') && SlotCosOk(s)
    requires s' == s.(io := s'.io) && SlotsKept(s.io, s'.io)
    ensures SlotCosOk(s')
  {
  }

  lemma IoInv(s: Sys)
    requires LoopInv(s)
    ensures Inv(s.io)
  {
  }

  /** A failed addEvent may still have grown the context table. */
  lemma GrownKeeps(s: Sys, s': Sys, fd: nat)
    requires LoopInv(s)
    requires s' == s.(io := s.io.(fds := Grow(s.io.fds, fd)))
    ensures LoopInv(s')
  {
    hide LogOk, PoolOk, ThreadCosOk, ThreadsOk, CallsOk, KernelOk, SlotsOk, CountOk, SlotsKept, SlotCosOk, LiveOk;
    IoInv(s);
    GrowKeepsInv(s.io, fd);
    GrowSlots(s.io, fd);
    SlotsKeptHistory(s, s');
    SlotsKeptCos(s, s');
    PoolFrame(s, s', 0);
    ThreadCosStill(s, s', 0);
    CallsFrame(s, s');
    ThreadsStill(s, s');
  }

  // ---------------------------------------------------------------- a new registration

  lemma EnterHistory(s: Sys, s': Sys, slot: Slot)
    requires LiveOk(s) && LogOk(s) && SlotsOk(s'.io) && CountOk(s'.io) && |s'.io.fds| >= |s.io.fds|
    requires SlotAdded(s.io, s'.io, slot) && slot.fd < |s'.io.fds| && CtxAt(s', slot).Occupied()
    requires s'.log == s.log && s'.live == s.live[slot := |s.regs|]
    requires s'.regs == s.regs + [Reg(slot, CtxAt(s', slot).Continuation())]
    ensures LiveOk(s') && LogOk(s')
  {
    assert slot !in s.live;
    forall x | x in s.live
      ensures s'.live[x] == s.live[x] && CtxAt(s', x) == CtxAt(s, x)
    {
      assert Registered(s.io, x.fd, x.event);
    }
    EnterLog(s, s', slot);
  }

  lemma RetiredNone(log: seq<Retirement>, reg: nat)
    requires forall i :: 0 <= i < |log| ==> log[i].reg != reg
    ensures Retired(log, reg) == 0
  {
  }

  lemma EnterLog(s: Sys, s': Sys, slot: Slot)
    requires LogOk(s) && slot !in s.live
    requires s'.log == s.log && s'.live == s.live[slot := |s.regs|]
    requires |s'.regs| == |s.regs| + 1 && s.regs <= s'.regs && s'.regs[|s.regs|].slot == slot
    ensures LogOk(s')
  {
    assert forall i :: 0 <= i < |s.log| ==> RetirementOk(s, s.log[i]);
    forall r | 0 <= r < |s'.regs|
      ensures Retired(s'.log, r) == if IsLive(s', r) then 0 else 1
    {
      if r < |s.regs| {
        assert IsLive(s', r) == IsLive(s, r);
      } else {
        RetiredNone(s.log, r);
      }
    }
  }

  /** The slot's coroutine, if it is one, is the one that just registered. */
  lemma EnterCos(s: Sys, s': Sys, slot: Slot, c: nat)
    requires LiveOk(s) && LiveOk(s') && SlotCosOk(s)
    requires SlotAdded(s.io, s'.io, slot) && s'.live == s.live[slot := |s.regs|]
    requires SameCosBut(s, s', c)
    requires if CtxAt(s', slot).co.Some? then
               CtxAt(s', slot).co == Some(c) && c in s'.cos && s'.cos[c].loc == AtSlot(slot)
               && s'.cos[c].home == CtxAt(s', slot).threadId && (c in s.cos ==> !s.cos[c].loc.AtSlot?)
             else s'.cos == s.cos
    ensures SlotCosOk(s')
  {
    hide LiveOk, SlotAdded, Registered, CtxAt;
    LiveCtxKept(s, s', slot);
    forall x | x in s'.live
      ensures SlotLinked(s', x)
    {
      if x != slot { assert SlotLinked(s, x); }
    }
    forall d | d in s'.cos
      ensures CoLinked(s', d)
    {
      if d in s.cos { assert CoLinked(s, d); }
    }
  }

  lemma LiveCtxKept(s: Sys, s': Sys, slot: Slot)
    requires LiveOk(s) && SlotAdded(s.io, s'.io, slot)
    ensures slot !in s.live && slot.fd < |s'.io.fds|
    ensures forall x :: x in s.live ==> x.fd < |s.io.fds| && x.fd < |s'.io.fds| && CtxAt(s', x) == CtxAt(s, x)
  {
    forall x | x in s.live
      ensures x.fd < |s'.io.fds| && CtxAt(s', x) == CtxAt(s, x)
    {
      assert Registered(s.io, x.fd, x.event) && x != slot;
      assert Registered(s'.io, x.fd, x.event);
    }
  }

  lemma RegisterKeeps(s: Sys, t: nat, up: bool)
    requires LoopInv(s) && InCall(s, t) && PhaseOn(s, t).Arming?
    ensures LoopInv(DoRegister(s, t, up))
  {
    hide LiveOk, LogOk, SlotCosOk, PoolOk, ThreadCosOk, ThreadsOk, CallsOk, KernelOk, Inv;
    var call, c := PhaseOn(s, t).call, s.threads[t].co;
    var slot := s.calls[call].slot;
    IoInv(s);
    AddEventKeepsInv(s.io, slot.fd, slot.event, None, c, t, up);
    var (io', ok) := AddEvent(s.io, slot.fd, slot.event, None, c, t, up);
    if ok {
      assert up;
      RegisterOkKeeps(s, t, io');
    } else {
      AddFailedIo(s.io, slot, None, c, t, up);
      var mid := s.(io := io');
      GrownKeeps(s, mid, slot.fd);
      RunsFact(mid, t);
      hide AddEvent;
      PhaseKeeps(mid, DoRegister(s, t, up), t);
    }
  }

  lemma RegisterOkKeeps(s: Sys, t: nat, io': Io)
    requires LoopInv(s) && InCall(s, t) && PhaseOn(s, t).Arming?
    requires var slot := s.calls[PhaseOn(s, t).call].slot;
             AddEvent(s.io, slot.fd, slot.event, None, s.threads[t].co, t, true) == (io', true)
    ensures LoopInv(DoRegister(s, t, true))
  {
    hide LiveOk, LogOk, SlotCosOk, PoolOk, ThreadCosOk, ThreadsOk, CallsOk, KernelOk, AddEvent, SlotAdded;
    var call, c := PhaseOn(s, t).call, s.threads[t].co;
    var slot, s' := s.calls[call].slot, DoRegister(s, t, true);
    IoInv(s);
    RunsFact(s, t);
    AddEventSlots(s.io, slot, None, c, t);
    EnterKeeps(s, s', slot, c);
  }

  /** The history, the slots and the registering coroutine (if any) after a successful addEvent. */
  lemma EnterKeeps(s: Sys, s': Sys, slot: Slot, c: nat)
    requires LoopInv(s) && Inv(s'.io) && |s'.io.fds| >= |s.io.fds|
    requires SlotAdded(s.io, s'.io, slot) && slot.fd < |s'.io.fds| && CtxAt(s', slot).Occupied()
    requires s' == s.(io := s'.io, live := s.live[slot := |s.regs|], cos := s'.cos,
                   regs := s.regs + [Reg(slot, CtxAt(s', slot).Continuation())])
    requires WorkOk(s.calls, CtxAt(s', slot).Continuation().work)
    requires s'.cos == s.cos || (c in s.cos && c in s'.cos && s'.cos == s.cos[c := s'.cos[c]]
             && s.cos[c].loc == Nowhere && s'.cos[c].loc == AtSlot(slot) && s'.cos[c].on == s.cos[c].on
             && RecOk(s'.cos[c]) && PhaseCallOk(s.calls, s'.cos[c].phase))
    requires if CtxAt(s', slot).co.Some? then
               s'.cos != s.cos && CtxAt(s', slot).co == Some(c) && s'.cos[c].home == CtxAt(s', slot).threadId
             else s'.cos == s.cos
    ensures LoopInv(s')
  {
    hide LiveOk, LogOk, SlotCosOk, PoolOk, ThreadCosOk, ThreadsOk, CallsOk, KernelOk, SlotsOk, CountOk, SlotAdded, RecOk, WorkOk, PhaseCallOk, CtxAt;
    assert SlotsOk(s'.io) && CountOk(s'.io) && KernelOk(s'.io);
    EnterHistory(s, s', slot);
    EnterCos(s, s', slot, c);
    EnterRest(s, s', c);
  }

  lemma EnterRest(s: Sys, s': Sys, c: nat)
    requires PoolOk(s) && ThreadCosOk(s) && RecsOk(s) && CallsOk(s) && ThreadsOk(s) && |s'.io.fds| >= |s.io.fds|
    requires s' == s.(io := s'.io, live := s'.live, cos := s'.cos, regs := s'.regs)
    requires |s'.regs| == |s.regs| + 1 && s.regs <= s'.regs && WorkOk(s.calls, s'.regs[|s.regs|].task.work)
    requires s'.cos == s.cos || (c in s.cos && c in s'.cos && s'.cos == s.cos[c := s'.cos[c]]
             && s.cos[c].loc == Nowhere && s'.cos[c].loc.AtSlot? && s'.cos[c].on == s.cos[c].on
             && RecOk(s'.cos[c]) && PhaseCallOk(s.calls, s'.cos[c].phase))
    ensures PoolOk(s') && ThreadCosOk(s') && RecsOk(s') && CallsOk(s') && ThreadsOk(s')
  {
    hide PoolOk, ThreadCosOk, ThreadsOk, CallsOk, RecOk, WorkOk, PhaseCallOk;
    PoolFrame(s, s', c);
    ThreadCosStill(s, s', c);
    CallsFrame(s, s');
    ThreadsStill(s, s');
  }

  lemma AddCallbackKeeps(s: Sys, t: nat, slot: Slot, func: nat, up: bool)
    requires LoopInv(s) && Enabled(s, AddCallback(t, slot, func, up))
    ensures LoopInv(DoAddCallback(s, t, slot, func, up))
  {
    var c, cb := s.threads[t].co, Some(UserFunc(func));
    var s' := DoAddCallback(s, t, slot, func, up);
    IoInv(s);
    AddEventKeepsInv(s.io, slot.fd, slot.event, cb, c, t, up);
    var (io', ok) := AddEvent(s.io, slot.fd, slot.event, cb, c, t, up);
    if ok {
      AddEventSlots(s.io, slot, cb, c, t);
      hide LiveOk, LogOk, SlotCosOk, PoolOk, ThreadCosOk, ThreadsOk, CallsOk, KernelOk, AddEvent, Inv, SlotAdded;
      EnterKeeps(s, s', slot, 0);
    } else {
      AddFailedIo(s.io, slot, cb, c, t, up);
      GrownKeeps(s, s', slot.fd);
    }
  }

  // ---------------------------------------------------------------- a registration ends

  /** One slot loses its bit; the others keep bits and contexts. */
  ghost predicate SlotRemoved(io: Io, io': Io, slot: Slot) {
    && Registered(io, slot.fd, slot.event) && !Registered(io', slot.fd, slot.event) && |io'.fds| == |io.fds|
    && (forall x: Slot :: x != slot ==> (Registered(io', x.fd, x.event) <==> Registered(io, x.fd, x.event)))
    && (forall x: Slot :: Registered(io', x.fd, x.event) ==> io'.fds[x.fd].Ctx(x.event) == io.fds[x.fd].Ctx(x.event))
  }

  lemma RemoveSlot(io: Io, io': Io, slot: Slot, ctx: EventCtx)
    requires Registered(io, slot.fd, slot.event)
    requires var f := io.fds[slot.fd];
             io'.fds == io.fds[slot.fd := f.(events := f.events - {slot.event}).WithCtx(slot.event, ctx)]
    ensures SlotRemoved(io, io', slot)
  {
  }

  lemma LiveFact(s: Sys, slot: Slot)
    requires LiveOk(s)
    ensures slot in s.live <==> Registered(s.io, slot.fd, slot.event)
    ensures slot in s.live ==> slot.fd < |s.io.fds| && CtxAt(s, slot).Occupied() && s.live[slot] < |s.regs|
                               && s.regs[s.live[slot]] == Reg(slot, CtxAt(s, slot).Continuation())
  {
  }

  lemma SlotFact(s: Sys, slot: Slot)
    requires LiveOk(s) && SlotCosOk(s) && slot in s.live
    ensures slot.fd < |s.io.fds| && SlotLinked(s, slot)
  {
  }

  lemma RegFact(s: Sys, r: nat)
    requires CallsOk(s) && r < |s.regs|
    ensures WorkOk(s.calls, s.regs[r].task.work)
  {
  }

  lemma RetireLog(s: Sys, s': Sys, slot: Slot, e: Retirement)
    requires LiveOk(s) && LogOk(s) && slot in s.live && e.reg == s.live[slot] && RetirementOk(s, e)
    requires s'.regs == s.regs && s'.live == s.live - {slot} && s'.log == s.log + [e]
    ensures LogOk(s')
  {
    LiveFact(s, slot);
    forall i | 0 <= i < |s'.log|
      ensures RetirementOk(s', s'.log[i])
    {
      assert RetirementOk(s, s'.log[i]);
    }
    forall r | 0 <= r < |s'.regs|
      ensures Retired(s'.log, r) == if IsLive(s', r) then 0 else 1
    {
      RetiredAppend(s.log, e, r);
      assert IsLive(s', r) == (IsLive(s, r) && r != e.reg);
    }
  }

  lemma RetireLive(s: Sys, s': Sys, slot: Slot)
    requires LiveOk(s) && SlotsOk(s'.io) && CountOk(s'.io)
    requires SlotRemoved(s.io, s'.io, slot) && s'.regs == s.regs && s'.live == s.live - {slot}
    ensures LiveOk(s')
    ensures forall x :: x in s'.live ==> x in s.live && x.fd < |s.io.fds| && x.fd < |s'.io.fds| && CtxAt(s', x) == CtxAt(s, x)
  {
    assert |s'.io.fds| >= INITIAL_FDS;
    forall x | x in s'.live
      ensures x in s.live && x.fd < |s'.io.fds| && CtxAt(s', x) == CtxAt(s, x)
    {
      assert Registered(s'.io, x.fd, x.event);
    }
  }

  lemma RetireCos(s: Sys, s': Sys, slot: Slot)
    requires LiveOk(s) && LiveOk(s') && SlotCosOk(s) && slot in s.live && s'.live == s.live - {slot}
    requires forall x :: x in s'.live ==> x.fd < |s.io.fds| && x.fd < |s'.io.fds| && CtxAt(s', x) == CtxAt(s, x)
    requires slot.fd < |s.io.fds|
    requires var co := CtxAt(s, slot).co;
             if co.Some? then
               co.value in s'.cos && !s'.cos[co.value].loc.AtSlot? && s'.cos == s.cos[co.value := s'.cos[co.value]]
             else s'.cos == s.cos
    ensures SlotCosOk(s')
  {
    hide LiveOk, CtxAt;
    SlotFact(s, slot);
    forall x | x in s'.live
      ensures SlotLinked(s', x)
    {
      SlotFact(s, x);
    }
    forall d | d in s'.cos
      ensures CoLinked(s', d)
    {
      if d in s.cos { assert CoLinked(s, d); }
    }
  }

  /** Everything a retirement does besides the pool: `rec` is the waiting coroutine, if it was one. */
  lemma FireShape(s: Sys, slot: Slot, how: How)
    requires Coherent(s) && Registered(s.io, slot.fd, slot.event)
    ensures var s', ctx := Fire(s, slot, how), CtxAt(s, slot);
            && slot in s.live && ctx.Occupied()
            && SlotRemoved(s.io, s'.io, slot) && SlotsOk(s'.io) && CountOk(s'.io)
            && s'.io == Trigger(s.io, slot.fd, slot.event).0 && |s'.io.fds| == |s.io.fds|
            && s'.live == s.live - {slot}
            && s'.log == s.log + [Retirement(s.live[slot], how, Some(ctx.Continuation()))]
            && s'.pool == s.pool + [ctx.Continuation()]
            && (if ctx.co.Some? then ctx.co.value in s.cos && s'.cos == s.cos[ctx.co.value := s.cos[ctx.co.value].(loc := Queued)]
                else s'.cos == s.cos)
            && s' == s.(io := s'.io, live := s'.live, log := s'.log, pool := s'.pool, cos := s'.cos)
  {
    hide LogOk, PoolOk, ThreadCosOk, CallsOk, ThreadsOk, RecsOk;
    LiveFact(s, slot);
    SlotFact(s, slot);
    TriggerKeepsCount(s.io, slot.fd, slot.event);
    TriggerKeepsSlots(s.io, slot.fd, slot.event, true);
    RemoveSlot(s.io, Fire(s, slot, how).io, slot, Trigger(s.io, slot.fd, slot.event).0.fds[slot.fd].Ctx(slot.event));
  }

  lemma FireKeeps(s: Sys, slot: Slot, how: How)
    requires Coherent(s) && Registered(s.io, slot.fd, slot.event) && how != ByDelete
    ensures Coherent(Fire(s, slot, how))
  {
    hide LiveOk, LogOk, SlotCosOk, PoolOk, ThreadCosOk, CallsOk, ThreadsOk, Fire, SlotRemoved, SlotsOk, CountOk, Trigger;
    var s', ctx := Fire(s, slot, how), CtxAt(s, slot);
    FireShape(s, slot, how);
    LiveFact(s, slot);
    SlotFact(s, slot);
    RegFact(s, s.live[slot]);
    RetireLog(s, s', slot, Retirement(s.live[slot], how, Some(ctx.Continuation())));
    RetireLive(s, s', slot);
    RetireCos(s, s', slot);
    FireRest(s, s', slot);
  }

  lemma FireRest(s: Sys, s': Sys, slot: Slot)
    requires PoolOk(s) && ThreadCosOk(s) && RecsOk(s) && CallsOk(s) && ThreadsOk(s) && |s'.io.fds| == |s.io.fds|
    requires slot.fd < |s.io.fds| && SlotLinked(s, slot) && CtxAt(s, slot).Occupied()
    requires s' == s.(io := s'.io, live := s'.live, log := s'.log, pool := s.pool + [CtxAt(s, slot).Continuation()], cos := s'.cos)
    requires var co := CtxAt(s, slot).co;
             s'.cos == if co.Some? then s.cos[co.value := s.cos[co.value].(loc := Queued)] else s.cos
    requires WorkOk(s.calls, CtxAt(s, slot).Continuation().work)
    ensures PoolOk(s') && ThreadCosOk(s') && RecsOk(s') && CallsOk(s') && ThreadsOk(s')
  {
    hide PoolOk, ThreadCosOk, CallsOk, ThreadsOk, WorkOk;
    var ctx := CtxAt(s, slot);
    if ctx.co.Some? {
      PoolAppend(s, s', ctx.co.value, ctx.Continuation());
      ThreadCosStill(s, s', ctx.co.value);
    } else {
      PoolAppendCallbacks(s, s');
      ThreadCosStill(s, s', 0);
    }
    CallsFrame(s, s');
    ThreadsStill(s, s');
  }

  /** The descriptors after one trigger. */
  ghost predicate EventsMinus(io: Io, io': Io, fd: nat, gone: set<Event>) {
    && |io'.fds| == |io.fds| && fd < |io.fds| && io'.kernel == io.kernel
    && io'.fds[fd].events == io.fds[fd].events - gone
    && (forall i :: 0 <= i < |io.fds| && i != fd ==> io'.fds[i] == io.fds[i])
  }

  lemma FireIfKeeps(s: Sys, slot: Slot, how: How, wanted: bool)
    requires Coherent(s) && slot.fd < |s.io.fds| && how != ByDelete
    requires wanted ==> Registered(s.io, slot.fd, slot.event)
    ensures Coherent(FireIf(s, slot, how, wanted))
    ensures EventsMinus(s.io, FireIf(s, slot, how, wanted).io, slot.fd, if wanted then {slot.event} else {})
  {
    hide LiveOk, LogOk, SlotCosOk, PoolOk, ThreadCosOk, CallsOk, ThreadsOk, Fire, SlotRemoved, SlotsOk, CountOk;
    if wanted {
      FireKeeps(s, slot, how);
      FireShape(s, slot, how);
    }
  }

  lemma KernelOnly(s: Sys, kernel: map<nat, set<Event>>)
    requires Coherent(s)
    ensures Coherent(WithKernel(s, kernel))
  {
    hide LiveOk, LogOk, SlotCosOk, PoolOk, ThreadCosOk, CallsOk, ThreadsOk;
    var s' := WithKernel(s, kernel);
    HistoryFrame(s, s');
    SlotCosFrame(s, s', 0);
    PoolFrame(s, s', 0);
    ThreadCosStill(s, s', 0);
    CallsFrame(s, s');
    ThreadsStill(s, s');
  }

  /** If the kernel's new mask is what the triggers leave, its masks are right again. */
  lemma MasksFollow(io: Io, io1: Io, io2: Io, fd: nat, left: set<Event>)
    requires KernelOk(io) && fd < |io.fds|
    requires io1 == io.(kernel := if left == {} then io.kernel - {fd} else io.kernel[fd := left])
    requires EventsMinus(io1, io2, fd, io.fds[fd].events - left) && left <= io.fds[fd].events
    ensures KernelOk(io2)
  {
    KernelFollows(io, io2, fd, left);
  }

  lemma UnmaskFact(io: Io, fd: nat, e: Event)
    requires KernelOk(io) && Registered(io, fd, e)
    ensures var left := io.fds[fd].events - {e};
            Unmask(io, fd, e, true) == Some(if left == {} then io.kernel - {fd} else io.kernel[fd := left])
  {
    assert io.fds[fd].events != {};
  }

  lemma CancelKeeps(s: Sys, slot: Slot, up: bool)
    requires LoopInv(s)
    ensures LoopInv(DoCancel(s, slot, up))
  {
    hide LiveOk, LogOk, SlotCosOk, PoolOk, ThreadCosOk, CallsOk, ThreadsOk, Fire, SlotsOk, CountOk, KernelOk;
    if Registered(s.io, slot.fd, slot.event) && up {
      UnmaskFact(s.io, slot.fd, slot.event);
      var left := s.io.fds[slot.fd].events - {slot.event};
      var s1 := WithKernel(s, Unmask(s.io, slot.fd, slot.event, up).value);
      KernelOnly(s, s1.io.kernel);
      FireIfKeeps(s1, slot, ByCancel, true);
      assert s.io.fds[slot.fd].events - left == {slot.event};
      MasksFollow(s.io, s1.io, Fire(s1, slot, ByCancel).io, slot.fd, left);
    }
  }

  /** Both triggers of one section, for events that are all set. */
  lemma FireBothKeeps(s: Sys, fd: nat, how: How, wanted: set<Event>)
    requires Coherent(s) && fd < |s.io.fds| && how != ByDelete && wanted <= s.io.fds[fd].events
    ensures var s2 := FireIf(FireIf(s, Slot(fd, READ), how, READ in wanted), Slot(fd, WRITE), how, WRITE in wanted);
            Coherent(s2) && EventsMinus(s.io, s2.io, fd, wanted)
  {
    hide LiveOk, LogOk, SlotCosOk, PoolOk, ThreadCosOk, CallsOk, ThreadsOk, Fire, SlotsOk, CountOk, Coherent, FireIf;
    FireIfKeeps(s, Slot(fd, READ), how, READ in wanted);
    var s1 := FireIf(s, Slot(fd, READ), how, READ in wanted);
    assert WRITE in wanted ==> WRITE in s1.io.fds[fd].events;
    FireIfKeeps(s1, Slot(fd, WRITE), how, WRITE in wanted);
    var s2 := FireIf(s1, Slot(fd, WRITE), how, WRITE in wanted);
    assert wanted == (if READ in wanted then {READ} else {}) + (if WRITE in wanted then {WRITE} else {}) by {
      forall e | e in wanted
        ensures e == READ || e == WRITE
      {
      }
    }
  }

  lemma CancelAllKeeps(s: Sys, fd: nat, up: bool)
    requires LoopInv(s)
    ensures LoopInv(DoCancelAll(s, fd, up))
  {
    hide LiveOk, LogOk, SlotCosOk, PoolOk, ThreadCosOk, CallsOk, ThreadsOk, Fire, SlotsOk, CountOk;
    if fd < |s.io.fds| && s.io.fds[fd].events != {} && up {
      var events := s.io.fds[fd].events;
      var s1 := WithKernel(s, s.io.kernel - {fd});
      KernelOnly(s, s1.io.kernel);
      FireBothKeeps(s1, fd, ByCancel, events);
      FireIfKeeps(s1, Slot(fd, READ), ByCancel, READ in events);
      var s2 := FireIf(s1, Slot(fd, READ), ByCancel, READ in events);
      assert Registered(s2.io, fd, WRITE) <==> WRITE in events;
      assert events - {} == events;
      MasksFollow(s.io, s1.io, DoCancelAll(s, fd, up).io, fd, {});
    }
  }

  /** The readiness about to be delivered meets the registered events without being among them. */
  predicate Mismatch(s: Sys, t: nat) {
    && t in s.threads && s.threads[t].Delivering? && s.threads[t].ready != []
    && var r := s.threads[t].ready[0];
       r.fd < |s.io.fds| && s.io.fds[r.fd].events * r.events != {} && !(r.events <= s.io.fds[r.fd].events)
  }

  lemma DeliverMoves(s: Sys, t: nat)
    requires LoopInv(s) && Enabled(s, DeliverNext(t, true))
    ensures LoopInv(Move(s, t, Delivering(s.threads[t].ready[1..])))
  {
    hide LiveOk, LogOk, SlotCosOk, PoolOk, ThreadCosOk, CallsOk, ThreadsOk, SlotsOk, CountOk, KernelOk;
    ReadyFact(s, t);
    ThreadsMove(s, Move(s, t, Delivering(s.threads[t].ready[1..])), t);
    PcOnly(s, Move(s, t, Delivering(s.threads[t].ready[1..])), t);
  }

  lemma MaskFact(io: Io, fd: nat, ready: set<Event>)
    requires KernelOk(io) && fd < |io.fds| && io.fds[fd].events * ready != {}
    ensures var left := io.fds[fd].events - ready;
            KernelCtl(io.kernel, RemoveOp(left), fd, left, true)
            == Some(if left == {} then io.kernel - {fd} else io.kernel[fd := left])
  {
    assert io.fds[fd].events != {};
  }

  /** Delivery keeps the invariant, or the process dies on the assertion of line 36, exactly in case of
      a mismatch. */
  lemma DeliverKeeps(s: Sys, t: nat, up: bool)
    requires LoopInv(s) && Enabled(s, DeliverNext(t, up))
    ensures DoDeliver(s, t, up).crashed <==> up && Mismatch(s, t)
    ensures !DoDeliver(s, t, up).crashed ==> LoopInv(DoDeliver(s, t, up))
  {
    hide LiveOk, LogOk, SlotCosOk, PoolOk, ThreadCosOk, CallsOk, ThreadsOk, SlotsOk, CountOk, Fire, KernelOk;
    var r := s.threads[t].ready[0];
    var f := s.io.fds[r.fd];
    var s1 := Move(s, t, Delivering(s.threads[t].ready[1..]));
    DeliverMoves(s, t);
    if f.events * r.events != {} && up {
      var left := f.events - r.events;
      MaskFact(s.io, r.fd, r.events);
      var s2 := WithKernel(s1, KernelCtl(s.io.kernel, RemoveOp(left), r.fd, left, up).value);
      KernelOnly(s1, s2.io.kernel);
      if r.events <= f.events {
        FireBothKeeps(s2, r.fd, ByDelivery, r.events);
        assert f.events - left == r.events;
        MasksFollow(s1.io, s2.io, DoDeliver(s, t, up).io, r.fd, left);
      } else {
        DeliverCrashes(s2, r.fd, r.events);
      }
    }
  }

  lemma DeliverCrashes(s: Sys, fd: nat, ready: set<Event>)
    requires Coherent(s) && fd < |s.io.fds| && !(ready <= s.io.fds[fd].events)
    ensures FireIf(FireIf(s, Slot(fd, READ), ByDelivery, READ in ready), Slot(fd, WRITE), ByDelivery, WRITE in ready).crashed
  {
    hide LiveOk, LogOk, SlotCosOk, PoolOk, ThreadCosOk, CallsOk, ThreadsOk, SlotsOk, CountOk;
    var s1 := FireIf(s, Slot(fd, READ), ByDelivery, READ in ready);
    if READ in ready && READ !in s.io.fds[fd].events {
      assert s1.crashed;
    } else {
      FireIfKeeps(s, Slot(fd, READ), ByDelivery, READ in ready);
      var e :| e in ready && e !in s.io.fds[fd].events;
      assert e == WRITE;
      assert !Registered(s1.io, fd, WRITE);
    }
  }

  lemma CancelTimeoutKeeps(s: Sys, t: nat, up: bool)
    requires LoopInv(s) && InCall(s, t) && PhaseOn(s, t).Cancelling?
    ensures LoopInv(DoCancelTimeout(s, t, up))
  {
    hide LiveOk, LogOk, SlotCosOk, PoolOk, ThreadCosOk, CallsOk, ThreadsOk, KernelOk, DoCancel;
    var s1 := SetPhase(s, t, Plain);
    RunsFact(s, t);
    PhaseKeeps(s, s1, t);
    CancelKeeps(s1, s.calls[PhaseOn(s, t).call].slot, up);
  }

  lemma DeleteShape(s: Sys, slot: Slot)
    requires LoopInv(s) && Registered(s.io, slot.fd, slot.event)
    ensures var s' := DoDelete(s, slot, true);
            && slot in s.live && SlotRemoved(s.io, s'.io, slot) && Inv(s'.io)
            && s'.live == s.live - {slot} && s'.log == s.log + [Retirement(s.live[slot], ByDelete, None)]
            && (var co := CtxAt(s, slot).co;
                if co.Some? then co.value in s.cos && s'.cos == s.cos[co.value := s.cos[co.value].(loc := Nowhere)]
                else s'.cos == s.cos)
            && s' == s.(io := s'.io, live := s'.live, log := s'.log, cos := s'.cos)
  {
    hide LiveOk, LogOk, SlotCosOk, PoolOk, ThreadCosOk, CallsOk, ThreadsOk, KernelOk, SlotsOk, CountOk, Inv;
    IoInv(s);
    DelEventKeepsInv(s.io, slot.fd, slot.event, true);
    LiveFact(s, slot);
    SlotFact(s, slot);
    RemoveSlot(s.io, DelEvent(s.io, slot.fd, slot.event, true).0, slot, EMPTY);
  }

  lemma DeleteKeeps(s: Sys, slot: Slot, up: bool)
    requires LoopInv(s)
    ensures LoopInv(DoDelete(s, slot, up))
  {
    hide LiveOk, LogOk, SlotCosOk, PoolOk, ThreadCosOk, CallsOk, ThreadsOk, KernelOk, SlotsOk, CountOk, SlotRemoved;
    IoInv(s);
    DelEventKeepsInv(s.io, slot.fd, slot.event, up);
    if up && Registered(s.io, slot.fd, slot.event) {
      var s' := DoDelete(s, slot, up);
      DeleteShape(s, slot);
      LiveFact(s, slot);
      SlotFact(s, slot);
      RetireLog(s, s', slot, Retirement(s.live[slot], ByDelete, None));
      RetireLive(s, s', slot);
      RetireCos(s, s', slot);
      var c := if CtxAt(s, slot).co.Some? then CtxAt(s, slot).co.value else 0;
      PoolFrame(s, s', c);
      if CtxAt(s, slot).co.Some? { ThreadCosStill(s, s', c); } else { ThreadCosStill(s, s', 0); }
      CallsFrame(s, s');
      RemovedLength(s.io, s'.io, slot);
      ThreadsStill(s, s');
    }
  }

  lemma RemovedLength(io: Io, io': Io, slot: Slot)
    requires SlotRemoved(io, io', slot)
    ensures |io'.fds| == |io.fds|
  {
  }

  // ---------------------------------------------------------------- every label

  /** Where in its call the coroutine is that takes a step of one. */
  lemma CallLabel(s: Sys, l: Label)
    requires Enabled(s, l)
    ensures l.Attempt? ==> InCall(s, l.tid) && PhaseOn(s, l.tid).Trying?
    ensures l.Register? ==> InCall(s, l.tid) && PhaseOn(s, l.tid).Arming?
    ensures l.YieldCo? ==> Runs(s, l.tid) && PhaseOn(s, l.tid).Waiting?
    ensures l.Wake? ==> InCall(s, l.tid) && PhaseOn(s, l.tid).Parked?
    ensures l.CheckTimeout? ==> InCall(s, l.tid) && PhaseOn(s, l.tid).Checking?
    ensures l.CancelTimeout? ==> InCall(s, l.tid) && PhaseOn(s, l.tid).Cancelling?
  {
    hide LockFree;
  }

  /** The invariant is inductive; the only way to leave it is the delivery mismatch. */
  lemma StepKeeps(s: Sys, l: Label)
    requires LoopInv(s) && Enabled(s, l)
    ensures Apply(s, l).crashed <==> l.DeliverNext? && l.up && Mismatch(s, l.tid)
    ensures !Apply(s, l).crashed ==> LoopInv(Apply(s, l))
  {
    hide LoopInv, Enabled, DoTake, DoDispatch, DoDecide, DoCloseCheck, DoIdleCheck, DoExpire, DoDeliver, DoBegin, DoAttempt, DoRegister, DoYield, DoWake, DoAddCallback, DoDelete, DoCancel, DoCancelAll, DoCheckTimeout, DoCancelTimeout, DoFinish, DoSpawn, Mismatch, InCall, Runs;
    CallLabel(s, l);
    if LoopInv(Apply(s, l)) { NotCrashed(Apply(s, l)); }
    match l {
      case Take(t) => TakeKeeps(s, t);
      case Dispatch(t, id) => DispatchKeeps(s, t, id);
      case Decide(t) => DecideKeeps(s, t);
      case CloseCheck(t) => CloseCheckKeeps(s, t);
      case IdleCheck(t, ready) => IdleCheckKeeps(s, t, ready);
      case Expire(t, ids) => ExpireKeeps(s, t, ids);
      case DeliverNext(t, up) => DeliverKeeps(s, t, up);
      case IdleYield(t) => IdleYieldKeeps(s, t);
      case Begin(t, slot, timed, call) => BeginKeeps(s, t, slot, timed, call);
      case Attempt(t, again) => AttemptKeeps(s, t, again);
      case Register(t, up) => RegisterKeeps(s, t, up);
      case YieldCo(t) => YieldKeeps(s, t);
      case Wake(t, retry) => WakeKeeps(s, t, retry);
      case AddCallback(t, slot, func, up) => AddCallbackKeeps(s, t, slot, func, up);
      case Delete(t, slot, up) => DeleteKeeps(s, slot, up);
      case Cancel(t, slot, up) => CancelKeeps(s, slot, up);
      case CancelAll(t, fd, up) => CancelAllKeeps(s, fd, up);
      case CheckTimeout(t) => CheckTimeoutKeeps(s, t);
      case CancelTimeout(t, up) => CancelTimeoutKeeps(s, t, up);
      case Finish(t) => FinishKeeps(s, t);
      case Spawn(actor, callback, pin, force, id) => SpawnKeeps(s, actor, callback, pin, force, id);
      case SetAutoStop => FlagsKeep(s, true, s.stopFlag);
      case SetStopping => FlagsKeep(s, s.autoStop, true);
    }
  }

  lemma NotCrashed(s: Sys)
    requires LoopInv(s)
    ensures !s.crashed
  {
  }

  lemma DispatchKeeps(s: Sys, t: nat, id: nat)
    requires LoopInv(s) && Enabled(s, Dispatch(t, id))
    ensures LoopInv(DoDispatch(s, t, id))
  {
    hide LiveOk, LogOk, SlotCosOk, PoolOk, ThreadCosOk, CallsOk, ThreadsOk, RecsOk, KernelOk, DoDispatch;
    if s.threads[t].task.work.Co? { DispatchCoKeeps(s, t, id); } else { DispatchCbKeeps(s, t, id); }
  }
}
