/** Shutdown of the event loop over whole runs: when a leaving worker is caught in epoll_wait, and when
    stopping() can still become false again. */
module EventLoopShutdown {
  import opened Wrappers
  import opened TaskPool
  import opened IoEvents
  import opened EventLoop
  import opened EventLoopInvariant
  import opened EventLoopTheorems
  import opened EventLoopTimeouts

  // ---------------------------------------------------------------- between the two checks of line 163

  /** What line 163 saw still holds at the second check, as far as m_mutex guards it. */
  ghost predicate ClosingOk(s: Sys) {
    forall t :: At(s, t, Closing) ==> s.autoStop && s.pool == [] && s.idleCnt == 0
  }

  /** A thread that holds the lock in m_mutex keeps everybody else from queueing, taking and idling. */
  ghost predicate Frozen(s: Sys, s': Sys) {
    s'.pool == s.pool && s'.idleCnt == s.idleCnt && (s.autoStop ==> s'.autoStop)
  }

  lemma FireAside(s: Sys, slot: Slot, how: How)
    ensures Fire(s, slot, how).threads == s.threads
  {
    hide Trigger, Queue;
  }

  lemma FireIfAside(s: Sys, slot: Slot, how: How, wanted: bool)
    ensures FireIf(s, slot, how, wanted).threads == s.threads
  {
    hide Fire;
    FireAside(s, slot, how);
  }

  lemma CancelAside(s: Sys, slot: Slot, up: bool)
    ensures DoCancel(s, slot, up).threads == s.threads
  {
    hide Fire, Unmask;
    if Registered(s.io, slot.fd, slot.event) {
      var k := Unmask(s.io, slot.fd, slot.event, up);
      if k.Some? { FireAside(WithKernel(s, k.value), slot, ByCancel); }
    }
  }

  lemma CancelAllAside(s: Sys, fd: nat, up: bool)
    ensures DoCancelAll(s, fd, up).threads == s.threads
  {
    hide Fire, FireIf, KernelCtl;
    if fd < |s.io.fds| && s.io.fds[fd].events != {} {
      var k := KernelCtl(s.io.kernel, DEL, fd, {}, up);
      if k.Some? {
        var s1 := WithKernel(s, k.value);
        FireIfAside(s1, Slot(fd, READ), ByCancel, READ in s1.io.fds[fd].events);
        var s2 := FireIf(s1, Slot(fd, READ), ByCancel, READ in s1.io.fds[fd].events);
        FireIfAside(s2, Slot(fd, WRITE), ByCancel, Registered(s2.io, fd, WRITE));
      }
    }
  }

  lemma FireBothAside(s: Sys, fd: nat, how: How, read: bool, write: bool)
    ensures FireIf(FireIf(s, Slot(fd, READ), how, read), Slot(fd, WRITE), how, write).threads == s.threads
  {
    hide FireIf;
    FireIfAside(s, Slot(fd, READ), how, read);
    FireIfAside(FireIf(s, Slot(fd, READ), how, read), Slot(fd, WRITE), how, write);
  }

  lemma DeliverAside(s: Sys, t: nat, up: bool)
    requires t in s.threads && s.threads[t].Delivering? && s.threads[t].ready != []
    requires s.threads[t].ready[0].fd < |s.io.fds|
    ensures DoDeliver(s, t, up).threads == s.threads[t := Delivering(s.threads[t].ready[1..])]
  {
    hide FireIf, KernelCtl, Fire;
    var r := s.threads[t].ready[0];
    var f := s.io.fds[r.fd];
    var s1 := Move(s, t, Delivering(s.threads[t].ready[1..]));
    if f.events * r.events != {} {
      var k := KernelCtl(s.io.kernel, RemoveOp(f.events - r.events), r.fd, f.events - r.events, up);
      if k.Some? {
        var s2 := WithKernel(s1, k.value);
        FireBothAside(s2, r.fd, ByDelivery, READ in r.events, WRITE in r.events);
        var s3 := FireIf(FireIf(s2, Slot(r.fd, READ), ByDelivery, READ in r.events), Slot(r.fd, WRITE), ByDelivery, WRITE in r.events);
        assert DoDeliver(s, t, up) == s3;
      } else {
        assert DoDeliver(s, t, up) == s1;
      }
    } else {
      assert DoDeliver(s, t, up) == s1;
    }
  }

  lemma DeleteAside(s: Sys, slot: Slot, up: bool)
    ensures var s' := DoDelete(s, slot, up);
            s'.threads == s.threads && s'.pool == s.pool && s'.idleCnt == s.idleCnt && s'.autoStop == s.autoStop
  {
    hide Unmask;
    if DelEvent(s.io, slot.fd, slot.event, up).1 && slot in s.live { DeletedAside(s, slot, up); }
  }

  lemma DeletedAside(s: Sys, slot: Slot, up: bool)
    requires DelEvent(s.io, slot.fd, slot.event, up).1 && slot in s.live
    ensures var s' := DoDelete(s, slot, up);
            s'.threads == s.threads && s'.pool == s.pool && s'.idleCnt == s.idleCnt && s'.autoStop == s.autoStop
  {
    hide Unmask;
  }

  /** Only line 163 lets a worker through, and only when it sees nothing left to do. */
  lemma ClosingStarts(s: Sys, l: Label, t: nat)
    requires Enabled(s, l) && At(Apply(s, l), t, Closing) && !At(s, t, Closing)
    ensures l == Decide(t) && s.autoStop && s.pool == [] && s.idleCnt == 0
  {
    hide LockFree, DoCancel, DoCancelAll, DoDeliver, DoDelete, DoAddCallback, DoRegister, DoDispatch, DoTake, DoBegin, DoAttempt,
      DoWake, DoCheckTimeout, DoSpawn, DoExpire, Stopping, IdleEnds;
    if l.Begin? || l.Attempt? || l.Wake? || l.CheckTimeout? { CallsAside(s, l); }
    match l {
      case Cancel(u, slot, up) => CancelAside(s, slot, up);
      case CancelAll(u, fd, up) => CancelAllAside(s, fd, up);
      case DeliverNext(u, up) => DeliverAside(s, u, up);
      case Delete(u, slot, up) => DeleteAside(s, slot, up);
      case CancelTimeout(u, up) =>
        CancelAside(SetPhase(s, u, Plain), s.calls[PhaseOn(s, u).call].slot, up);
      case Spawn(actor, func, pin, force, id) => SpawnAside(s, func, pin, force, id);
      case Expire(u, ids) => ExpireAside(s, u, ids);
      case Take(u) => TakeAside(s, u);
      case Dispatch(u, id) => DispatchAside(s, u, id);
      case _ =>
    }
  }

  lemma CallsAside(s: Sys, l: Label)
    requires Enabled(s, l) && (l.Begin? || l.Attempt? || l.Wake? || l.CheckTimeout?)
    ensures Apply(s, l).threads == s.threads
  {
    hide LockFree, Disarmed, Ended;
  }

  lemma SpawnAside(s: Sys, func: Option<nat>, pin: nat, force: bool, id: nat)
    ensures DoSpawn(s, func, pin, force, id).threads == s.threads
  {
    hide Queue, NewCo;
  }

  lemma ExpireAside(s: Sys, t: nat, ids: seq<nat>)
    requires t in s.threads && s.threads[t].Expiring? && forall id :: id in ids ==> id in s.timers
    ensures DoExpire(s, t, ids).threads == s.threads[t := Delivering(s.threads[t].ready)]
  {
    hide QueueAll, ExpiredWorks;
  }

  /** At most one thread moves, and not to line 164. */
  ghost predicate MovesOne(s: Sys, s': Sys, u: nat) {
    s'.threads == s.threads || (u in s'.threads && !s'.threads[u].Closing? && s'.threads == s.threads[u := s'.threads[u]])
  }

  lemma TakeAside(s: Sys, u: nat)
    ensures MovesOne(s, DoTake(s, u), u)
  {
    hide FirstEligible, Without, SetCo, Crash;
    var i := FirstEligible(s.pool, u);
    if i < |s.pool| && s.pool[i].work.Co? { TakeCoAside(s, u); }
  }

  lemma TakeCoAside(s: Sys, u: nat)
    requires var i := FirstEligible(s.pool, u); i < |s.pool| && s.pool[i].work.Co?
    ensures MovesOne(s, DoTake(s, u), u)
  {
    hide FirstEligible, Without;
  }

  lemma DispatchAside(s: Sys, u: nat, id: nat)
    requires u in s.threads && s.threads[u].Holding?
    ensures MovesOne(s, DoDispatch(s, u, id), u)
  {
    hide Queue, NewCo;
    if s.threads[u].task.work.Co? { DispatchCoAside(s, u, id); }
  }

  lemma DispatchCoAside(s: Sys, u: nat, id: nat)
    requires u in s.threads && s.threads[u].Holding? && s.threads[u].task.work.Co?
    ensures MovesOne(s, DoDispatch(s, u, id), u)
  {
    hide Queue, NewCo, SetCo, MovesOne;
    var c := s.threads[u].task.work.co;
    if c !in s.cos {
      SelfAside(s, u);
    } else if s.cos[c].done {
      var rec := s.cos[c].(loc := Nowhere);
      MoveAside(s, u, c, rec, Scanning);
      assert DoDispatch(s, u, id) == Move(SetCo(s, c, rec), u, Scanning);
    } else {
      var rec := s.cos[c].(loc := Nowhere, on := u, home := if s.cos[c].home == 0 then u else s.cos[c].home);
      MoveAside(s, u, c, rec, Executing(c));
      assert DoDispatch(s, u, id) == Move(SetCo(s, c, rec), u, Executing(c));
    }
  }

  lemma SelfAside(s: Sys, u: nat)
    ensures MovesOne(s, Crash(s), u)
  {
  }

  lemma MoveAside(s: Sys, u: nat, c: nat, rec: CoRec, pc: Pc)
    requires !pc.Closing?
    ensures MovesOne(s, Move(SetCo(s, c, rec), u, pc), u)
  {
  }

  /** While somebody holds the lock nothing it guards changes, but by its holder. */
  lemma LockedIsFrozen(s: Sys, l: Label)
    requires LoopInv(s) && Enabled(s, l) && !LockFree(s) && s.idleCnt == 0
    ensures Frozen(s, Apply(s, l))
  {
    hide LoopInv, Apply, Frozen, LockFree;
    if l.IdleCheck? || l.IdleYield? {
      IdlesAreCounted(s, l);
    } else if Guarded(l) {
      GuardedAreDisabled(s, l);
    } else if l.Begin? || l.Attempt? || l.Wake? || l.CheckTimeout? {
      CallsFreeze(s, l);
    } else if l.Register? || l.AddCallback? || l.Delete? {
      EventsFreeze(s, l);
    } else {
      TurnsFreeze(s, l);
    }
  }

  /** Labels whose section takes m_mutex. */
  predicate Guarded(l: Label) {
    l.Take? || l.Decide? || l.Expire? || l.DeliverNext? || l.Cancel? || l.CancelAll? || l.CancelTimeout? || l.Spawn?
  }

  lemma GuardedAreDisabled(s: Sys, l: Label)
    requires Guarded(l) && !LockFree(s)
    ensures !Enabled(s, l)
  {
    hide LockFree;
  }

  lemma IdlesAreCounted(s: Sys, l: Label)
    requires LoopInv(s) && Enabled(s, l) && (l.IdleCheck? || l.IdleYield?)
    ensures s.idleCnt > 0
  {
    hide LoopInv;
    IdleIsCounted(s, l.tid);
  }

  lemma CallsFreeze(s: Sys, l: Label)
    requires Enabled(s, l) && (l.Begin? || l.Attempt? || l.Wake? || l.CheckTimeout?)
    ensures Frozen(s, Apply(s, l))
  {
    hide LockFree, Disarmed, Ended;
  }

  lemma EventsFreeze(s: Sys, l: Label)
    requires Enabled(s, l) && (l.Register? || l.AddCallback? || l.Delete?)
    ensures Frozen(s, Apply(s, l))
  {
    hide LockFree, DoRegister, DoAddCallback, DoDelete;
    if l.Delete? { DeleteAside(s, l.slot, l.up); }
  }

  lemma TurnsFreeze(s: Sys, l: Label)
    requires Enabled(s, l) && !LockFree(s)
    requires l.Dispatch? || l.CloseCheck? || l.YieldCo? || l.Finish? || l.SetAutoStop? || l.SetStopping?
    ensures Frozen(s, Apply(s, l))
  {
    hide LockFree, Stopping, EarlyClosure;
  }

  lemma IdleIsCounted(s: Sys, t: nat)
    requires LoopInv(s) && t in s.threads && InIdle(s.threads[t])
    ensures s.idleCnt > 0
  {
    CountFact(s, t);
  }

  lemma ClosingStep(s: Sys, l: Label)
    requires LoopInv(s) && ClosingOk(s) && Enabled(s, l)
    ensures ClosingOk(Apply(s, l))
  {
    hide LoopInv, Apply, LockFree, Enabled;
    forall t | At(Apply(s, l), t, Closing)
      ensures Apply(s, l).autoStop && Apply(s, l).pool == [] && Apply(s, l).idleCnt == 0
    {
      if At(s, t, Closing) {
        HoldsIt(s, t);
        LockedIsFrozen(s, l);
      } else {
        ClosingStarts(s, l, t);
        DecideFreezes(s, t);
      }
    }
  }

  lemma HoldsIt(s: Sys, t: nat)
    requires At(s, t, Closing)
    ensures !LockFree(s)
  {
  }

  lemma DecideFreezes(s: Sys, t: nat)
    requires Enabled(s, Decide(t)) && At(Apply(s, Decide(t)), t, Closing)
    ensures Frozen(s, Apply(s, Decide(t)))
  {
    hide LockFree, DecidePc;
  }

  lemma {:induction false} ExecutionClosing(ss: seq<Sys>, ls: seq<Label>, i: nat)
    requires Execution(ss, ls) && i < |ss|
    ensures ss[i].crashed || ClosingOk(ss[i])
    decreases i
  {
    hide LoopInv, Apply, Enabled, ClosingOk;
    if i == 0 {
      StartsOpen(ss[0]);
    } else {
      OnlyTheLastCrashes(ss, ls, i - 1);
      ExecutionClosing(ss, ls, i - 1);
      ExecutionInv(ss, ls, i - 1);
      ClosingStep(ss[i - 1], ls[i - 1]);
    }
  }

  lemma StartsOpen(s: Sys)
    requires Initial(s)
    ensures ClosingOk(s)
  {
  }

  /** Over every run: a worker that passed line 164 goes back to epoll_wait, with m_mutex held, exactly if
      an event is registered when it checks again; what the lock guards has not changed meanwhile. */
  lemma WedgesIff(ss: seq<Sys>, ls: seq<Label>, i: nat, t: nat)
    requires Execution(ss, ls) && i < |ls| && ls[i] == CloseCheck(t)
    ensures At(ss[i + 1], t, Wedged) <==> ss[i].live != map[]
    ensures ss[i].autoStop && ss[i].pool == [] && ss[i].idleCnt == 0
  {
    hide LoopInv;
    OnlyTheLastCrashes(ss, ls, i);
    ExecutionInv(ss, ls, i);
    ExecutionClosing(ss, ls, i);
    assert Enabled(ss[i], ls[i]) && ss[i + 1] == Apply(ss[i], ls[i]);
    PendingIffLive(ss[i]);
  }

  // ---------------------------------------------------------------- when stopping() can become false again

  /** Some worker is back in epoll_wait with m_mutex held, so nobody else will ever get it. */
  predicate Blocked(s: Sys) {
    exists t :: t in s.threads && s.threads[t] == Wedged
  }

  /** What the coroutine on (or in the hand of) the calling thread can still bring about: it only has to be
      between two sections, and a timeout callback that will cancel needs the lock. */
  predicate CoCanAct(s: Sys, c: nat) {
    && c in s.cos && !s.cos[c].done
    && var p := s.cos[c].phase;
       && !p.Waiting?
       && (p.Cancelling? ==> !Blocked(s))
       && (p.Checking? ==> !Blocked(s) || (p.call in s.calls && (!s.calls[p.call].alive || s.calls[p.call].canceled)))
  }

  /** The calling thread holds a task that will run, or executes a coroutine that can act. */
  predicate CanAct(s: Sys) {
    s.caller in s.threads &&
    match s.threads[s.caller]
    case Holding(task) => if task.work.Cb? then !Blocked(s) else CoCanAct(s, task.work.co)
    case Executing(c) => CoCanAct(s, c)
    case _ => false
  }

  /** A way on from a state, without a forced schedule() from outside. */
  ghost predicate Path(s: Sys, ls: seq<Label>, ss: seq<Sys>) {
    && |ss| == |ls| + 1 && ss[0] == s
    && forall i :: 0 <= i < |ls| ==> !OutsideForced(ls[i]) && Enabled(ss[i], ls[i]) && ss[i + 1] == Apply(ss[i], ls[i])
  }

  ghost predicate Ends(s: Sys, ls: seq<Label>, ss: seq<Sys>) {
    Path(s, ls, ss) && !Stopping(ss[|ls|])
  }

  // ---------------------------------------------------------------- it cannot

  /** Everybody but the calling thread is out of the loop. */
  lemma OthersAreGone(s: Sys, t: nat)
    requires LoopInv(s) && Stopping(s) && t in s.threads && t != s.caller
    ensures Gone(s.threads[t])
  {
    CountFact(s, t);
    StoppingMeans(s);
  }

  lemma CloseCheckInert(s: Sys, t: nat)
    requires LoopInv(s) && Stopping(s) && At(s, t, Closing)
    ensures var s' := DoCloseCheck(s, t);
            && s' == Move(s, t, Left) && Stopping(s') && !s'.crashed && (Blocked(s') <==> Blocked(s)) && t != s.caller
  {
    hide LoopInv;
    NotCrashed(s);
    CloserIsWorker(s, t);
    var s' := DoCloseCheck(s, t);
    assert forall u :: u in s.threads && u != t ==> u in s'.threads && s'.threads[u] == s.threads[u];
    assert forall u :: u in s'.threads ==> u in s.threads;
  }

  lemma CloserIsWorker(s: Sys, t: nat)
    requires LoopInv(s) && At(s, t, Closing)
    ensures t != s.caller
  {
    CountFact(s, t);
  }

  /** A label that comes from a thread of its own. */
  function Actor(l: Label): Option<nat> {
    if l.Spawn? then l.actor else if l.SetAutoStop? || l.SetStopping? then None else Some(l.tid)
  }

  lemma GoneOnlyCloses(s: Sys, l: Label, t: nat)
    requires Enabled(s, l) && Actor(l) == Some(t) && t in s.threads && Gone(s.threads[t])
    ensures l == CloseCheck(t) && At(s, t, Closing)
  {
    hide LockFree;
  }

  lemma ActorExists(s: Sys, l: Label)
    requires Enabled(s, l) && Actor(l).Some?
    ensures Actor(l).value in s.threads
  {
    hide LockFree;
  }

  lemma FlagsInert(s: Sys, l: Label)
    requires Stopping(s) && !s.crashed && Enabled(s, l) && Actor(l) == None && !OutsideForced(l)
    ensures Apply(s, l) == s
  {
    hide LockFree, Stopping, Queue, NewCo, SetCo;
    FlagsAreSet(s);
    match l {
      case SetAutoStop => assert s.(autoStop := true) == s;
      case SetStopping => assert s.(stopFlag := true) == s;
      case Spawn(actor, func, pin, force, id) => assert DoSpawn(s, func, pin, force, id) == s;
    }
  }

  lemma FlagsAreSet(s: Sys)
    requires Stopping(s)
    ensures s.autoStop && s.stopFlag
  {
  }

  /** The calling thread has a task it cannot run, or a coroutine that cannot act. */
  lemma CallerInert(s: Sys, l: Label)
    requires LoopInv(s) && Stopping(s) && !CanAct(s) && !Quiet(s) && Enabled(s, l) && Actor(l) == Some(s.caller)
    ensures Stopping(Apply(s, l)) && !CanAct(Apply(s, l)) && !Apply(s, l).crashed
  {
    hide LoopInv;
    NotCrashed(s);
    var t := s.caller;
    if s.threads[t].Holding? {
      HeldCo(s, t);
      IdleHand(s, l);
    } else {
      StuckCo(s, l);
    }
  }

  lemma HeldCo(s: Sys, t: nat)
    requires LoopInv(s) && t in s.threads && s.threads[t].Holding? && s.threads[t].task.work.Co?
    ensures s.threads[t].task.work.co in s.cos
  {
    ThreadFact(s, t);
  }

  lemma IdleHand(s: Sys, l: Label)
    requires Stopping(s) && !s.crashed && !CanAct(s) && Enabled(s, l) && Actor(l) == Some(s.caller) && s.threads[s.caller].Holding?
    requires s.threads[s.caller].task.work.Co? ==> s.threads[s.caller].task.work.co in s.cos
    ensures Stopping(Apply(s, l)) && !CanAct(Apply(s, l)) && !Apply(s, l).crashed
  {
    hide Stopping, LockFree, Blocked, CoCanAct, DoDispatch;
    assert l.Dispatch?;
    if s.threads[s.caller].task.work.Cb? {
      BlockedIsLocked(s);
    } else {
      DispatchInert(s, l.tid, l.id);
    }
  }

  lemma BlockedIsLocked(s: Sys)
    requires Blocked(s)
    ensures !LockFree(s)
  {
  }

  lemma DispatchInert(s: Sys, t: nat, id: nat)
    requires Stopping(s) && !s.crashed && !CanAct(s) && t == s.caller && t in s.threads && s.threads[t].Holding?
    requires s.threads[t].task.work.Co? && s.threads[t].task.work.co in s.cos
    ensures var s' := DoDispatch(s, t, id); Stopping(s') && !CanAct(s') && !s'.crashed
  {
    hide Queue, NewCo, Blocked;
    var s', c := DoDispatch(s, t, id), s.threads[t].task.work.co;
    BlockedStays(s, s', t, s'.threads[t]);
    assert s'.cos[c].phase == s.cos[c].phase && s'.calls == s.calls && s'.caller == s.caller;
  }

  lemma BlockedStays(s: Sys, s': Sys, t: nat, pc: Pc)
    requires t in s.threads && s.threads[t] != Wedged && pc != Wedged && s'.threads == s.threads[t := pc]
    ensures Blocked(s') <==> Blocked(s)
  {
    assert forall u :: u in s.threads && u != t ==> u in s'.threads && s'.threads[u] == s.threads[u];
    assert forall u :: u in s'.threads ==> u in s.threads;
  }

  /** A coroutine that cannot act yields, or checks and is then stuck at the lock. */
  lemma StuckCo(s: Sys, l: Label)
    requires LoopInv(s) && Stopping(s) && !s.crashed && !CanAct(s) && Enabled(s, l) && Actor(l) == Some(s.caller)
    requires s.threads[s.caller].Executing?
    ensures Stopping(Apply(s, l)) && !CanAct(Apply(s, l)) && !Apply(s, l).crashed
  {
    hide LoopInv, Stopping, LockFree, Blocked, DoYield, DoCheckTimeout;
    var t, c := s.caller, s.threads[s.caller].co;
    ExecutesKnown(s, t);
    if Blocked(s) { BlockedIsLocked(s); }
    StuckLabels(s, l);
    if l.YieldCo? {
      YieldInert(s, t);
    } else {
      CheckInert(s, t);
    }
  }

  lemma ExecutesKnown(s: Sys, t: nat)
    requires LoopInv(s) && t in s.threads && s.threads[t].Executing?
    ensures Runs(s, t) && !s.cos[s.threads[t].co].done && (!PhaseOn(s, t).Plain? ==> InCall(s, t))
  {
    ThreadFact(s, t);
    RunsFact(s, t);
  }

  lemma StuckLabels(s: Sys, l: Label)
    requires Enabled(s, l) && Actor(l) == Some(s.caller) && Runs(s, s.caller) && !CoCanAct(s, s.threads[s.caller].co)
    requires !s.cos[s.threads[s.caller].co].done && (Blocked(s) ==> !LockFree(s))
    ensures (l == YieldCo(s.caller) && PhaseOn(s, s.caller).Waiting?)
            || (l == CheckTimeout(s.caller) && InCall(s, s.caller) && PhaseOn(s, s.caller).Checking?)
  {
    hide LockFree, Blocked;
  }

  lemma YieldInert(s: Sys, t: nat)
    requires Stopping(s) && !s.crashed && t == s.caller && Runs(s, t) && PhaseOn(s, t).Waiting?
    ensures var s' := DoYield(s, t); Stopping(s') && !CanAct(s') && !s'.crashed
  {
  }

  lemma CheckInert(s: Sys, t: nat)
    requires Stopping(s) && !s.crashed && !CanAct(s) && t == s.caller && InCall(s, t) && PhaseOn(s, t).Checking?
    requires !s.cos[s.threads[t].co].done
    ensures var s' := DoCheckTimeout(s, t); Stopping(s') && !CanAct(s') && !s'.crashed
  {
    hide Blocked;
    var s' := DoCheckTimeout(s, t);
    SameBlocked(s, s');
  }

  lemma SameBlocked(s: Sys, s': Sys)
    requires s'.threads == s.threads
    ensures Blocked(s') <==> Blocked(s)
  {
  }

  lemma QuietCannotAct(s: Sys)
    requires Quiet(s)
    ensures !CanAct(s)
  {
  }

  /** Without a caller that can act, stopping() stays true, and the caller stays unable. */
  lemma InertStep(s: Sys, l: Label)
    requires LoopInv(s) && Stopping(s) && !CanAct(s) && Enabled(s, l) && !OutsideForced(l)
    ensures Stopping(Apply(s, l)) && !CanAct(Apply(s, l)) && !Apply(s, l).crashed && LoopInv(Apply(s, l))
  {
    hide LoopInv, Stopping, CanAct, Quiet, Apply, Enabled, Actor, OutsideForced;
    StepKeeps(s, l);
    if Quiet(s) {
      StoppingIsStable(s, l);
      QuietCannotAct(Apply(s, l));
    } else if Actor(l) == None {
      NotCrashed(s);
      FlagsInert(s, l);
    } else if Actor(l) == Some(s.caller) {
      CallerInert(s, l);
    } else {
      OtherInert(s, l, Actor(l).value);
    }
  }

  lemma OtherInert(s: Sys, l: Label, t: nat)
    requires LoopInv(s) && Stopping(s) && !CanAct(s) && Enabled(s, l) && Actor(l) == Some(t) && t != s.caller
    ensures Stopping(Apply(s, l)) && !CanAct(Apply(s, l)) && !Apply(s, l).crashed
  {
    hide LoopInv, Stopping, Blocked, LockFree;
    ActorExists(s, l);
    OthersAreGone(s, t);
    GoneOnlyCloses(s, l, t);
    CloseCheckInert(s, t);
    assert Apply(s, l) == Move(s, t, Left);
    AbilityStays(s, t);
  }

  lemma AbilityStays(s: Sys, t: nat)
    requires At(s, t, Closing) && t != s.caller
    ensures CanAct(Move(s, t, Left)) <==> CanAct(s)
  {
    hide Blocked;
    BlockedStays(s, Move(s, t, Left), t, Left);
  }

  lemma {:induction false} StaysStopped(s: Sys, ls: seq<Label>, ss: seq<Sys>, i: nat)
    requires LoopInv(s) && Stopping(s) && !CanAct(s) && Path(s, ls, ss) && i <= |ls|
    ensures LoopInv(ss[i]) && Stopping(ss[i]) && !CanAct(ss[i])
  {
    hide LoopInv, Stopping, CanAct, Apply, Enabled, OutsideForced;
    if i > 0 {
      StaysStopped(s, ls, ss, i - 1);
      InertStep(ss[i - 1], ls[i - 1]);
    }
  }

  // ---------------------------------------------------------------- it can

  lemma Extend(s: Sys, l: Label, ls: seq<Label>, ss: seq<Sys>)
    requires Enabled(s, l) && !OutsideForced(l) && Ends(Apply(s, l), ls, ss)
    ensures Ends(s, [l] + ls, [s] + ss)
  {
    hide Stopping, Apply, Enabled, OutsideForced;
    var ls', ss' := [l] + ls, [s] + ss;
    assert ss'[|ls'|] == ss[|ls|];
    forall i | 0 <= i < |ls'|
      ensures !OutsideForced(ls'[i]) && Enabled(ss'[i], ls'[i]) && ss'[i + 1] == Apply(ss'[i], ls'[i])
    {
      if i > 0 { assert ls'[i] == ls[i - 1] && ss'[i] == ss[i - 1]; }
    }
  }

  lemma EndsAtOnce(s: Sys, l: Label) returns (ls: seq<Label>, ss: seq<Sys>)
    requires Enabled(s, l) && !OutsideForced(l) && !Stopping(Apply(s, l))
    ensures Ends(s, ls, ss)
  {
    ls, ss := [l], [s, Apply(s, l)];
  }

  /** A coroutine that is in no call registers an event. */
  lemma PlainEnds(s: Sys) returns (ls: seq<Label>, ss: seq<Sys>)
    requires LoopInv(s) && Stopping(s) && RunsPlain(s, s.caller)
    ensures Ends(s, ls, ss)
  {
    hide LoopInv, Stopping, Apply, Enabled;
    NotCrashed(s);
    BusyCallerEndsStopping(s, Slot(0, READ), 0);
    ls, ss := EndsAtOnce(s, AddCallback(s.caller, Slot(0, READ), 0, true));
  }

  /** The next step of a call in the calling thread, towards its end or a registration. */
  function CallLabelOf(s: Sys): Label
    requires InCall(s, s.caller)
  {
    match PhaseOn(s, s.caller)
    case Trying(_) => Attempt(s.caller, false)
    case Parked(_) => Wake(s.caller, false)
    case Checking(_) => CheckTimeout(s.caller)
    case Cancelling(_) => CancelTimeout(s.caller, true)
    case _ => Register(s.caller, true)
  }

  /** One step from a call back to plain code. */
  lemma BackToPlain(s: Sys)
    requires Stopping(s) && !s.crashed && InCall(s, s.caller)
    requires var p := PhaseOn(s, s.caller);
             p.Trying? || p.Parked? || (p.Checking? && (!s.calls[p.call].alive || s.calls[p.call].canceled))
    ensures var l := CallLabelOf(s);
            && Enabled(s, l) && !OutsideForced(l)
            && var s' := Apply(s, l); !s'.crashed && Stopping(s') && s'.caller == s.caller && RunsPlain(s', s'.caller)
  {
    hide LockFree, Disarmed, Ended;
    if PhaseOn(s, s.caller).Trying? {
      AttemptBack(s, s.caller);
    } else if PhaseOn(s, s.caller).Parked? {
      WakeBack(s, s.caller);
    } else {
      CheckBack(s, s.caller);
    }
  }

  lemma AttemptBack(s: Sys, t: nat)
    requires InCall(s, t) && PhaseOn(s, t).Trying?
    ensures var s' := DoAttempt(s, t, false);
            s'.crashed == s.crashed && (Stopping(s) ==> Stopping(s')) && s'.caller == s.caller && RunsPlain(s', t)
  {
    hide Ended;
  }

  lemma WakeBack(s: Sys, t: nat)
    requires InCall(s, t) && PhaseOn(s, t).Parked?
    ensures var s' := DoWake(s, t, false);
            s'.crashed == s.crashed && (Stopping(s) ==> Stopping(s')) && s'.caller == s.caller && RunsPlain(s', t)
  {
    hide Ended, Disarmed;
  }

  lemma CheckBack(s: Sys, t: nat)
    requires InCall(s, t) && PhaseOn(s, t).Checking?
    ensures var s', k := DoCheckTimeout(s, t), PhaseOn(s, t).call;
            && s'.crashed == s.crashed && (Stopping(s) ==> Stopping(s')) && s'.caller == s.caller && s'.threads == s.threads
            && if !s.calls[k].alive || s.calls[k].canceled then RunsPlain(s', t)
               else InCall(s', t) && PhaseOn(s', t) == Cancelling(k)
  {
  }

  lemma CallEnds(s: Sys) returns (ls: seq<Label>, ss: seq<Sys>)
    requires LoopInv(s) && Stopping(s) && InCall(s, s.caller)
    requires var p := PhaseOn(s, s.caller);
             p.Trying? || p.Parked? || (p.Checking? && (!s.calls[p.call].alive || s.calls[p.call].canceled))
    ensures Ends(s, ls, ss)
  {
    hide LoopInv, Stopping, Apply, Enabled, OutsideForced, Ends;
    NotCrashed(s);
    BackToPlain(s);
    var l := CallLabelOf(s);
    StepKeeps(s, l);
    var ls1, ss1 := PlainEnds(Apply(s, l));
    Extend(s, l, ls1, ss1);
    ls, ss := [l] + ls1, [s] + ss1;
  }

  /** addEvent of a call finds its slot free. */
  lemma ArmingEnds(s: Sys) returns (ls: seq<Label>, ss: seq<Sys>)
    requires LoopInv(s) && Stopping(s) && InCall(s, s.caller) && PhaseOn(s, s.caller).Arming?
    ensures Ends(s, ls, ss)
  {
    hide LoopInv, Ends, AddEvent, AddAborts, Inv;
    NotCrashed(s);
    StoppingMeans(s);
    var t := s.caller;
    var slot := s.calls[PhaseOn(s, t).call].slot;
    FreeSlot(s, slot);
    AddNeverAborts(s.io, slot.fd, slot.event, true);
    AddEventKeepsInv(s.io, slot.fd, slot.event, None, s.threads[t].co, t, true);
    ls, ss := EndsAtOnce(s, Register(t, true));
  }

  lemma Unused(keys: set<nat>) returns (id: nat)
    ensures id !in keys && forall k :: k in keys ==> k < id
  {
    id := 0;
    var rest := keys;
    while rest != {}
      invariant rest <= keys && forall k :: k in keys && k !in rest ==> k < id
      decreases rest
    {
      var k :| k in rest;
      id := if k >= id then k + 1 else id;
      rest := rest - {k};
    }
  }

  /** A callback in hand is wrapped in a coroutine, which is queued by force. */
  lemma CallbackEnds(s: Sys) returns (ls: seq<Label>, ss: seq<Sys>)
    requires LoopInv(s) && Stopping(s) && LockFree(s) && s.caller in s.threads
    requires s.threads[s.caller].Holding? && s.threads[s.caller].task.work.Cb?
    ensures Ends(s, ls, ss)
  {
    hide LoopInv, Ends, LockFree;
    NotCrashed(s);
    var id := Unused(s.cos.Keys);
    ls, ss := EndsAtOnce(s, Dispatch(s.caller, id));
  }

  lemma NoWaitingHand(s: Sys, t: nat)
    requires LoopInv(s) && t in s.threads && s.threads[t].Holding? && s.threads[t].task.work.Co?
    ensures var c := s.threads[t].task.work.co; c in s.cos && (s.cos[c].phase.Plain? || s.cos[c].phase.Parked? || s.cos[c].phase.Checking?)
  {
    ThreadFact(s, t);
  }

  lemma DispatchActs(s: Sys)
    requires LoopInv(s) && Stopping(s) && CanAct(s) && s.threads[s.caller].Holding? && s.threads[s.caller].task.work.Co?
    ensures Enabled(s, Dispatch(s.caller, 0))
    ensures var s' := DoDispatch(s, s.caller, 0);
            !s'.crashed && Stopping(s') && CanAct(s') && s'.caller == s.caller && s'.threads[s.caller].Executing? && Closers(s') == Closers(s)
  {
    hide LoopInv, Blocked, LockFree, Queue, NewCo;
    NotCrashed(s);
    var t, s' := s.caller, DoDispatch(s, s.caller, 0);
    var c := s.threads[t].task.work.co;
    BlockedStays(s, s', t, Executing(c));
    assert forall u :: u in s.threads && u != t ==> u in s'.threads && s'.threads[u] == s.threads[u];
    assert s'.cos[c].phase == s.cos[c].phase && s'.calls == s.calls;
    assert Closers(s') == Closers(s);
  }

  /** The workers that have yet to check again. */
  function Closers(s: Sys): set<nat> {
    set t | t in s.threads && s.threads[t] == Closing
  }

  lemma OnlyClosersLock(s: Sys)
    requires !Blocked(s) && Closers(s) == {}
    ensures LockFree(s)
  {
    forall t | t in s.threads
      ensures !HoldsLock(s.threads[t])
    {
      assert t !in Closers(s);
    }
  }

  /** One of them leaves. */
  lemma CloserLeaves(s: Sys, t: nat)
    requires LoopInv(s) && Stopping(s) && CanAct(s) && t in Closers(s)
    ensures Enabled(s, CloseCheck(t)) && !OutsideForced(CloseCheck(t))
    ensures var s' := Apply(s, CloseCheck(t));
            && LoopInv(s') && Stopping(s') && CanAct(s') && Closers(s') < Closers(s)
            && s'.caller == s.caller && s.caller in s.threads && s'.threads[s.caller] == s.threads[s.caller] && s'.cos == s.cos
            && s'.calls == s.calls
  {
    hide LoopInv, Stopping, CanAct, Blocked;
    NotCrashed(s);
    CloseCheckInert(s, t);
    AbilityStays(s, t);
    StepKeeps(s, CloseCheck(t));
    var s' := Apply(s, CloseCheck(t));
    assert s' == Move(s, t, Left);
    assert t in Closers(s) && t !in Closers(s');
    assert forall u :: u in Closers(s') ==> u in Closers(s);
    ActingCallerIsThread(s);
  }

  lemma ActingCallerIsThread(s: Sys)
    requires CanAct(s)
    ensures s.caller in s.threads
  {
  }

  /** The callback that has marked its call gets the lock, finds nothing registered and goes on. */
  lemma CancellingBack(s: Sys)
    requires LoopInv(s) && Stopping(s) && LockFree(s) && InCall(s, s.caller) && PhaseOn(s, s.caller).Cancelling?
    ensures Enabled(s, CancelTimeout(s.caller, true))
    ensures var s' := DoCancelTimeout(s, s.caller, true);
            !s'.crashed && Stopping(s') && s'.caller == s.caller && RunsPlain(s', s.caller)
  {
    hide LoopInv, LockFree, Fire, Unmask;
    NotCrashed(s);
    StoppingMeans(s);
    var slot := s.calls[PhaseOn(s, s.caller).call].slot;
    LiveIffRegistered(s, slot);
  }

  lemma LiveIffRegistered(s: Sys, slot: Slot)
    requires LoopInv(s)
    ensures slot in s.live <==> Registered(s.io, slot.fd, slot.event)
  {
    LiveFact(s, slot);
  }

  lemma CancellingEnds(s: Sys) returns (ls: seq<Label>, ss: seq<Sys>)
    requires LoopInv(s) && Stopping(s) && LockFree(s) && InCall(s, s.caller) && PhaseOn(s, s.caller).Cancelling?
    ensures Ends(s, ls, ss)
  {
    hide LoopInv, Stopping, DoCancelTimeout, Enabled, OutsideForced, Ends, LockFree;
    CancellingBack(s);
    var l := CancelTimeout(s.caller, true);
    NotForced(l);
    StepKeeps(s, l);
    var ls1, ss1 := PlainEnds(DoCancelTimeout(s, s.caller, true));
    Extend(s, l, ls1, ss1);
    ls, ss := [l] + ls1, [s] + ss1;
  }

  lemma NotForced(l: Label)
    requires !l.Spawn?
    ensures !OutsideForced(l)
  {
  }

  /** The callback marks its call, then cancels. */
  lemma MarkingEnds(s: Sys) returns (ls: seq<Label>, ss: seq<Sys>)
    requires LoopInv(s) && Stopping(s) && LockFree(s) && InCall(s, s.caller) && PhaseOn(s, s.caller).Checking?
    requires var k := PhaseOn(s, s.caller).call; s.calls[k].alive && !s.calls[k].canceled
    ensures Ends(s, ls, ss)
  {
    hide LoopInv, Stopping, DoCheckTimeout, OutsideForced, Ends, LockFree;
    NotCrashed(s);
    var l := CheckTimeout(s.caller);
    CheckBack(s, s.caller);
    NotForced(l);
    StepKeeps(s, l);
    SameLock(s, DoCheckTimeout(s, s.caller));
    var ls1, ss1 := CancellingEnds(DoCheckTimeout(s, s.caller));
    Extend(s, l, ls1, ss1);
    ls, ss := [l] + ls1, [s] + ss1;
  }

  lemma SameLock(s: Sys, s': Sys)
    requires s'.threads == s.threads
    ensures LockFree(s') <==> LockFree(s)
  {
  }

  /** A caller that can act and needs no lock for it, or finds it free. */
  lemma ActsNow(s: Sys) returns (ls: seq<Label>, ss: seq<Sys>)
    requires LoopInv(s) && Stopping(s) && CanAct(s) && s.threads[s.caller].Executing? && (LockFree(s) || Blocked(s))
    ensures Ends(s, ls, ss)
  {
    hide LoopInv, Stopping, Ends, LockFree, Blocked;
    ExecutesKnown(s, s.caller);
    var p := PhaseOn(s, s.caller);
    if p.Plain? {
      ls, ss := PlainEnds(s);
    } else if p.Trying? || p.Parked? || (p.Checking? && (!s.calls[p.call].alive || s.calls[p.call].canceled)) {
      ls, ss := CallEnds(s);
    } else if p.Arming? {
      ls, ss := ArmingEnds(s);
    } else if p.Checking? {
      ls, ss := MarkingEnds(s);
    } else {
      ls, ss := CancellingEnds(s);
    }
  }

  lemma {:induction false} Acts(s: Sys) returns (ls: seq<Label>, ss: seq<Sys>)
    requires LoopInv(s) && Stopping(s) && CanAct(s)
    ensures Ends(s, ls, ss)
    decreases Closers(s), s.caller in s.threads && s.threads[s.caller].Holding?
  {
    hide LoopInv, Stopping, CanAct, Ends, LockFree, Blocked, OutsideForced, Enabled, DoDispatch, CoCanAct;
    ActingCallerIsThread(s);
    if Closers(s) != {} && !Blocked(s) {
      var t :| t in Closers(s);
      CloserLeaves(s, t);
      var ls1, ss1 := Acts(Apply(s, CloseCheck(t)));
      Extend(s, CloseCheck(t), ls1, ss1);
      ls, ss := [CloseCheck(t)] + ls1, [s] + ss1;
    } else {
      if !Blocked(s) { OnlyClosersLock(s); }
      ActsUnlocked(s);
      if s.threads[s.caller].Executing? {
        ls, ss := ActsNow(s);
      } else if s.threads[s.caller].task.work.Cb? {
        ls, ss := CallbackEnds(s);
      } else {
        var l := Dispatch(s.caller, 0);
        DispatchActs(s);
        NotForced(l);
        StepKeeps(s, l);
        var ls1, ss1 := Acts(DoDispatch(s, s.caller, 0));
        Extend(s, l, ls1, ss1);
        ls, ss := [l] + ls1, [s] + ss1;
      }
    }
  }

  lemma ActsUnlocked(s: Sys)
    requires CanAct(s)
    ensures s.threads[s.caller].Executing? || s.threads[s.caller].Holding?
    ensures s.threads[s.caller].Holding? && s.threads[s.caller].task.work.Cb? ==> !Blocked(s)
  {
  }

  /** Exactly when stopping() can become false again, without a forced schedule() from outside: the calling
      thread holds a task that will run, or executes a coroutine that can act. */
  lemma StoppingEndsIff(s: Sys)
    requires LoopInv(s) && Stopping(s)
    ensures (exists ls, ss :: Ends(s, ls, ss)) <==> CanAct(s)
  {
    hide LoopInv, Stopping, CanAct, Path;
    if CanAct(s) {
      var ls, ss := Acts(s);
    } else if ls, ss :| Ends(s, ls, ss) {
      LastOfPath(s, ls, ss);
      StaysStopped(s, ls, ss, |ls|);
    }
  }

  lemma LastOfPath(s: Sys, ls: seq<Label>, ss: seq<Sys>)
    requires Path(s, ls, ss)
    ensures |ss| == |ls| + 1
  {
  }
}
