/** Timeouts of doSocketIo in the event loop: when a waiting call has no timeout coming any more. */
module EventLoopTimeouts {
  import opened Wrappers
  import opened TaskPool
  import opened IoEvents
  import opened EventLoop
  import opened EventLoopInvariant
  import opened EventLoopTheorems

  /** The call is marked as timed out, and no callback is left that would cancel its event. */
  ghost predicate TimeoutSpent(s: Sys, call: nat) {
    && call in s.calls && s.calls[call].canceled
    && forall c :: c in s.cos ==> s.cos[c].phase != Cancelling(call)
  }

  // ---------------------------------------------------------------- callbacks on their way

  predicate IsCb(pool: Pool, i: nat, call: nat) {
    i < |pool| && pool[i].work == Cb(TimeoutOf(call))
  }

  predicate HoldsCb(s: Sys, t: nat, call: nat) {
    t in s.threads && s.threads[t].Holding? && s.threads[t].task.work == Cb(TimeoutOf(call))
  }

  predicate Checks(s: Sys, c: nat, call: nat) {
    c in s.cos && s.cos[c].phase == Checking(call)
  }

  /** A timeout callback of the call is queued, in a thread's hand, or a coroutine that has not checked yet. */
  ghost predicate InFlight(s: Sys, call: nat) {
    (exists i: nat :: IsCb(s.pool, i, call)) || (exists t :: HoldsCb(s, t, call)) || (exists c :: Checks(s, c, call))
  }

  // ---------------------------------------------------------------- steps that leave the calls alone

  predicate Later(p: Phase, q: Phase) {
    q == p || (p.Waiting? && q == Parked(p.call))
  }

  predicate Fresh(p: Phase) {
    p.Plain? || p.Checking?
  }

  ghost predicate SamePhases(s: Sys, s': Sys) {
    && s.cos.Keys <= s'.cos.Keys
    && forall c :: c in s'.cos ==> if c in s.cos then Later(s.cos[c].phase, s'.cos[c].phase) else Fresh(s'.cos[c].phase)
  }

  ghost predicate SameCalls(s: Sys, s': Sys) {
    s'.calls == s.calls && s'.timers == s.timers && s'.nextTimer == s.nextTimer && SamePhases(s, s')
  }

  /** The pool only grows, and what threads hold they go on holding. */
  ghost predicate SameFlights(s: Sys, s': Sys) {
    && s.pool <= s'.pool
    && forall t :: t in s.threads && s.threads[t].Holding? ==> t in s'.threads && s'.threads[t] == s.threads[t]
  }

  ghost predicate Calm(s: Sys, s': Sys) {
    SameCalls(s, s') && SameFlights(s, s')
  }

  /** What every step does that is not one of a socket call or of a timer: no callback is lost. */
  ghost predicate Moved(s: Sys, s': Sys) {
    SameCalls(s, s') && forall call :: InFlight(s, call) ==> InFlight(s', call)
  }

  lemma CalmMoves(s: Sys, s': Sys)
    requires Calm(s, s')
    ensures Moved(s, s')
  {
    forall call | InFlight(s, call)
      ensures InFlight(s', call)
    {
      if i: nat :| IsCb(s.pool, i, call) {
        assert IsCb(s'.pool, i, call);
      } else if t :| HoldsCb(s, t, call) {
        assert HoldsCb(s', t, call);
      } else {
        var c :| Checks(s, c, call);
        assert Checks(s', c, call);
      }
    }
  }

  lemma CalmTrans(s: Sys, s1: Sys, s2: Sys)
    requires Calm(s, s1) && Calm(s1, s2)
    ensures Calm(s, s2)
  {
  }

  lemma CalmSelf(s: Sys)
    ensures Calm(s, s) && Calm(s, Crash(s))
  {
  }

  lemma KernelCalm(s: Sys, kernel: map<nat, set<Event>>)
    ensures Calm(s, WithKernel(s, kernel))
  {
  }

  /** One coroutine changes, but hardly its phase. */
  lemma OneCoCalm(s: Sys, s': Sys, c: nat, rec: CoRec)
    requires s'.calls == s.calls && s'.timers == s.timers && s'.nextTimer == s.nextTimer
    requires s'.cos == s.cos || s'.cos == s.cos[c := rec]
    requires if c in s.cos then Later(s.cos[c].phase, rec.phase) else Fresh(rec.phase)
    ensures SameCalls(s, s')
    ensures SameFlights(s, s') ==> Calm(s, s')
  {
  }

  lemma NoCoCalm(s: Sys, s': Sys)
    requires s'.calls == s.calls && s'.timers == s.timers && s'.nextTimer == s.nextTimer && s'.cos == s.cos
    ensures SameCalls(s, s')
    ensures SameFlights(s, s') ==> Calm(s, s')
  {
  }

  /** No thread moves, and the pool is only added to. */
  lemma StillFlights(s: Sys, s': Sys)
    requires s.pool <= s'.pool && s'.threads == s.threads
    ensures SameFlights(s, s')
  {
  }

  /** One thread moves, with no task in hand. */
  lemma MoveFlights(s: Sys, s': Sys, t: nat, pc: Pc)
    requires s.pool <= s'.pool && s'.threads == s.threads[t := pc]
    requires t in s.threads && !s.threads[t].Holding?
    ensures SameFlights(s, s')
  {
  }

  lemma QueueGrows(pool: Pool, autoStop: bool, work: Option<Work>, tid: nat, force: bool)
    ensures pool <= Queue(pool, autoStop, work, tid, force)
  {
  }

  lemma FireCalm(s: Sys, slot: Slot, how: How)
    ensures Calm(s, Fire(s, slot, how))
  {
    hide Calm, SameCalls, SameFlights, Trigger, Queue, Crash;
    CalmSelf(s);
    if Fires(s, slot) {
      var s' := Fire(s, slot, how);
      var task := Trigger(s.io, slot.fd, slot.event).1;
      QueueGrows(s.pool, s.autoStop, Some(task.work), task.threadId, true);
      StillFlights(s, s');
      TaskIsKnown(s, slot);
      if task.work.Co? {
        OneCoCalm(s, s', task.work.co, s.cos[task.work.co].(loc := Queued));
      } else {
        NoCoCalm(s, s');
      }
    }
  }

  predicate Fires(s: Sys, slot: Slot) {
    Registered(s.io, slot.fd, slot.event) &&
    var ctx := s.io.fds[slot.fd].Ctx(slot.event);
    ctx.Occupied() && slot in s.live && !(ctx.co.Some? && ctx.co.value !in s.cos)
  }

  lemma TaskIsKnown(s: Sys, slot: Slot)
    requires Fires(s, slot)
    ensures var task := Trigger(s.io, slot.fd, slot.event).1; task.work.Co? ==> task.work.co in s.cos
  {
  }

  lemma FireIfCalm(s: Sys, slot: Slot, how: How, wanted: bool)
    ensures Calm(s, FireIf(s, slot, how, wanted))
  {
    hide Fire, Calm;
    CalmSelf(s);
    FireCalm(s, slot, how);
  }

  lemma FireBothCalm(s: Sys, fd: nat, how: How, read: bool, write: bool)
    ensures Calm(s, FireIf(FireIf(s, Slot(fd, READ), how, read), Slot(fd, WRITE), how, write))
  {
    hide Fire, FireIf, Calm;
    FireIfCalm(s, Slot(fd, READ), how, read);
    var s1 := FireIf(s, Slot(fd, READ), how, read);
    FireIfCalm(s1, Slot(fd, WRITE), how, write);
    CalmTrans(s, s1, FireIf(s1, Slot(fd, WRITE), how, write));
  }

  lemma CancelCalm(s: Sys, slot: Slot, up: bool)
    ensures Calm(s, DoCancel(s, slot, up))
  {
    hide Fire, Calm;
    CalmSelf(s);
    if Registered(s.io, slot.fd, slot.event) {
      var k := Unmask(s.io, slot.fd, slot.event, up);
      if k.Some? {
        var s1 := WithKernel(s, k.value);
        KernelCalm(s, k.value);
        FireCalm(s1, slot, ByCancel);
        CalmTrans(s, s1, Fire(s1, slot, ByCancel));
      }
    }
  }

  lemma CancelAllCalm(s: Sys, fd: nat, up: bool)
    ensures Calm(s, DoCancelAll(s, fd, up))
  {
    hide Fire, FireIf, Calm;
    CalmSelf(s);
    if fd < |s.io.fds| && s.io.fds[fd].events != {} {
      var k := KernelCtl(s.io.kernel, DEL, fd, {}, up);
      if k.Some? {
        var s1 := WithKernel(s, k.value);
        KernelCalm(s, k.value);
        var s2 := FireIf(s1, Slot(fd, READ), ByCancel, READ in s1.io.fds[fd].events);
        FireBothCalm(s1, fd, ByCancel, READ in s1.io.fds[fd].events, Registered(s2.io, fd, WRITE));
        CalmTrans(s, s1, DoCancelAll(s, fd, up));
      }
    }
  }

  lemma DeliverCalm(s: Sys, t: nat, up: bool)
    requires t in s.threads && s.threads[t].Delivering? && s.threads[t].ready != []
    requires s.threads[t].ready[0].fd < |s.io.fds|
    ensures Calm(s, DoDeliver(s, t, up))
  {
    hide Fire, FireIf, Calm, SameCalls, SameFlights;
    var r := s.threads[t].ready[0];
    var f := s.io.fds[r.fd];
    var s1 := Move(s, t, Delivering(s.threads[t].ready[1..]));
    MoveFlights(s, s1, t, Delivering(s.threads[t].ready[1..]));
    NoCoCalm(s, s1);
    if f.events * r.events != {} {
      var k := KernelCtl(s.io.kernel, RemoveOp(f.events - r.events), r.fd, f.events - r.events, up);
      if k.Some? {
        var s2 := WithKernel(s1, k.value);
        KernelCalm(s1, k.value);
        CalmTrans(s, s1, s2);
        FireBothCalm(s2, r.fd, ByDelivery, READ in r.events, WRITE in r.events);
        CalmTrans(s, s2, DoDeliver(s, t, up));
      }
    }
  }

  lemma SpawnCalm(s: Sys, func: Option<nat>, pin: nat, force: bool, id: nat)
    requires id !in s.cos
    ensures Calm(s, DoSpawn(s, func, pin, force, id))
  {
    hide Queue, Calm, SameCalls, SameFlights;
    var s' := DoSpawn(s, func, pin, force, id);
    if func.Some? {
      QueueGrows(s.pool, s.autoStop, Some(Cb(UserFunc(func.value))), pin, force);
    } else {
      QueueGrows(s.pool, s.autoStop, Some(Co(id)), pin, force);
    }
    StillFlights(s, s');
    OneCoCalm(s, s', id, NewCo(None));
  }

  /** The running coroutine yields or ends. */
  lemma LeaveCalm(s: Sys, t: nat)
    requires Runs(s, t)
    ensures PhaseOn(s, t).Waiting? ==> Calm(s, DoYield(s, t))
    ensures Calm(s, DoFinish(s, t))
  {
    hide Calm, SameCalls, SameFlights;
    var c := s.threads[t].co;
    if PhaseOn(s, t).Waiting? {
      MoveFlights(s, DoYield(s, t), t, Scanning);
      OneCoCalm(s, DoYield(s, t), c, s.cos[c].(on := 0, phase := Parked(s.cos[c].phase.call)));
    }
    MoveFlights(s, DoFinish(s, t), t, Scanning);
    OneCoCalm(s, DoFinish(s, t), c, s.cos[c].(on := 0, done := true));
  }

  lemma AddCallbackCalm(s: Sys, t: nat, slot: Slot, func: nat, up: bool)
    requires Runs(s, t)
    ensures Calm(s, DoAddCallback(s, t, slot, func, up))
  {
    hide AddEvent, AddAborts, Calm, SameCalls, SameFlights, Registered;
    CalmSelf(s);
    if !(|s.io.fds| < INITIAL_FDS || AddAborts(s.io, slot.fd, slot.event, up)) {
      var r := AddEvent(s.io, slot.fd, slot.event, Some(UserFunc(func)), s.threads[t].co, t, up);
      var s' := if r.1 then Enter(s, r.0, slot) else s.(io := r.0);
      StillFlights(s, s');
      NoCoCalm(s, s');
    }
  }

  lemma DeleteCalm(s: Sys, slot: Slot, up: bool)
    ensures Calm(s, DoDelete(s, slot, up))
  {
    hide Unmask, Calm;
    var ok := DelEvent(s.io, slot.fd, slot.event, up).1;
    CalmSelf(s);
    if ok && slot in s.live { DeletedCalm(s, slot, up); }
  }

  lemma DeletedCalm(s: Sys, slot: Slot, up: bool)
    requires DelEvent(s.io, slot.fd, slot.event, up).1 && slot in s.live
    ensures Calm(s, DoDelete(s, slot, up))
  {
    hide Unmask, Calm, SameCalls, SameFlights;
    assert Registered(s.io, slot.fd, slot.event);
    var s', co := DoDelete(s, slot, up), s.io.fds[slot.fd].Ctx(slot.event).co;
    StillFlights(s, s');
    if co.Some? && co.value in s.cos {
      OneCoCalm(s, s', co.value, s.cos[co.value].(loc := Nowhere));
    } else {
      NoCoCalm(s, s');
    }
  }

  lemma IdlingCalm(s: Sys, l: Label)
    requires Enabled(s, l)
    requires l.Decide? || l.CloseCheck? || l.IdleCheck? || l.IdleYield? || l.SetAutoStop? || l.SetStopping?
    ensures Calm(s, Apply(s, l))
  {
    hide Stopping, EarlyClosure, LockFree, DecidePc, IdleEnds, Calm, SameCalls, SameFlights;
    var s' := Apply(s, l);
    NoCoCalm(s, s');
    if l.SetAutoStop? || l.SetStopping? {
      StillFlights(s, s');
    } else {
      MoveFlights(s, s', l.tid, s'.threads[l.tid]);
    }
  }

  // ---------------------------------------------------------------- taking and dispatching

  lemma TakeMoves(s: Sys, t: nat)
    requires At(s, t, Scanning)
    ensures Moved(s, DoTake(s, t))
  {
    hide FirstEligible, Without, SameCalls, SetCo, NewCo, InFlight, Calm, Moved, SameFlights;
    var i := FirstEligible(s.pool, t);
    if i < |s.pool| && s.pool[i].work.Co? && s.pool[i].work.co !in s.cos {
      CalmSelf(s);
      CalmMoves(s, Crash(s));
    } else if i < |s.pool| && s.pool[i].work.Co? {
      TakenCoMoves(s, t, s.pool[i].work.co);
    } else if i < |s.pool| {
      TakenCbMoves(s, t);
    } else {
      NoCoCalm(s, DoTake(s, t));
      MoveFlights(s, DoTake(s, t), t, NoTask);
      CalmMoves(s, DoTake(s, t));
    }
  }

  lemma TakenCoMoves(s: Sys, t: nat, c: nat)
    requires At(s, t, Scanning)
    requires var i := FirstEligible(s.pool, t); i < |s.pool| && s.pool[i].work == Co(c) && c in s.cos
    ensures Moved(s, DoTake(s, t))
  {
    hide FirstEligible, Without, SameCalls, Moved, Calm, SameFlights;
    OneCoCalm(s, DoTake(s, t), c, s.cos[c].(loc := InHand(t)));
    TakenFlights(s, DoTake(s, t), t, FirstEligible(s.pool, t));
  }

  lemma TakenCbMoves(s: Sys, t: nat)
    requires At(s, t, Scanning)
    requires var i := FirstEligible(s.pool, t); i < |s.pool| && s.pool[i].work.Cb?
    ensures Moved(s, DoTake(s, t))
  {
    hide FirstEligible, Without, SameCalls, Moved, Calm, SameFlights;
    NoCoCalm(s, DoTake(s, t));
    TakenFlights(s, DoTake(s, t), t, FirstEligible(s.pool, t));
  }

  /** The task taken is in the thread's hand; the others are still in the pool. */
  lemma TakenFlights(s: Sys, s': Sys, t: nat, i: nat)
    requires SameCalls(s, s') && At(s, t, Scanning) && i < |s.pool| && s'.pool == Without(s.pool, i)
    requires s'.threads == s.threads[t := Holding(s.pool[i])]
    ensures Moved(s, s')
  {
    forall call | InFlight(s, call)
      ensures InFlight(s', call)
    {
      if j: nat :| IsCb(s.pool, j, call) {
        if j == i {
          assert HoldsCb(s', t, call);
        } else {
          assert IsCb(s'.pool, if j < i then j else j - 1, call);
        }
      } else if u :| HoldsCb(s, u, call) {
        assert HoldsCb(s', u, call);
      } else {
        var c :| Checks(s, c, call);
        assert Checks(s', c, call);
      }
    }
  }

  lemma DispatchMoves(s: Sys, t: nat, id: nat)
    requires t in s.threads && s.threads[t].Holding? && (s.threads[t].task.work.Cb? ==> id !in s.cos)
    ensures Moved(s, DoDispatch(s, t, id))
  {
    hide Queue, Calm, Moved, Move, SetCo, NewCo;
    var work := s.threads[t].task.work;
    if work.Cb? {
      DispatchCbMoves(s, t, id);
    } else if work.co in s.cos {
      DispatchCoMoves(s, t, id);
    } else {
      CalmSelf(s);
      CalmMoves(s, Crash(s));
    }
  }

  lemma DispatchCbMoves(s: Sys, t: nat, id: nat)
    requires t in s.threads && s.threads[t].Holding? && s.threads[t].task.work.Cb? && id !in s.cos
    ensures Moved(s, DoDispatch(s, t, id))
  {
    hide Queue, SameCalls, InFlight, Calm, Moved;
    var s', cb := DoDispatch(s, t, id), s.threads[t].task.work.cb;
    QueueGrows(s.pool, s.autoStop, Some(Co(id)), s.threads[t].task.threadId, true);
    OneCoCalm(s, s', id, NewCo(Some(cb)));
    assert id in s'.cos && s'.cos[id] == NewCo(Some(cb));
    DispatchedFlights(s, s', t);
  }

  lemma DispatchCoMoves(s: Sys, t: nat, id: nat)
    requires t in s.threads && s.threads[t].Holding? && s.threads[t].task.work.Co? && s.threads[t].task.work.co in s.cos
    ensures Moved(s, DoDispatch(s, t, id))
  {
    hide Queue, SameCalls, InFlight, Calm, Moved, NewCo;
    var s', c := DoDispatch(s, t, id), s.threads[t].task.work.co;
    var rec := s.cos[c];
    OneCoCalm(s, s', c, if rec.done then rec.(loc := Nowhere) else
      rec.(loc := Nowhere, on := t, home := if rec.home == 0 then t else rec.home));
    DispatchedFlights(s, s', t);
  }

  /** A callback in hand becomes a coroutine that has yet to check. */
  lemma DispatchedFlights(s: Sys, s': Sys, t: nat)
    requires SameCalls(s, s') && s.pool <= s'.pool && t in s.threads && s.threads[t].Holding?
    requires forall u :: u in s.threads && u != t ==> u in s'.threads && s'.threads[u] == s.threads[u]
    requires s.threads[t].task.work.Cb? ==>
               exists c :: c in s'.cos && s'.cos[c] == NewCo(Some(s.threads[t].task.work.cb))
    ensures Moved(s, s')
  {
    forall call | InFlight(s, call)
      ensures InFlight(s', call)
    {
      if i: nat :| IsCb(s.pool, i, call) {
        assert IsCb(s'.pool, i, call);
      } else if u :| HoldsCb(s, u, call) {
        if u == t {
          var c :| c in s'.cos && s'.cos[c] == NewCo(Some(s.threads[t].task.work.cb));
          assert Checks(s', c, call);
        } else {
          assert HoldsCb(s', u, call);
        }
      } else {
        var c :| Checks(s, c, call);
        assert Checks(s', c, call);
      }
    }
  }

  /** Labels that are no part of a socket call, of its timeout or of a timer. */
  predicate Unrelated(l: Label) {
    !l.Begin? && !l.Attempt? && !l.Register? && !l.Wake? && !l.CheckTimeout? && !l.CancelTimeout? && !l.Expire?
  }

  lemma UnrelatedMoves(s: Sys, l: Label)
    requires Enabled(s, l) && Unrelated(l)
    ensures Moved(s, Apply(s, l))
  {
    hide LockFree, DoTake, DoDispatch, DoDeliver, DoAddCallback, DoDelete, DoCancel, DoCancelAll, DoSpawn, DoYield, DoFinish,
      DoDecide, DoCloseCheck, DoIdleCheck, Calm, Moved;
    var s' := Apply(s, l);
    match l {
      case Take(t) => TakeMoves(s, t);
      case Dispatch(t, id) => DispatchMoves(s, t, id);
      case DeliverNext(t, up) => DeliverCalm(s, t, up); CalmMoves(s, s');
      case AddCallback(t, slot, func, up) => AddCallbackCalm(s, t, slot, func, up); CalmMoves(s, s');
      case Delete(t, slot, up) => DeleteCalm(s, slot, up); CalmMoves(s, s');
      case Cancel(t, slot, up) => CancelCalm(s, slot, up); CalmMoves(s, s');
      case CancelAll(t, fd, up) => CancelAllCalm(s, fd, up); CalmMoves(s, s');
      case Spawn(actor, func, pin, force, id) => SpawnCalm(s, func, pin, force, id); CalmMoves(s, s');
      case Finish(t) => LeaveCalm(s, t); CalmMoves(s, s');
      case YieldCo(t) => LeaveCalm(s, t); CalmMoves(s, s');
      case _ => IdlingCalm(s, l); CalmMoves(s, s');
    }
  }

  lemma SameCallsSpent(s: Sys, s': Sys, call: nat)
    requires SameCalls(s, s')
    ensures TimeoutSpent(s, call) <==> TimeoutSpent(s', call)
  {
    if TimeoutSpent(s', call) {
      forall c | c in s.cos
        ensures s.cos[c].phase != Cancelling(call)
      {
        assert s'.cos[c].phase != Cancelling(call);
      }
    }
  }

  // ---------------------------------------------------------------- the steps of a socket call

  predicate RegisterAborts(s: Sys, t: nat, up: bool)
    requires InCall(s, t)
  {
    var slot := s.calls[PhaseOn(s, t).call].slot;
    |s.io.fds| < INITIAL_FDS || AddAborts(s.io, slot.fd, slot.event, up)
  }

  predicate RegisterSucceeds(s: Sys, t: nat, up: bool)
    requires InCall(s, t)
  {
    var slot := s.calls[PhaseOn(s, t).call].slot;
    !RegisterAborts(s, t, up) && AddEvent(s.io, slot.fd, slot.event, None, s.threads[t].co, t, up).1
  }

  predicate OfCall(l: Label) {
    l.Attempt? || l.Register? || l.Wake? || l.CheckTimeout?
  }

  /** What a step of a call leaves of its coroutine. */
  function CallRec(s: Sys, l: Label): CoRec
    requires OfCall(l) && InCall(s, l.tid)
  {
    var rec, k := s.cos[s.threads[l.tid].co], PhaseOn(s, l.tid).call;
    match l
    case Attempt(t, again) => rec.(phase := if again then Arming(k) else Plain)
    case Register(t, up) =>
      if RegisterSucceeds(s, t, up) then rec.(loc := AtSlot(s.calls[k].slot), phase := Waiting(k)) else rec.(phase := Plain)
    case Wake(t, retry) => rec.(phase := if s.calls[k].canceled || !retry then Plain else Trying(k))
    case CheckTimeout(t) => rec.(phase := if !s.calls[k].alive || s.calls[k].canceled then Plain else Cancelling(k))
  }

  /** And of the call itself. */
  function CallAfter(s: Sys, l: Label): Call
    requires OfCall(l) && InCall(s, l.tid)
  {
    var call := s.calls[PhaseOn(s, l.tid).call];
    match l
    case Attempt(t, again) =>
      if !again then call.(alive := false) else if call.timed then call.(timer := Some(s.nextTimer)) else call
    case Register(t, up) => if RegisterSucceeds(s, t, up) then call else call.(alive := false)
    case Wake(t, retry) => if call.canceled || !retry then call.(alive := false) else call
    case CheckTimeout(t) => if !call.alive || call.canceled then call else call.(canceled := true)
  }

  /** And of the timers. */
  function TimersAfter(s: Sys, l: Label): map<nat, nat>
    requires OfCall(l) && InCall(s, l.tid)
  {
    var k := PhaseOn(s, l.tid).call;
    match l
    case Attempt(t, again) => if again && s.calls[k].timed then s.timers[s.nextTimer := k] else s.timers
    case Register(t, up) => if RegisterSucceeds(s, t, up) then s.timers else Disarmed(s, k)
    case Wake(t, retry) => Disarmed(s, k)
    case CheckTimeout(t) => s.timers
  }

  /** One coroutine, one call and the timers: the rest of such a step is nobody else's business. */
  ghost predicate CallStepIs(s: Sys, l: Label, s': Sys)
    requires OfCall(l) && InCall(s, l.tid)
  {
    && s'.pool == s.pool && s'.threads == s.threads
    && s'.cos == s.cos[s.threads[l.tid].co := CallRec(s, l)]
    && s'.calls == s.calls[PhaseOn(s, l.tid).call := CallAfter(s, l)]
    && s'.timers == TimersAfter(s, l)
    && s'.nextTimer == (if l.Attempt? && l.again && s.calls[PhaseOn(s, l.tid).call].timed then s.nextTimer + 1 else s.nextTimer)
  }

  lemma AttemptIs(s: Sys, t: nat, again: bool)
    requires InCall(s, t) && PhaseOn(s, t).Trying?
    ensures CallStepIs(s, Attempt(t, again), DoAttempt(s, t, again))
  {
    hide AddEvent, AddAborts;
  }

  lemma WakeIs(s: Sys, t: nat, retry: bool)
    requires InCall(s, t) && PhaseOn(s, t).Parked?
    ensures CallStepIs(s, Wake(t, retry), DoWake(s, t, retry))
  {
    hide AddEvent, AddAborts, Disarmed;
  }

  lemma CheckIs(s: Sys, t: nat)
    requires InCall(s, t) && PhaseOn(s, t).Checking?
    ensures CallStepIs(s, CheckTimeout(t), DoCheckTimeout(s, t))
  {
    hide AddEvent, AddAborts;
  }

  lemma RegisterIs(s: Sys, t: nat, up: bool)
    requires InCall(s, t) && PhaseOn(s, t).Arming? && !RegisterAborts(s, t, up)
    ensures CallStepIs(s, Register(t, up), DoRegister(s, t, up))
  {
    hide AddEvent, AddAborts, Registered, Disarmed;
    var c, k := s.threads[t].co, PhaseOn(s, t).call;
    var slot := s.calls[k].slot;
    var r := AddEvent(s.io, slot.fd, slot.event, None, c, t, up);
    assert s.calls == s.calls[k := s.calls[k]];
    if r.1 {
      assert DoRegister(s, t, up) == SetCo(Enter(s, r.0, slot), c, s.cos[c].(loc := AtSlot(slot), phase := Waiting(k)));
    } else {
      assert DoRegister(s, t, up) ==
             SetPhase(s, t, Plain).(io := r.0, calls := Ended(s.calls, k), timers := Disarmed(s, k));
    }
  }

  lemma RegisterAbortIs(s: Sys, t: nat, up: bool)
    requires InCall(s, t) && PhaseOn(s, t).Arming? && RegisterAborts(s, t, up)
    ensures DoRegister(s, t, up) == Crash(s)
  {
    hide AddEvent, AddAborts;
  }

  /** Every step of a call that does not crash is of this form. */
  lemma CallStepsAre(s: Sys, l: Label)
    requires Enabled(s, l) && OfCall(l)
    ensures InCall(s, l.tid) && OwnPhase(l, PhaseOn(s, l.tid))
    ensures Apply(s, l) == Crash(s) || CallStepIs(s, l, Apply(s, l))
  {
    hide LockFree, DoAttempt, DoRegister, DoWake, DoCheckTimeout, CallStepIs, RegisterAborts;
    match l {
      case Attempt(t, again) => AttemptIs(s, t, again);
      case Register(t, up) => if RegisterAborts(s, t, up) { RegisterAbortIs(s, t, up); } else { RegisterIs(s, t, up); }
      case Wake(t, retry) => WakeIs(s, t, retry);
      case CheckTimeout(t) => CheckIs(s, t);
    }
  }

  predicate OwnPhase(l: Label, p: Phase) {
    && (l.Attempt? ==> p.Trying?) && (l.Register? ==> p.Arming?) && (l.Wake? ==> p.Parked?) && (l.CheckTimeout? ==> p.Checking?)
  }

  /** A call is marked by one callback at a time, which then is the only one to call cancelEvent. */
  ghost predicate MarksOk(s: Sys) {
    && (forall c :: c in s.cos && s.cos[c].phase.Cancelling? ==>
          s.cos[c].phase.call in s.calls && s.calls[s.cos[c].phase.call].canceled)
    && (forall c, d :: c in s.cos && d in s.cos && s.cos[c].phase.Cancelling? && s.cos[d].phase == s.cos[c].phase ==> c == d)
  }

  /** The step in which a callback of the call calls cancelEvent. */
  predicate Cancels(s: Sys, l: Label, call: nat) {
    l.CancelTimeout? && Runs(s, l.tid) && PhaseOn(s, l.tid) == Cancelling(call)
  }

  lemma CallStepSpent(s: Sys, l: Label, s': Sys, call: nat)
    requires call in s.calls && OfCall(l) && InCall(s, l.tid) && OwnPhase(l, PhaseOn(s, l.tid)) && CallStepIs(s, l, s')
    ensures TimeoutSpent(s, call) <==> TimeoutSpent(s', call)
  {
    hide AddEvent, AddAborts, RegisterSucceeds;
    var c, k := s.threads[l.tid].co, PhaseOn(s, l.tid).call;
    assert s'.cos[c] == CallRec(s, l);
    assert forall d :: d in s.cos && d != c ==> s'.cos[d] == s.cos[d];
    assert forall d :: d in s'.cos ==> d == c || d in s.cos;
    if l.CheckTimeout? && k == call && s.calls[k].alive && !s.calls[k].canceled {
      assert s'.cos[c].phase == Cancelling(call);
    }
  }

  lemma BeginSpent(s: Sys, t: nat, slot: Slot, timed: bool, k: nat, call: nat)
    requires call in s.calls && k !in s.calls && RunsPlain(s, t)
    ensures TimeoutSpent(s, call) <==> TimeoutSpent(DoBegin(s, t, slot, timed, k), call)
  {
    var s', c := DoBegin(s, t, slot, timed, k), s.threads[t].co;
    assert forall d :: d in s.cos && d != c ==> s'.cos[d] == s.cos[d];
    assert s'.cos.Keys == s.cos.Keys;
  }

  lemma CancelTimeoutSpent(s: Sys, t: nat, up: bool, call: nat)
    requires MarksOk(s) && call in s.calls && InCall(s, t) && PhaseOn(s, t).Cancelling?
    ensures TimeoutSpent(DoCancelTimeout(s, t, up), call) <==> TimeoutSpent(s, call) || PhaseOn(s, t) == Cancelling(call)
  {
    hide DoCancel, SameCalls;
    var s1, slot := SetPhase(s, t, Plain), s.calls[PhaseOn(s, t).call].slot;
    CancelCalm(s1, slot, up);
    CalmIsSameCalls(s1, DoCancel(s1, slot, up));
    SameCallsSpent(s1, DoCancel(s1, slot, up), call);
    var c := s.threads[t].co;
    assert s1.cos[c].phase == Plain && forall d :: d in s.cos && d != c ==> s1.cos[d] == s.cos[d];
    assert s1.cos.Keys == s.cos.Keys;
  }

  lemma CalmIsSameCalls(s: Sys, s': Sys)
    requires Calm(s, s')
    ensures SameCalls(s, s')
  {
  }

  lemma MovedIsSameCalls(s: Sys, s': Sys)
    requires Moved(s, s')
    ensures SameCalls(s, s')
  {
  }

  lemma CrashSpent(s: Sys, call: nat)
    ensures TimeoutSpent(Crash(s), call) <==> TimeoutSpent(s, call)
  {
  }

  lemma ExpireSpent(s: Sys, t: nat, ids: seq<nat>, call: nat)
    requires Enabled(s, Expire(t, ids))
    ensures TimeoutSpent(DoExpire(s, t, ids), call) <==> TimeoutSpent(s, call)
  {
    hide QueueAll, ExpiredWorks, LockFree;
  }

  /** A timeout is spent by its callback's cancelEvent and by nothing else, and stays spent: that call is
      never made again, so only readiness or somebody else's cancellation can wake the coroutine. */
  lemma SpentStep(s: Sys, l: Label, call: nat)
    requires MarksOk(s) && call in s.calls && Enabled(s, l)
    ensures TimeoutSpent(Apply(s, l), call) <==> TimeoutSpent(s, call) || Cancels(s, l, call)
    ensures TimeoutSpent(s, call) ==> !Cancels(s, l, call)
  {
    hide TimeoutSpent, MarksOk, CallStepIs, DoBegin, DoExpire, DoCancelTimeout, LockFree, Moved, SameCalls;
    var s' := Apply(s, l);
    CancelsUnspent(s, l, call);
    if OfCall(l) {
      CallStepsAre(s, l);
      CrashSpent(s, call);
      if CallStepIs(s, l, s') { CallStepSpent(s, l, s', call); }
    } else if l.CancelTimeout? {
      CancelTimeoutSpent(s, l.tid, l.up, call);
    } else if l.Begin? {
      BeginSpent(s, l.tid, l.slot, l.timed, l.call, call);
    } else if l.Expire? {
      ExpireSpent(s, l.tid, l.ids, call);
    } else {
      UnrelatedMoves(s, l);
      MovedIsSameCalls(s, s');
      SameCallsSpent(s, s', call);
    }
  }

  lemma CancelsUnspent(s: Sys, l: Label, call: nat)
    ensures Cancels(s, l, call) ==> !TimeoutSpent(s, call)
  {
    if Cancels(s, l, call) { assert s.cos[s.threads[l.tid].co].phase == Cancelling(call); }
  }

  /** Thread `t` is between addTimer and addEvent of a call, and thread `u` in the callback of its timer,
      which has (`marked`) or has not yet set `canceled`. */
  ghost predicate Racing(s: Sys, t: nat, u: nat, marked: bool) {
    && t != u && !s.crashed && InCall(s, t) && InCall(s, u) && PhaseOn(s, t).Arming?
    && var call := PhaseOn(s, t).call;
       && PhaseOn(s, u) == (if marked then Cancelling(call) else Checking(call))
       && s.calls[call].alive && s.calls[call].canceled == marked
       && !Registered(s.io, s.calls[call].slot.fd, s.calls[call].slot.event)
       && forall c :: c in s.cos && s.cos[c].phase.Cancelling? ==> marked && c == s.threads[u].co
  }

  lemma CheckInRace(s: Sys, t: nat, u: nat)
    requires Racing(s, t, u, false)
    ensures var s1 := DoCheckTimeout(s, u);
            Racing(s1, t, u, true) && PhaseOn(s1, t) == PhaseOn(s, t) && s1.threads == s.threads && s1.io == s.io
  {
    assert s.threads[t].co != s.threads[u].co;
  }

  lemma CancelInRace(s: Sys, t: nat, u: nat, up: bool)
    requires Racing(s, t, u, true)
    ensures var s2 := DoCancelTimeout(s, u, up);
            && InCall(s2, t) && PhaseOn(s2, t) == PhaseOn(s, t)
            && TimeoutSpent(s2, PhaseOn(s, t).call) && s2.io == s.io && !s2.crashed
  {
    hide Fire, Unmask;
    assert s.threads[t].co != s.threads[u].co;
  }

  /** The race exists: the timer runs out between addTimer and addEvent and its callback, on another
      thread, finishes before addEvent.  Then the call goes on to wait with its timeout spent. */
  lemma RaceSpendsTimeout(s: Sys, t: nat, u: nat, up: bool)
    requires LockFree(s) && Racing(s, t, u, false)
    ensures Enabled(s, CheckTimeout(u))
    ensures var s1 := Apply(s, CheckTimeout(u));
            Enabled(s1, CancelTimeout(u, up)) &&
            var s2 := Apply(s1, CancelTimeout(u, up));
            Enabled(s2, Register(t, true)) && TimeoutSpent(s2, PhaseOn(s, t).call) && s2.io == s.io
  {
    hide TimeoutSpent, DoCheckTimeout, DoCancelTimeout;
    CheckInRace(s, t, u);
    var s1 := DoCheckTimeout(s, u);
    assert LockFree(s1);
    CancelInRace(s1, t, u, up);
  }
}
