/** What each step of the event loop brings about, in terms of the state it starts from, and which threads
    can take one. */
module EventLoopEffects {
  import opened Wrappers
  import opened TaskPool
  import opened IoEvents
  import opened EventLoop
  import opened EventLoopInvariant
  import opened EventLoopTheorems
  import opened EventLoopTimeouts
  import opened EventLoopShutdown
  import opened EventLoopWaits

  // ---------------------------------------------------------------- the run loop

  /** The task at the first position the thread may take is in its hand and out of the pool, the others stay
      in order; without one the thread goes on to idle. */
  lemma TakeTakes(s: Sys, t: nat, i: nat)
    requires LoopInv(s) && Enabled(s, Take(t)) && i <= |s.pool|
    requires forall j :: 0 <= j < i ==> s.pool[j].threadId != 0 && s.pool[j].threadId != t
    requires i < |s.pool| ==> s.pool[i].threadId == 0 || s.pool[i].threadId == t
    ensures var s' := Apply(s, Take(t));
            if i == |s.pool| then s' == s.(threads := s.threads[t := NoTask])
            else
              var task := s.pool[i];
              && (task.work.Co? ==> task.work.co in s.cos)
              && s' == s.(pool := s.pool[..i] + s.pool[i + 1..], threads := s.threads[t := Holding(task)],
                          cos := if task.work.Co? then s.cos[task.work.co := s.cos[task.work.co].(loc := InHand(t))] else s.cos)
  {
    hide LiveOk, LogOk, SlotCosOk, ThreadCosOk, ThreadsOk, KernelOk, RecsOk;
    FirstEligibleIs(s.pool, t, i);
    if i < |s.pool| { PoolFact(s, i); }
  }

  /** A coroutine in hand is executed, whoever queued it; it belongs to the thread from then on. */
  lemma DispatchResumes(s: Sys, t: nat, id: nat, c: nat)
    requires LoopInv(s) && Enabled(s, Dispatch(t, id)) && s.threads[t].task.work == Co(c)
    ensures c in s.cos
    ensures Apply(s, Dispatch(t, id))
            == s.(threads := s.threads[t := Executing(c)], cos := s.cos[c := s.cos[c].(loc := Nowhere, on := t, home := t)])
  {
    hide LiveOk, LogOk, SlotCosOk, PoolOk, ThreadsOk, KernelOk, CallsOk;
    ResumeIsSafe(s, t, id, c);
  }

  /** A callback in hand becomes a new coroutine, queued with the callback's pin even after stop(); one of a
      timer starts with the test of its call. */
  lemma DispatchWraps(s: Sys, t: nat, id: nat, cb: Callback)
    requires Enabled(s, Dispatch(t, id)) && s.threads[t].task.work == Cb(cb)
    ensures var phase := match cb case TimeoutOf(call) => Checking(call) case UserFunc(_) => Plain;
            Apply(s, Dispatch(t, id))
            == s.(threads := s.threads[t := Scanning], pool := s.pool + [Task(Co(id), s.threads[t].task.threadId)],
                  cos := s.cos[id := CoRec(Queued, 0, 0, phase, false)])
  {
  }

  /** With nothing to take, the calling thread leaves once stopping() holds, else idles; a worker passes line
      164, and counts no longer as active, once nothing is queued, idle or registered after stop(), else looks
      again after stop(), else idles, and is counted idle. */
  lemma DecideGoes(s: Sys, t: nat)
    requires LoopInv(s) && Enabled(s, Decide(t))
    ensures var s', calm := Apply(s, Decide(t)), s.autoStop && s.pool == [] && s.live == map[];
            if t == s.caller && (t in s.idleDone || (calm && s.stopFlag && s.activeCnt == 0)) then
              s' == s.(threads := s.threads[t := Left])
            else if t != s.caller && calm && s.idleCnt == 0 then
              s.activeCnt > 0 && s' == s.(threads := s.threads[t := Closing], activeCnt := s.activeCnt - 1)
            else if t != s.caller && s.autoStop then s' == s.(threads := s.threads[t := Scanning])
            else s' == s.(threads := s.threads[t := IdleTop], idleCnt := s.idleCnt + 1)
  {
    hide LoopInv, LockFree;
    PendingIffLive(s);
    CountsOf(s, t);
  }

  /** The counters, as far as one thread is concerned. */
  lemma CountsOf(s: Sys, t: nat)
    requires LoopInv(s) && t in s.threads
    ensures t == s.caller || (t in s.workers && t !in s.idleDone)
    ensures t in s.workers ==> t != s.caller && (!Gone(s.threads[t]) ==> s.activeCnt > 0)
    ensures InIdle(s.threads[t]) ==> s.idleCnt > 0 && !EarlyClosure(s) && (t in s.workers ==> !Stopping(s))
  {
    hide LiveOk, LogOk, SlotCosOk, PoolOk, ThreadCosOk, ThreadsOk, KernelOk, CallsOk, Gone, InIdle;
    CountFact(s, t);
    if InIdle(s.threads[t]) { IdleWorkerStays(s, t); }
  }

  /** The second check of a closing worker: it leaves if still nothing is queued, idle or registered, or if
      stopping() holds; else it is caught in epoll_wait. */
  lemma CloseCheckGoes(s: Sys, t: nat)
    requires LoopInv(s) && Enabled(s, CloseCheck(t))
    ensures var calm := s.autoStop && s.pool == [] && s.live == map[];
            Apply(s, CloseCheck(t))
            == s.(threads := s.threads[t := if calm && (s.idleCnt == 0 || (s.stopFlag && s.activeCnt == 0)) then Left else Wedged])
  {
    hide LoopInv;
    PendingIffLive(s);
  }

  /** The idle coroutine ends, for good and counted idle no longer, exactly if stopping() holds; and that
      happens to the calling thread only.  Else epoll_wait reports what is ready. */
  lemma IdleCheckGoes(s: Sys, t: nat, ready: seq<Ready>)
    requires LoopInv(s) && Enabled(s, IdleCheck(t, ready))
    ensures var s' := Apply(s, IdleCheck(t, ready));
            if s.autoStop && s.stopFlag && s.pool == [] && s.live == map[] && s.activeCnt == 0 then
              t == s.caller && s.idleCnt > 0
              && s' == s.(threads := s.threads[t := Scanning], idleCnt := s.idleCnt - 1, idleDone := s.idleDone + {t})
            else s' == s.(threads := s.threads[t := EventLoop.Expiring(ready)])
  {
    hide LoopInv;
    PendingIffLive(s);
    CountsOf(s, t);
  }

  /** The callbacks of the expired timers are queued in order, for any thread, but not after stop(); the
      timers are gone either way. */
  lemma ExpireQueues(s: Sys, t: nat, ids: seq<nat>)
    requires Enabled(s, Expire(t, ids))
    ensures var s' := Apply(s, Expire(t, ids));
            && s' == s.(threads := s.threads[t := Delivering(s.threads[t].ready)], pool := s'.pool, timers := s'.timers)
            && (forall id :: id in s'.timers <==> id in s.timers && id !in ids)
            && (forall id :: id in s'.timers ==> s'.timers[id] == s.timers[id])
            && (s.autoStop ==> s'.pool == s.pool)
            && (!s.autoStop ==>
                  && s.pool <= s'.pool && |s'.pool| == |s.pool| + |ids|
                  && forall i :: 0 <= i < |ids| ==> s'.pool[|s.pool| + i] == Task(Cb(TimeoutOf(s.timers[ids[i]])), 0))
  {
    var works := ExpiredWorks(s, ids);
    QueueAllAppends(s.pool, s.autoStop, works, false);
    assert forall w :: w in works ==> w.Some?;
  }

  /** Back from idle to the run loop. */
  lemma IdleYieldGoes(s: Sys, t: nat)
    requires LoopInv(s) && Enabled(s, IdleYield(t))
    ensures s.idleCnt > 0
    ensures Apply(s, IdleYield(t)) == s.(threads := s.threads[t := Scanning], idleCnt := s.idleCnt - 1)
  {
    hide LoopInv;
    CountsOf(s, t);
  }

  // ---------------------------------------------------------------- registrations retired

  /** The registration on the slot ends: what was registered is queued, and a coroutine knows it. */
  ghost predicate Wakes(s: Sys, s': Sys, slot: Slot, how: How) {
    && slot in s.live && s.live[slot] < |s.regs|
    && var task := s.regs[s.live[slot]].task;
       && (task.work.Co? ==> task.work.co in s.cos)
       && s' == s.(io := s'.io, live := s.live - {slot}, log := s.log + [Retirement(s.live[slot], how, Some(task))],
                   pool := s.pool + [task],
                   cos := if task.work.Co? then s.cos[task.work.co := s.cos[task.work.co].(loc := Queued)] else s.cos)
  }

  /** READ before WRITE, each as far as wanted. */
  ghost predicate WakesBoth(s: Sys, s': Sys, fd: nat, how: How, read: bool, write: bool) {
    exists mid: Sys ::
      && (if read then Wakes(s, mid, Slot(fd, READ), how) else mid == s.(io := mid.io))
      && (if write then Wakes(mid, s', Slot(fd, WRITE), how) else s' == mid.(io := s'.io))
  }

  lemma FireWakes(s: Sys, slot: Slot, how: How)
    requires Coherent(s) && Registered(s.io, slot.fd, slot.event)
    ensures Wakes(s, Fire(s, slot, how), slot, how) && !Fire(s, slot, how).crashed
  {
    hide Fire, LogOk, SlotCosOk, PoolOk, ThreadCosOk, ThreadsOk, KernelOk, CallsOk, RecsOk, SlotRemoved, SlotsOk, CountOk;
    FireShape(s, slot, how);
    LiveFact(s, slot);
  }

  lemma FireBothWakes(s: Sys, fd: nat, how: How, wanted: set<Event>)
    requires Coherent(s) && fd < |s.io.fds| && how != ByDelete && wanted <= s.io.fds[fd].events
    ensures var s2 := FireIf(FireIf(s, Slot(fd, READ), how, READ in wanted), Slot(fd, WRITE), how, WRITE in wanted);
            WakesBoth(s, s2, fd, how, READ in wanted, WRITE in wanted) && !s2.crashed
  {
    hide Fire, LiveOk, LogOk, SlotCosOk, PoolOk, ThreadCosOk, ThreadsOk, KernelOk, CallsOk, RecsOk, SlotsOk, CountOk, Wakes;
    var mid := FireIf(s, Slot(fd, READ), how, READ in wanted);
    FireIfKeeps(s, Slot(fd, READ), how, READ in wanted);
    if READ in wanted { FireWakes(s, Slot(fd, READ), how); }
    if WRITE in wanted { FireWakes(mid, Slot(fd, WRITE), how); }
  }

  lemma SameHistory(s: Sys, s1: Sys, s2: Sys, slot: Slot, how: How)
    requires Wakes(s1, s2, slot, how) && s1 == s.(io := s1.io)
    ensures Wakes(s, s2, slot, how)
  {
  }

  lemma SameBoth(s: Sys, s1: Sys, s2: Sys, fd: nat, how: How, read: bool, write: bool)
    requires WakesBoth(s1, s2, fd, how, read, write) && s1 == s.(io := s1.io)
    ensures WakesBoth(s, s2, fd, how, read, write)
  {
    hide Wakes;
    var mid: Sys :|
      && (if read then Wakes(s1, mid, Slot(fd, READ), how) else mid == s1.(io := mid.io))
      && (if write then Wakes(mid, s2, Slot(fd, WRITE), how) else s2 == mid.(io := s2.io));
    if read { SameHistory(s, s1, mid, Slot(fd, READ), how); }
  }

  /** cancelEvent retires what is registered on the slot and nothing else, exactly if something is and the
      kernel agrees; the bookkeeping is that of class IoManager. */
  lemma CancelWakes(s: Sys, t: nat, slot: Slot, up: bool)
    requires LoopInv(s) && Enabled(s, Cancel(t, slot, up))
    ensures SlotsOk(s.io)
    ensures var s' := Apply(s, Cancel(t, slot, up));
            && s'.io == CancelEvent(s.io, slot.fd, slot.event, up).0
            && if up && slot in s.live then Wakes(s, s', slot, ByCancel) else s' == s
  {
    CancelIs(s, slot, up);
  }

  lemma CancelIs(s: Sys, slot: Slot, up: bool)
    requires LoopInv(s)
    ensures SlotsOk(s.io)
    ensures var s' := DoCancel(s, slot, up);
            && s'.io == CancelEvent(s.io, slot.fd, slot.event, up).0
            && if up && slot in s.live then Wakes(s, s', slot, ByCancel) else s' == s
  {
    hide Fire, LiveOk, LogOk, SlotCosOk, PoolOk, ThreadCosOk, ThreadsOk, KernelOk, CallsOk, RecsOk, SlotsOk, CountOk, Wakes, SlotRemoved;
    LiveIffRegistered(s, slot);
    if Registered(s.io, slot.fd, slot.event) && up {
      UnmaskFact(s.io, slot.fd, slot.event);
      var k := Unmask(s.io, slot.fd, slot.event, true).value;
      var s1 := WithKernel(s, k);
      KernelOnly(s, k);
      FireWakes(s1, slot, ByCancel);
      FireShape(s1, slot, ByCancel);
      SameHistory(s, s1, Fire(s1, slot, ByCancel), slot, ByCancel);
    }
  }

  lemma LiveIffRegistered(s: Sys, slot: Slot)
    requires LoopInv(s)
    ensures slot in s.live <==> Registered(s.io, slot.fd, slot.event)
    ensures SlotsOk(s.io)
  {
  }

  /** cancelAllEvent retires what is registered on the descriptor, READ before WRITE. */
  lemma CancelAllWakes(s: Sys, t: nat, fd: nat, up: bool)
    requires LoopInv(s) && Enabled(s, CancelAll(t, fd, up))
    ensures var s', read, write := Apply(s, CancelAll(t, fd, up)), Slot(fd, READ) in s.live, Slot(fd, WRITE) in s.live;
            if up && (read || write) then WakesBoth(s, s', fd, ByCancel, read, write) else s' == s
  {
    hide Fire, LiveOk, LogOk, SlotCosOk, PoolOk, ThreadCosOk, ThreadsOk, KernelOk, CallsOk, RecsOk, SlotsOk, CountOk, Wakes, WakesBoth;
    LiveIffRegistered(s, Slot(fd, READ));
    LiveIffRegistered(s, Slot(fd, WRITE));
    if fd < |s.io.fds| && s.io.fds[fd].events != {} && up {
      AnyEvent(s.io.fds[fd].events);
      DelIsLegal(s.io, fd);
      var s1 := WithKernel(s, s.io.kernel - {fd});
      KernelOnly(s, s.io.kernel - {fd});
      FireIfKeeps(s1, Slot(fd, READ), ByCancel, READ in s.io.fds[fd].events);
      FireBothWakes(s1, fd, ByCancel, s.io.fds[fd].events);
      SameBoth(s, s1, DoCancelAll(s, fd, up), fd, ByCancel, READ in s.io.fds[fd].events, WRITE in s.io.fds[fd].events);
    }
  }

  lemma AnyEvent(events: set<Event>)
    ensures events != {} <==> READ in events || WRITE in events
  {
    if events != {} {
      var e :| e in events;
      assert e == READ || e == WRITE;
    }
  }

  lemma DelIsLegal(io: Io, fd: nat)
    requires KernelOk(io) && fd < |io.fds| && io.fds[fd].events != {}
    ensures KernelCtl(io.kernel, DEL, fd, {}, true) == Some(io.kernel - {fd})
  {
  }

  /** Delivery takes the first entry off the report; if it meets what is registered there and the kernel
      agrees, it retires the ready events, READ before WRITE, or dies if one of them is not registered. */
  lemma DeliverWakes(s: Sys, t: nat, up: bool)
    requires LoopInv(s) && Enabled(s, DeliverNext(t, up))
    ensures var s', r := Apply(s, DeliverNext(t, up)), s.threads[t].ready[0];
            var s1 := s.(threads := s.threads[t := Delivering(s.threads[t].ready[1..])]);
            if !up || (forall e :: e in r.events ==> Slot(r.fd, e) !in s.live) then s' == s1
            else if forall e :: e in r.events ==> Slot(r.fd, e) in s.live then
              WakesBoth(s1, s', r.fd, ByDelivery, READ in r.events, WRITE in r.events)
            else s'.crashed
  {
    hide Fire, LiveOk, LogOk, SlotCosOk, PoolOk, ThreadCosOk, ThreadsOk, KernelOk, CallsOk, RecsOk, SlotsOk, CountOk, Wakes, WakesBoth;
    var r := s.threads[t].ready[0];
    var f := s.io.fds[r.fd];
    forall e
      ensures Slot(r.fd, e) in s.live <==> e in f.events
    {
      LiveIffRegistered(s, Slot(r.fd, e));
    }
    Meets(f.events, r.events);
    DeliverKeeps(s, t, up);
    if up && f.events * r.events != {} && r.events <= f.events {
      var s1 := Move(s, t, Delivering(s.threads[t].ready[1..]));
      DeliverMoves(s, t);
      MaskFact(s.io, r.fd, r.events);
      var left := f.events - r.events;
      var k := if left == {} then s.io.kernel - {r.fd} else s.io.kernel[r.fd := left];
      KernelOnly(s1, k);
      FireBothWakes(WithKernel(s1, k), r.fd, ByDelivery, r.events);
      SameBoth(s1, WithKernel(s1, k), DoDeliver(s, t, up), r.fd, ByDelivery, READ in r.events, WRITE in r.events);
    }
  }

  lemma Meets(events: set<Event>, ready: set<Event>)
    ensures events * ready == {} <==> forall e :: e in ready ==> e !in events
    ensures ready <= events <==> forall e :: e in ready ==> e in events
  {
    assert forall e :: e in events * ready <==> e in events && e in ready;
    if events * ready == {} {
      forall e | e in ready
        ensures e !in events
      {
        assert e !in events * ready;
      }
    }
  }

  /** delEvent ends the registration and queues nothing; a coroutine is left with nobody to wake it. */
  lemma DeleteForgets(s: Sys, t: nat, slot: Slot, up: bool)
    requires LoopInv(s) && Enabled(s, Delete(t, slot, up))
    ensures var s' := Apply(s, Delete(t, slot, up));
            && s'.io == DelEvent(s.io, slot.fd, slot.event, up).0
            && if up && slot in s.live then
                 && s.live[slot] < |s.regs|
                 && var work := s.regs[s.live[slot]].task.work;
                    && (work.Co? ==> work.co in s.cos)
                    && s' == s.(io := s'.io, live := s.live - {slot}, log := s.log + [Retirement(s.live[slot], ByDelete, None)],
                                cos := if work.Co? then s.cos[work.co := s.cos[work.co].(loc := Nowhere)] else s.cos)
               else s' == s
  {
    hide LogOk, SlotCosOk, PoolOk, ThreadCosOk, ThreadsOk, CallsOk, RecsOk, CountOk, SlotRemoved;
    LiveIffRegistered(s, slot);
    IoInv(s);
    DelEventKeepsInv(s.io, slot.fd, slot.event, up);
    hide LiveOk, Inv, KernelOk;
    if slot in s.live {
      LiveFact(s, slot);
      if up { DeleteShape(s, slot); }
    }
  }

  // ---------------------------------------------------------------- registrations made

  /** The thread number a callback's registration gets: what the slot was left with. */
  function LeftThread(io: Io, slot: Slot): nat {
    if slot.fd < |io.fds| then io.fds[slot.fd].Ctx(slot.event).threadId else 0
  }

  /** addEvent with a callback registers it on a free slot if the kernel agrees. */
  lemma AddCallbackRegisters(s: Sys, t: nat, slot: Slot, func: nat, up: bool)
    requires LoopInv(s) && Enabled(s, AddCallback(t, slot, func, up))
    ensures var s' := Apply(s, AddCallback(t, slot, func, up));
            if up && slot !in s.live then
              s' == s.(io := s'.io, live := s.live[slot := |s.regs|],
                       regs := s.regs + [Reg(slot, Task(Cb(UserFunc(func)), LeftThread(s.io, slot)))])
            else s' == s.(io := s'.io)
  {
    hide LoopInv, AddEvent, AddAborts, Inv;
    LiveIffRegistered(s, slot);
    IoInv(s);
    AddEventKeepsInv(s.io, slot.fd, slot.event, Some(UserFunc(func)), s.threads[t].co, t, up);
    AddNeverAborts(s.io, slot.fd, slot.event, up);
    if up && slot !in s.live { AddedTask(s.io, slot, Some(UserFunc(func)), s.threads[t].co, t); }
  }

  /** What a successful addEvent leaves in the context. */
  lemma AddedTask(io: Io, slot: Slot, cb: Option<Callback>, co: nat, t: nat)
    requires Inv(io) && !Registered(io, slot.fd, slot.event)
    ensures var (io', ok) := AddEvent(io, slot.fd, slot.event, cb, co, t, true);
            && ok && slot.fd < |io'.fds|
            && var ctx := io'.fds[slot.fd].Ctx(slot.event);
               && ctx.Occupied()
               && ctx.Continuation() == if cb.Some? then Task(Cb(cb.value), LeftThread(io, slot)) else Task(Co(co), t)
  {
    AddEventKeepsInv(io, slot.fd, slot.event, cb, co, t, true);
    GrowKeepsInv(io, slot.fd);
  }

  /** addEvent in a call registers the caller, pinned to its thread, on a free slot if the kernel agrees; else
      the call is over and its timer gone. */
  lemma RegisterRegisters(s: Sys, t: nat, up: bool)
    requires LoopInv(s) && Enabled(s, Register(t, up))
    ensures var s', c := Apply(s, Register(t, up)), s.threads[t].co;
            var k := s.cos[c].phase.call;
            var call := s.calls[k];
            if up && call.slot !in s.live then
              s' == s.(io := s'.io, live := s.live[call.slot := |s.regs|], regs := s.regs + [Reg(call.slot, Task(Co(c), t))],
                       cos := s.cos[c := s.cos[c].(loc := AtSlot(call.slot), phase := Waiting(k))])
            else
              s' == s.(io := s'.io, cos := s.cos[c := s.cos[c].(phase := Plain)], calls := s.calls[k := call.(alive := false)],
                       timers := if call.timer.Some? then s.timers - {call.timer.value} else s.timers)
  {
    hide LoopInv, AddEvent, AddAborts, Inv;
    var slot := s.calls[PhaseOn(s, t).call].slot;
    LiveIffRegistered(s, slot);
    IoInv(s);
    AddEventKeepsInv(s.io, slot.fd, slot.event, None, s.threads[t].co, t, up);
    AddNeverAborts(s.io, slot.fd, slot.event, up);
    if up && slot !in s.live { AddedTask(s.io, slot, None, s.threads[t].co, t); }
  }

  // ---------------------------------------------------------------- the other steps of a coroutine

  /** A socket call begins. */
  lemma BeginCalls(s: Sys, t: nat, slot: Slot, timed: bool, call: nat)
    requires Enabled(s, Begin(t, slot, timed, call))
    ensures var c := s.threads[t].co;
            Apply(s, Begin(t, slot, timed, call))
            == s.(cos := s.cos[c := s.cos[c].(phase := Trying(call))], calls := s.calls[call := Call(slot, timed, None, false, true)])
  {
  }

  /** On EAGAIN the call's timer, if it has one, is armed under the next number; without it the call is over. */
  lemma AttemptArms(s: Sys, t: nat, again: bool)
    requires Enabled(s, Attempt(t, again))
    ensures var s', c := Apply(s, Attempt(t, again)), s.threads[t].co;
            var k := s.cos[c].phase.call;
            if !again then s' == s.(cos := s.cos[c := s.cos[c].(phase := Plain)], calls := s.calls[k := s.calls[k].(alive := false)])
            else if !s.calls[k].timed then s' == s.(cos := s.cos[c := s.cos[c].(phase := Arming(k))])
            else s' == s.(cos := s.cos[c := s.cos[c].(phase := Arming(k))], timers := s.timers[s.nextTimer := k],
                          calls := s.calls[k := s.calls[k].(timer := Some(s.nextTimer))], nextTimer := s.nextTimer + 1)
  {
  }

  /** Yielding leaves the thread free and the coroutine where it is registered or queued. */
  lemma YieldParks(s: Sys, t: nat)
    requires Enabled(s, YieldCo(t))
    ensures var c := s.threads[t].co;
            Apply(s, YieldCo(t))
            == s.(threads := s.threads[t := Scanning], cos := s.cos[c := s.cos[c].(on := 0, phase := Parked(s.cos[c].phase.call))])
  {
  }

  /** Waking up disarms the timer; the call ends if it was marked or is not tried again. */
  lemma WakeDisarms(s: Sys, t: nat, retry: bool)
    requires Enabled(s, Wake(t, retry))
    ensures var s', c := Apply(s, Wake(t, retry)), s.threads[t].co;
            var k := s.cos[c].phase.call;
            var timers := if s.calls[k].timer.Some? then s.timers - {s.calls[k].timer.value} else s.timers;
            if retry && !s.calls[k].canceled then s' == s.(cos := s.cos[c := s.cos[c].(phase := Trying(k))], timers := timers)
            else s' == s.(cos := s.cos[c := s.cos[c].(phase := Plain)], calls := s.calls[k := s.calls[k].(alive := false)], timers := timers)
  {
  }

  /** A timeout callback marks a call that is alive and unmarked. */
  lemma CheckMarks(s: Sys, t: nat)
    requires Enabled(s, CheckTimeout(t))
    ensures var s', c := Apply(s, CheckTimeout(t)), s.threads[t].co;
            var k := s.cos[c].phase.call;
            if s.calls[k].alive && !s.calls[k].canceled then
              s' == s.(cos := s.cos[c := s.cos[c].(phase := Cancelling(k))], calls := s.calls[k := s.calls[k].(canceled := true)])
            else s' == s.(cos := s.cos[c := s.cos[c].(phase := Plain)])
  {
  }

  /** And then cancels the event on its slot. */
  lemma CancelTimeoutWakes(s: Sys, t: nat, up: bool)
    requires LoopInv(s) && InCall(s, t) && PhaseOn(s, t).Cancelling? && Enabled(s, CancelTimeout(t, up))
    ensures var s', slot := Apply(s, CancelTimeout(t, up)), s.calls[PhaseOn(s, t).call].slot;
            var s1 := s.(cos := s.cos[s.threads[t].co := s.cos[s.threads[t].co].(phase := Plain)]);
            if up && slot in s.live then Wakes(s1, s', slot, ByCancel) else s' == s1
  {
    hide LoopInv, Wakes, DoCancel, SlotsOk;
    PlainAgain(s, t);
    CancelIs(SetPhase(s, t, Plain), s.calls[PhaseOn(s, t).call].slot, up);
  }

  /** A coroutine that ends is done and on no thread. */
  lemma FinishEnds(s: Sys, t: nat)
    requires Enabled(s, Finish(t))
    ensures var c := s.threads[t].co;
            Apply(s, Finish(t)) == s.(threads := s.threads[t := Scanning], cos := s.cos[c := s.cos[c].(on := 0, done := true)])
  {
  }

  /** schedule() queues its task with its pin, but not after stop() unless forced. */
  lemma SpawnQueues(s: Sys, actor: Option<nat>, func: Option<nat>, pin: nat, force: bool, id: nat)
    requires Enabled(s, Spawn(actor, func, pin, force, id))
    ensures var s' := Apply(s, Spawn(actor, func, pin, force, id));
            if s.autoStop && !force then s' == s
            else match func
              case Some(f) => s' == s.(pool := s.pool + [Task(Cb(UserFunc(f)), pin)])
              case None => s' == s.(pool := s.pool + [Task(Co(id), pin)], cos := s.cos[id := CoRec(Queued, 0, 0, Plain, false)])
  {
    hide LockFree;
  }

  /** stop() sets its flags one after the other. */
  lemma StopSets(s: Sys)
    ensures Enabled(s, SetAutoStop) ==> Apply(s, SetAutoStop) == s.(autoStop := true)
    ensures Enabled(s, SetStopping) ==> s.autoStop && Apply(s, SetStopping) == s.(stopFlag := true)
  {
  }

  // ---------------------------------------------------------------- who can go on

  /** The thread's next section takes m_mutex. */
  predicate NeedsLock(s: Sys, t: nat) {
    t in s.threads &&
    match s.threads[t]
    case Scanning => true
    case NoTask => true
    case Holding(task) => task.work.Cb?
    case Expiring(_) => true
    case Delivering(ready) => ready != []
    case Executing(c) => c in s.cos && s.cos[c].phase.Cancelling?
    case _ => false
  }

  /** Exactly when a thread can go on: it has neither left nor been caught in epoll_wait, and m_mutex is
      free if its next section takes it.  So nothing but that lock ever blocks a thread. */
  lemma CanStepIff(s: Sys, t: nat)
    requires LoopInv(s) && t in s.threads
    ensures (exists l :: Actor(l) == Some(t) && Enabled(s, l))
            <==> s.threads[t] != Left && s.threads[t] != Wedged && (NeedsLock(s, t) ==> LockFree(s))
  {
    hide LoopInv, LockFree, NeedsLock, Enabled, Actor;
    if s.threads[t] != Left && s.threads[t] != Wedged && (NeedsLock(s, t) ==> LockFree(s)) {
      var l := SomeStep(s, t);
    }
    forall l | Actor(l) == Some(t) && Enabled(s, l)
      ensures s.threads[t] != Left && s.threads[t] != Wedged && (NeedsLock(s, t) ==> LockFree(s))
    {
      StepNeeds(s, l, t);
    }
  }

  lemma StepNeeds(s: Sys, l: Label, t: nat)
    requires Enabled(s, l) && Actor(l) == Some(t) && t in s.threads
    ensures s.threads[t] != Left && s.threads[t] != Wedged && (NeedsLock(s, t) ==> LockFree(s))
  {
    hide LockFree, AddAborts;
  }

  lemma SomeStep(s: Sys, t: nat) returns (l: Label)
    requires LoopInv(s) && t in s.threads
    requires s.threads[t] != Left && s.threads[t] != Wedged && (NeedsLock(s, t) ==> LockFree(s))
    ensures Actor(l) == Some(t) && Enabled(s, l)
  {
    hide LiveOk, LogOk, SlotCosOk, PoolOk, ThreadsOk, KernelOk, LockFree;
    match s.threads[t] {
      case Scanning => l := Take(t);
      case NoTask => l := Decide(t);
      case Holding(task) =>
        var id := Unused(s.cos.Keys);
        l := Dispatch(t, id);
      case Executing(c) => l := NextOf(s, t, c);
      case IdleTop => l := IdleCheck(t, []);
      case Expiring(_) => l := Expire(t, []);
      case Delivering(ready) =>
        ReadyFact(s, t);
        l := if ready == [] then IdleYield(t) else DeliverNext(t, true);
      case Closing => l := CloseCheck(t);
    }
  }

  lemma NextOf(s: Sys, t: nat, c: nat) returns (l: Label)
    requires LoopInv(s) && t in s.threads && s.threads[t] == Executing(c) && (NeedsLock(s, t) ==> LockFree(s))
    ensures Actor(l) == Some(t) && Enabled(s, l)
  {
    hide LoopInv, LockFree;
    NotCrashed(s);
    ExecutesKnown(s, t);
    match s.cos[c].phase {
      case Plain => l := Finish(t);
      case Trying(_) => l := Attempt(t, false);
      case Arming(_) => l := Register(t, true);
      case Waiting(_) => l := YieldCo(t);
      case Parked(_) => l := Wake(t, false);
      case Checking(_) => l := CheckTimeout(t);
      case Cancelling(_) => l := CancelTimeout(t, true);
    }
  }
}
