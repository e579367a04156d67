/** The whole event loop as a transition system: threads in Scheduler::run and IOManager::idle,
    coroutines in doSocketIo, timeout callbacks, the shared task pool and stop().

    One label is one lock-protected section (or one stretch of code no other thread can observe).  What
    the kernel reports, which timers have expired, the results of system calls and the interleaving are
    chosen by the labels.  `crashed` is a failed assertion or a null dereference in the source. */
module EventLoop {
  import opened Wrappers
  import opened TaskPool
  import opened IoEvents

  // ---------------------------------------------------------------- state

  /** Where the one reference that can wake a coroutine is. */
  datatype Loc = Nowhere | AtSlot(slot: Slot) | Queued | InHand(tid: nat)

  /** How far a coroutine is: in doSocketIo (Trying .. Parked), in a timeout callback, or elsewhere. */
  datatype Phase =
    | Plain
    | Trying(call: nat)     // about to issue the system call
    | Arming(call: nat)     // EAGAIN seen, the timer (if any) armed, addEvent next
    | Waiting(call: nat)    // addEvent succeeded, Yield next
    | Parked(call: nat)     // yielded, or just resumed from there
    | Checking(call: nat)   // timeout callback: about to test and set `canceled`
    | Cancelling(call: nat) // timeout callback: about to call cancelEvent

  /** `on` is the thread executing it (0: none), `home` the thread that first resumed it (0: none yet). */
  datatype CoRec = CoRec(loc: Loc, on: nat, home: nat, phase: Phase, done: bool)

  datatype Ready = Ready(fd: nat, events: set<Event>)

  datatype Pc =
    | Scanning
    | NoTask
    | Holding(task: Task)
    | Executing(co: nat)
    | IdleTop
    | Expiring(ready: seq<Ready>)
    | Delivering(ready: seq<Ready>)
    | Closing  // past line 164, m_mutex still held
    | Wedged   // back in epoll_wait with m_mutex held
    | Left

  /** The state one doSocketIo call shares with its timeout callbacks. */
  datatype Call = Call(slot: Slot, timed: bool, timer: Option<nat>, canceled: bool, alive: bool)

  datatype How = ByDelivery | ByCancel | ByDelete

  /** History: registration number `i` is regs[i]; the log says how each ended and what was queued. */
  datatype Reg = Reg(slot: Slot, task: Task)
  datatype Retirement = Retirement(reg: nat, how: How, queued: Option<Task>)

  datatype Sys = Sys(
    io: Io, pool: Pool,
    autoStop: bool, stopFlag: bool, idleCnt: nat, activeCnt: nat,
    threads: map<nat, Pc>, workers: set<nat>, caller: nat, idleDone: set<nat>,
    cos: map<nat, CoRec>, calls: map<nat, Call>, timers: map<nat, nat>, nextTimer: nat,
    regs: seq<Reg>, live: map<Slot, nat>, log: seq<Retirement>,
    crashed: bool)

  // ---------------------------------------------------------------- steps

  datatype Label =
    | Take(tid: nat)
    | Dispatch(tid: nat, id: nat)
    | Decide(tid: nat)
    | CloseCheck(tid: nat)
    | IdleCheck(tid: nat, ready: seq<Ready>)
    | Expire(tid: nat, ids: seq<nat>)
    | DeliverNext(tid: nat, up: bool)
    | IdleYield(tid: nat)
    | Begin(tid: nat, slot: Slot, timed: bool, call: nat)
    | Attempt(tid: nat, again: bool)
    | Register(tid: nat, up: bool)
    | YieldCo(tid: nat)
    | Wake(tid: nat, retry: bool)
    | AddCallback(tid: nat, slot: Slot, func: nat, up: bool)
    | Delete(tid: nat, slot: Slot, up: bool)
    | Cancel(tid: nat, slot: Slot, up: bool)
    | CancelAll(tid: nat, fd: nat, up: bool)
    | CheckTimeout(tid: nat)
    | CancelTimeout(tid: nat, up: bool)
    | Finish(tid: nat)
    | Spawn(actor: Option<nat>, callback: Option<nat>, pin: nat, force: bool, id: nat)
    | SetAutoStop
    | SetStopping

  predicate Stopping(s: Sys) {
    s.autoStop && s.stopFlag && s.pool == [] && s.activeCnt == 0 && s.io.pending == 0
  }

  predicate EarlyClosure(s: Sys) {
    s.autoStop && s.pool == [] && s.idleCnt == 0 && s.io.pending == 0
  }

  predicate HoldsLock(pc: Pc) {
    pc.Closing? || pc.Wedged?
  }

  predicate LockFree(s: Sys) {
    forall t :: t in s.threads ==> !HoldsLock(s.threads[t])
  }

  predicate At(s: Sys, t: nat, pc: Pc) {
    t in s.threads && s.threads[t] == pc
  }

  predicate Runs(s: Sys, t: nat) {
    t in s.threads && s.threads[t].Executing? && s.threads[t].co in s.cos
  }

  function PhaseOn(s: Sys, t: nat): Phase
    requires Runs(s, t)
  {
    s.cos[s.threads[t].co].phase
  }

  predicate RunsPlain(s: Sys, t: nat) {
    Runs(s, t) && PhaseOn(s, t) == Plain
  }

  predicate InCall(s: Sys, t: nat) {
    Runs(s, t) && !PhaseOn(s, t).Plain? && PhaseOn(s, t).call in s.calls
  }

  predicate NoDup(ids: seq<nat>) {
    forall i, j :: 0 <= i < j < |ids| ==> ids[i] != ids[j]
  }

  predicate Enabled(s: Sys, l: Label) {
    !s.crashed &&
    match l
    case Take(t) => At(s, t, Scanning) && LockFree(s)
    case Dispatch(t, id) => t in s.threads && s.threads[t].Holding? &&
                               (s.threads[t].task.work.Cb? ==> id !in s.cos && LockFree(s))
    case Decide(t) => At(s, t, NoTask) && LockFree(s)
    case CloseCheck(t) => At(s, t, Closing)
    case IdleCheck(t, ready) => At(s, t, IdleTop) && forall r :: r in ready ==> r.fd < |s.io.fds|
    case Expire(t, ids) => t in s.threads && s.threads[t].Expiring? && LockFree(s) &&
                           NoDup(ids) && forall id :: id in ids ==> id in s.timers
    case DeliverNext(t, up) => t in s.threads && s.threads[t].Delivering? && s.threads[t].ready != [] &&
                               s.threads[t].ready[0].fd < |s.io.fds| && LockFree(s)
    case IdleYield(t) => At(s, t, Delivering([]))
    case Begin(t, slot, timed, call) => RunsPlain(s, t) && call !in s.calls
    case Attempt(t, again) => InCall(s, t) && PhaseOn(s, t).Trying?
    case Register(t, up) => InCall(s, t) && PhaseOn(s, t).Arming?
    case YieldCo(t) => Runs(s, t) && PhaseOn(s, t).Waiting?
    case Wake(t, retry) => InCall(s, t) && PhaseOn(s, t).Parked?
    case AddCallback(t, slot, func, up) => RunsPlain(s, t)
    case Delete(t, slot, up) => RunsPlain(s, t)
    case Cancel(t, slot, up) => RunsPlain(s, t) && LockFree(s)
    case CancelAll(t, fd, up) => RunsPlain(s, t) && LockFree(s)
    case CheckTimeout(t) => InCall(s, t) && PhaseOn(s, t).Checking?
    case CancelTimeout(t, up) => InCall(s, t) && PhaseOn(s, t).Cancelling? && LockFree(s)
    case Finish(t) => RunsPlain(s, t)
    case Spawn(actor, func, pin, force, id) => (actor.Some? ==> RunsPlain(s, actor.value)) && id !in s.cos && LockFree(s)
    case SetAutoStop => true
    case SetStopping => s.autoStop
  }

  function Crash(s: Sys): Sys {
    s.(crashed := true)
  }

  function Move(s: Sys, t: nat, pc: Pc): Sys {
    s.(threads := s.threads[t := pc])
  }

  function SetCo(s: Sys, c: nat, rec: CoRec): Sys {
    s.(cos := s.cos[c := rec])
  }

  function SetPhase(s: Sys, t: nat, phase: Phase): Sys
    requires Runs(s, t)
  {
    var c := s.threads[t].co;
    SetCo(s, c, s.cos[c].(phase := phase))
  }

  /** triggerEvent on one slot: crashes on its assertion, else hands the continuation to the pool. */
  function Fire(s: Sys, slot: Slot, how: How): Sys {
    if !Registered(s.io, slot.fd, slot.event) then Crash(s)
    else
      var ctx := s.io.fds[slot.fd].Ctx(slot.event);
      if !ctx.Occupied() || slot !in s.live || (ctx.co.Some? && ctx.co.value !in s.cos) then Crash(s)
      else
        var (io', task) := Trigger(s.io, slot.fd, slot.event);
        s.(io := io',
        pool := Queue(s.pool, s.autoStop, Some(task.work), task.threadId, true),
        live := s.live - {slot},
        log := s.log + [Retirement(s.live[slot], how, Some(task))],
        cos := if task.work.Co? then s.cos[task.work.co := s.cos[task.work.co].(loc := Queued)] else s.cos)
  }

  function FireIf(s: Sys, slot: Slot, how: How, wanted: bool): Sys {
    if wanted && !s.crashed then Fire(s, slot, how) else s
  }

  function WithKernel(s: Sys, kernel: map<nat, set<Event>>): Sys {
    s.(io := s.io.(kernel := kernel))
  }

  function DoTake(s: Sys, t: nat): (r: Sys)
    ensures r.regs == s.regs && r.log == s.log
  {
    var i := FirstEligible(s.pool, t);
    if i == |s.pool| then Move(s, t, NoTask)
    else
      var task := s.pool[i];
      var s1 := Move(s, t, Holding(task)).(pool := Without(s.pool, i));
      if task.work.Cb? then s1
      else if task.work.co !in s.cos then Crash(s)
      else SetCo(s1, task.work.co, s.cos[task.work.co].(loc := InHand(t)))
  }

  /** Lines 121-141 of scheduler.cpp: resume a coroutine (a finished one is dropped), or wrap a callback in one. */
  function DoDispatch(s: Sys, t: nat, id: nat): (r: Sys)
    requires t in s.threads && s.threads[t].Holding?
    ensures r.regs == s.regs && r.log == s.log
  {
    var task := s.threads[t].task;
    match task.work
    case Co(c) =>
      if c !in s.cos then Crash(s)
      else if s.cos[c].done then Move(SetCo(s, c, s.cos[c].(loc := Nowhere)), t, Scanning)
      else
        var rec := s.cos[c];
        Move(SetCo(s, c, rec.(loc := Nowhere, on := t, home := if rec.home == 0 then t else rec.home)), t, Executing(c))
    case Cb(cb) =>
      var s1 := SetCo(s, id, NewCo(Some(cb)));
      Move(s1, t, Scanning).(pool := Queue(s.pool, s.autoStop, Some(Co(id)), task.threadId, true))
  }

  function NewCo(cb: Option<Callback>): CoRec {
    CoRec(Queued, 0, 0, if cb.Some? && cb.value.TimeoutOf? then Checking(cb.value.call) else Plain, false)
  }

  /** Lines 142-178 of scheduler.cpp: where a thread with nothing to run goes. */
  function DecidePc(s: Sys, t: nat): (pc: Pc)
    ensures pc.Left? || pc.IdleTop? || pc.Closing? || pc.Scanning?
  {
    if t in s.idleDone then Left
    else if t == s.caller then if Stopping(s) then Left else IdleTop
    else if EarlyClosure(s) then Closing
    else if s.autoStop then Scanning
    else IdleTop
  }

  /** Entering idle is counted, and so is passing line 164. */
  function DoDecide(s: Sys, t: nat): (r: Sys)
    ensures r.regs == s.regs && r.log == s.log
  {
    var pc := DecidePc(s, t);
    Move(s, t, pc).(idleCnt := if pc == IdleTop then s.idleCnt + 1 else s.idleCnt,
    activeCnt := if pc == Closing then Decrement(s.activeCnt) else s.activeCnt)
  }

  /** Lines 255-257 of iomanager.cpp, seen from line 165 of scheduler.cpp. */
  function DoCloseCheck(s: Sys, t: nat): (r: Sys)
    ensures r.regs == s.regs && r.log == s.log
  {
    Move(s, t, if Stopping(s) || EarlyClosure(s) then Left else Wedged)
  }

  predicate IdleEnds(s: Sys, t: nat) {
    Stopping(s) || (t != s.caller && EarlyClosure(s))
  }

  /** The head of idle's loop: the idle coroutine ends, or epoll_wait is called and reports `ready`. */
  function DoIdleCheck(s: Sys, t: nat, ready: seq<Ready>): (r: Sys)
    ensures r.regs == s.regs && r.log == s.log
  {
    var ends := IdleEnds(s, t);
    Move(s, t, if ends then Scanning else Expiring(ready)).(
    idleCnt := if ends then Decrement(s.idleCnt) else s.idleCnt,
    idleDone := if ends then s.idleDone + {t} else s.idleDone)
  }

  function ExpiredWorks(s: Sys, ids: seq<nat>): (works: seq<Option<Work>>)
    requires forall id :: id in ids ==> id in s.timers
    ensures |works| == |ids|
    ensures forall i :: 0 <= i < |ids| ==> works[i] == Some(Cb(TimeoutOf(s.timers[ids[i]])))
  {
    seq(|ids|, i requires 0 <= i < |ids| => Some(Cb(TimeoutOf(s.timers[ids[i]]))))
  }

  /** Lines 267-269 of iomanager.cpp. */
  function DoExpire(s: Sys, t: nat, ids: seq<nat>): (r: Sys)
    requires t in s.threads && s.threads[t].Expiring?
    requires forall id :: id in ids ==> id in s.timers
    ensures r.regs == s.regs && r.log == s.log
  {
    Move(s, t, Delivering(s.threads[t].ready)).(
    pool := QueueAll(s.pool, s.autoStop, ExpiredWorks(s, ids), false),
    timers := map id | id in s.timers && id !in ids :: s.timers[id])
  }

  /** Lines 271-316 of iomanager.cpp for the first entry left. */
  function DoDeliver(s: Sys, t: nat, up: bool): Sys
    requires t in s.threads && s.threads[t].Delivering? && s.threads[t].ready != []
    requires s.threads[t].ready[0].fd < |s.io.fds|
  {
    var r := s.threads[t].ready[0];
    var f := s.io.fds[r.fd];
    var s1 := Move(s, t, Delivering(s.threads[t].ready[1..]));
    if f.events * r.events == {} then s1
    else
      var left := f.events - r.events;
      var k := KernelCtl(s.io.kernel, RemoveOp(left), r.fd, left, up);
      if k == None then s1
      else
        var s2 := FireIf(WithKernel(s1, k.value), Slot(r.fd, READ), ByDelivery, READ in r.events);
        FireIf(s2, Slot(r.fd, WRITE), ByDelivery, WRITE in r.events)
  }

  function DoBegin(s: Sys, t: nat, slot: Slot, timed: bool, call: nat): (r: Sys)
    requires Runs(s, t)
    ensures r.regs == s.regs && r.log == s.log
  {
    SetPhase(s, t, Trying(call)).(calls := s.calls[call := Call(slot, timed, None, false, true)])
  }

  /** The state a call shares with its timeout callbacks dies when the call returns. */
  function Ended(calls: map<nat, Call>, call: nat): map<nat, Call>
    requires call in calls
  {
    calls[call := calls[call].(alive := false)]
  }

  /** The system call returns for good, or with EAGAIN: then the timer is armed before addEvent. */
  function DoAttempt(s: Sys, t: nat, again: bool): (r: Sys)
    requires InCall(s, t) && PhaseOn(s, t).Trying?
    ensures r.regs == s.regs && r.log == s.log
  {
    var call := PhaseOn(s, t).call;
    var arms := again && s.calls[call].timed;
    SetPhase(s, t, if again then Arming(call) else Plain).(
    calls := if !again then Ended(s.calls, call)
             else if arms then s.calls[call := s.calls[call].(timer := Some(s.nextTimer))]
             else s.calls,
    timers := if arms then s.timers[s.nextTimer := call] else s.timers,
    nextTimer := s.nextTimer + if arms then 1 else 0)
  }

  /** Timer::cancel on the call's timer, if it has one. */
  function Disarmed(s: Sys, call: nat): map<nat, nat>
    requires call in s.calls
  {
    if s.calls[call].timer.Some? then s.timers - {s.calls[call].timer.value} else s.timers
  }

  /** addEvent on success: the new registration gets the next number. */
  function Enter(s: Sys, io: Io, slot: Slot): Sys
    requires Registered(io, slot.fd, slot.event)
    requires io.fds[slot.fd].Ctx(slot.event).cb.Some? || io.fds[slot.fd].Ctx(slot.event).co.Some?
  {
    s.(io := io, live := s.live[slot := |s.regs|],
    regs := s.regs + [Reg(slot, io.fds[slot.fd].Ctx(slot.event).Continuation())])
  }

  function DoRegister(s: Sys, t: nat, up: bool): (r: Sys)
    requires InCall(s, t) && PhaseOn(s, t).Arming?
    ensures s.regs <= r.regs && r.log == s.log && r.pool == s.pool && r.threads == s.threads
    ensures r.idleCnt == s.idleCnt && r.autoStop == s.autoStop
  {
    var call := PhaseOn(s, t).call;
    var c := s.threads[t].co;
    var slot := s.calls[call].slot;
    if |s.io.fds| < INITIAL_FDS || AddAborts(s.io, slot.fd, slot.event, up) then Crash(s)
    else
      var (io', ok) := AddEvent(s.io, slot.fd, slot.event, None, c, t, up);
      if ok then SetCo(Enter(s, io', slot), c, s.cos[c].(loc := AtSlot(slot), phase := Waiting(call)))
      else SetPhase(s, t, Plain).(io := io', calls := Ended(s.calls, call), timers := Disarmed(s, call))
  }

  function DoYield(s: Sys, t: nat): (r: Sys)
    requires Runs(s, t) && PhaseOn(s, t).Waiting?
    ensures r.regs == s.regs && r.log == s.log
  {
    var c := s.threads[t].co;
    Move(SetCo(s, c, s.cos[c].(on := 0, phase := Parked(s.cos[c].phase.call))), t, Scanning)
  }

  /** Lines 128-136 of hook.cpp, after the Yield.  `continue` re-tests errno, which other coroutines
      of the thread may have changed, so the call may end instead of trying again. */
  function DoWake(s: Sys, t: nat, retry: bool): (r: Sys)
    requires InCall(s, t) && PhaseOn(s, t).Parked?
    ensures r.regs == s.regs && r.log == s.log
  {
    var call := PhaseOn(s, t).call;
    var ends := s.calls[call].canceled || !retry;
    SetPhase(s, t, if ends then Plain else Trying(call)).(
    calls := if ends then Ended(s.calls, call) else s.calls,
    timers := Disarmed(s, call))
  }

  function DoAddCallback(s: Sys, t: nat, slot: Slot, func: nat, up: bool): (r: Sys)
    requires Runs(s, t)
    ensures s.regs <= r.regs && r.log == s.log && r.pool == s.pool && r.threads == s.threads
    ensures r.idleCnt == s.idleCnt && r.autoStop == s.autoStop
  {
    if |s.io.fds| < INITIAL_FDS || AddAborts(s.io, slot.fd, slot.event, up) then Crash(s)
    else
      var (io', ok) := AddEvent(s.io, slot.fd, slot.event, Some(UserFunc(func)), s.threads[t].co, t, up);
      if ok then Enter(s, io', slot) else s.(io := io')
  }

  function DoDelete(s: Sys, slot: Slot, up: bool): Sys {
    var (io', ok) := DelEvent(s.io, slot.fd, slot.event, up);
    if !ok then s
    else if slot !in s.live then Crash(s)
    else
      var co := s.io.fds[slot.fd].Ctx(slot.event).co;
      s.(io := io', live := s.live - {slot}, log := s.log + [Retirement(s.live[slot], ByDelete, None)],
      cos := if co.Some? && co.value in s.cos then s.cos[co.value := s.cos[co.value].(loc := Nowhere)] else s.cos)
  }

  function DoCancel(s: Sys, slot: Slot, up: bool): Sys {
    if !Registered(s.io, slot.fd, slot.event) then s
    else
      var k := Unmask(s.io, slot.fd, slot.event, up);
      if k == None then s else Fire(WithKernel(s, k.value), slot, ByCancel)
  }

  function DoCancelAll(s: Sys, fd: nat, up: bool): Sys {
    if fd >= |s.io.fds| || s.io.fds[fd].events == {} then s
    else
      var k := KernelCtl(s.io.kernel, DEL, fd, {}, up);
      if k == None then s
      else
        var s1 := WithKernel(s, k.value);
        var s2 := FireIf(s1, Slot(fd, READ), ByCancel, READ in s1.io.fds[fd].events);
        FireIf(s2, Slot(fd, WRITE), ByCancel, Registered(s2.io, fd, WRITE))
  }

  /** The callback gives up if the call is over or already marked; otherwise it marks it. */
  function DoCheckTimeout(s: Sys, t: nat): (r: Sys)
    requires InCall(s, t) && PhaseOn(s, t).Checking?
    ensures r.regs == s.regs && r.log == s.log
  {
    var call := PhaseOn(s, t).call;
    var late := !s.calls[call].alive || s.calls[call].canceled;
    SetPhase(s, t, if late then Plain else Cancelling(call)).(
    calls := if late then s.calls else s.calls[call := s.calls[call].(canceled := true)])
  }

  function DoCancelTimeout(s: Sys, t: nat, up: bool): Sys
    requires InCall(s, t) && PhaseOn(s, t).Cancelling?
  {
    DoCancel(SetPhase(s, t, Plain), s.calls[PhaseOn(s, t).call].slot, up)
  }

  function DoFinish(s: Sys, t: nat): (r: Sys)
    requires Runs(s, t)
    ensures r.regs == s.regs && r.log == s.log
  {
    var c := s.threads[t].co;
    Move(SetCo(s, c, s.cos[c].(on := 0, done := true)), t, Scanning)
  }

  /** schedule() of a callback or of a coroutine that never ran. */
  function DoSpawn(s: Sys, func: Option<nat>, pin: nat, force: bool, id: nat): (r: Sys)
    ensures r.regs == s.regs && r.log == s.log
  {
    if s.autoStop && !force then s
    else if func.Some? then s.(pool := Queue(s.pool, s.autoStop, Some(Cb(UserFunc(func.value))), pin, force))
    else SetCo(s, id, NewCo(None)).(pool := Queue(s.pool, s.autoStop, Some(Co(id)), pin, force))
  }

  function Apply(s: Sys, l: Label): Sys
    requires Enabled(s, l)
  {
    match l
    case Take(t) => DoTake(s, t)
    case Dispatch(t, id) => DoDispatch(s, t, id)
    case Decide(t) => DoDecide(s, t)
    case CloseCheck(t) => DoCloseCheck(s, t)
    case IdleCheck(t, ready) => DoIdleCheck(s, t, ready)
    case Expire(t, ids) => DoExpire(s, t, ids)
    case DeliverNext(t, up) => DoDeliver(s, t, up)
    case IdleYield(t) => Move(s, t, Scanning).(idleCnt := Decrement(s.idleCnt))
    case Begin(t, slot, timed, call) => DoBegin(s, t, slot, timed, call)
    case Attempt(t, again) => DoAttempt(s, t, again)
    case Register(t, up) => DoRegister(s, t, up)
    case YieldCo(t) => DoYield(s, t)
    case Wake(t, retry) => DoWake(s, t, retry)
    case AddCallback(t, slot, func, up) => DoAddCallback(s, t, slot, func, up)
    case Delete(t, slot, up) => DoDelete(s, slot, up)
    case Cancel(t, slot, up) => DoCancel(s, slot, up)
    case CancelAll(t, fd, up) => DoCancelAll(s, fd, up)
    case CheckTimeout(t) => DoCheckTimeout(s, t)
    case CancelTimeout(t, up) => DoCancelTimeout(s, t, up)
    case Finish(t) => DoFinish(s, t)
    case Spawn(actor, func, pin, force, id) => DoSpawn(s, func, pin, force, id)
    case SetAutoStop => s.(autoStop := true)
    case SetStopping => s.(stopFlag := true)
  }
}
