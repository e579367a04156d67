/** Arming a timer against sleeping: one thread in IOManager::idle, any number of threads adding,
    refreshing, resetting and cancelling timers (src/iomanager.cpp, src/timer.cpp).

    One label is one stretch of code that no other thread can observe.  The clock moves by itself, the
    kernel chooses when epoll_wait returns early; it does return when the tickle pipe is readable or the
    timeout has run out. */
module TimerWakeup {
  import opened Wrappers
  import opened Timers

  const EPOLL_MAX_TIMEOUT: nat := 5000

  datatype Pc =
    | Running                                        // in Scheduler::run, not counted idle
    | Top                                            // in idle, about to ask for the next deadline
    | Asked(at: nat, timeout: nat)                   // getNextTime read, epoll_wait not entered
    | Asleep(at: nat, timeout: nat, since: nat)      // in epoll_wait
    | Woken(rt: nat, tickled: bool)                  // epoll_wait returned
    | Expiring(tickled: bool)                        // left the inner loop
    | Draining(tickled: bool)                        // about to look at what epoll_wait reported

  /** `pipe` counts the bytes in the tickle pipe, `edge` says that its read end is on the kernel's ready
      list (it is registered edge-triggered); `owing` are the threads between an insertion at the front
      and their onTimerRefresh. */
  datatype World = World(timers: TimerSet, now: nat, pipe: nat, edge: bool, owing: set<nat>, pc: Pc, loop: nat)

  datatype Label =
    | Tick(d: nat)
    | Add(tid: nat, a: nat, at: nat, ms: nat, cb: Option<nat>, recurring: bool)  // the clock was read at `at`
    | RefreshOne(tid: nat, a: nat)
    | ResetOne(tid: nat, a: nat, ms: nat)
    | CancelOne(tid: nat, a: nat)
    | CancelEvery(tid: nat)
    | OnTimerRefresh(tid: nat)
    | Wakeup(tid: nat)  // any other tickle, such as that of schedule
    | EnterIdle
    | Ask
    | EnterWait
    | LeaveWait(rt: nat, tickled: bool)
    | Recheck(autoStop: bool)
    | ExpireDue(probe: nat)
    | Drain

  /** A thread acts if it has nothing left to do from its last call; the loop thread only from a coroutine. */
  predicate Free(w: World, tid: nat) {
    tid !in w.owing && (tid == w.loop ==> w.pc == Running)
  }

  /** epoll_wait has something to report, or its time is up. */
  predicate MustLeave(w: World) {
    w.pc.Asleep? && ((w.edge && w.pipe > 0) || w.now >= w.pc.since + w.pc.timeout)
  }

  predicate Enabled(w: World, l: Label) {
    match l
    case Tick(d) => w.pc.Asleep? ==> !(w.edge && w.pipe > 0) && w.now + d <= w.pc.since + w.pc.timeout
    case Add(tid, a, at, _, _, _) => Free(w, tid) && a !in w.timers.recs && at <= w.now
    case RefreshOne(tid, a) => Free(w, tid) && a in w.timers.recs
    case ResetOne(tid, a, _) => Free(w, tid) && a in w.timers.recs
    case CancelOne(tid, a) => Free(w, tid) && a in w.timers.recs
    case CancelEvery(tid) => Free(w, tid)
    case OnTimerRefresh(tid) => tid in w.owing
    case Wakeup(tid) => Free(w, tid)
    case EnterIdle => w.pc == Running && w.loop !in w.owing
    case Ask => w.pc == Top
    case EnterWait => w.pc.Asked?
    case LeaveWait(rt, tickled) => w.pc.Asleep? && (tickled ==> rt > 0 && w.edge && w.pipe > 0)
    case Recheck(_) => w.pc.Woken?
    case ExpireDue(_) => w.pc.Expiring?
    case Drain => w.pc.Draining?
  }

  /** IOManager::tickle: a byte is written only while a thread is counted idle. */
  function Tickled(w: World): World {
    if w.pc != Running then w.(pipe := w.pipe + 1, edge := true) else w
  }

  function Owe(w: World, tid: nat, timers: TimerSet, owed: bool): World {
    w.(timers := timers, owing := if owed then w.owing + {tid} else w.owing)
  }

  function Apply(w: World, l: Label): World
    requires Ok(w.timers) && Enabled(w, l)
  {
    match l
    case Tick(d) => w.(now := w.now + d)
    case Add(tid, a, at, ms, cb, recurring) =>
      var (timers, owed) := AddTimer(w.timers, a, at, ms, cb, recurring);
      Owe(w, tid, timers, owed)
    case RefreshOne(tid, a) =>
      var o := Refresh(w.timers, a, w.now);
      Owe(w, tid, o.timers, o.owed)
    case ResetOne(tid, a, ms) =>
      var o := Reset(w.timers, a, w.now, ms);
      Owe(w, tid, o.timers, o.owed)
    case CancelOne(tid, a) => w.(timers := Cancel(w.timers, a).0)
    case CancelEvery(tid) => w.(timers := CancelAll(w.timers))
    case OnTimerRefresh(tid) => Tickled(w).(owing := w.owing - {tid})
    case Wakeup(tid) => Tickled(w)
    case EnterIdle => w.(pc := Top)
    case Ask =>
      var next := GetNextTime(w.timers, w.now);
      w.(pc := Asked(w.now, if next > EPOLL_MAX_TIMEOUT then EPOLL_MAX_TIMEOUT else next))
    case EnterWait => w.(pc := Asleep(w.pc.at, w.pc.timeout, w.now))
    case LeaveWait(rt, tickled) => w.(pc := Woken(rt, tickled), edge := w.edge && !tickled)
    case Recheck(autoStop) =>
      w.(pc := if w.pc.rt > 0 || GetNextTime(w.timers, w.now) == 0 || autoStop then Expiring(w.pc.tickled) else Top)
    case ExpireDue(probe) => w.(timers := Expire(w.timers, w.now, probe).timers, pc := Draining(w.pc.tickled))
    case Drain => w.(pipe := if w.pc.tickled then 0 else w.pipe, pc := Running)
  }

  // ---------------------------------------------------------------- the invariant

  /** The loop has read a deadline it will not read again before epoll_wait returns. */
  predicate Committed(pc: Pc) {
    pc.Asked? || pc.Asleep?
  }

  predicate NoLaterThanAny(timers: TimerSet, deadline: nat)
    requires Ok(timers)
  {
    forall a :: a in timers.armed ==> deadline <= timers.recs[a].next
  }

  ghost predicate NoLostTimer(w: World)
    requires Ok(w.timers)
  {
    Committed(w.pc) ==>
      || w.pc.timeout == 0
      || NoLaterThanAny(w.timers, w.pc.at + w.pc.timeout)
      || w.pipe > 0
      || w.owing != {}
  }

  /** A byte in the pipe is on the ready list, or its report is in the loop's hands. */
  predicate NoLostTickle(w: World) {
    w.pipe > 0 && !w.edge ==> (w.pc.Woken? || w.pc.Expiring? || w.pc.Draining?) && w.pc.tickled
  }

  predicate Timely(w: World) {
    && (w.pc.Asked? ==> w.pc.at <= w.now)
    && (w.pc.Asleep? ==> w.pc.at <= w.pc.since <= w.now <= w.pc.since + w.pc.timeout)
    && (w.pc.Woken? && w.pc.tickled ==> w.pc.rt > 0)
  }

  ghost predicate WakeInv(w: World) {
    && Ok(w.timers) && NoLostTimer(w) && NoLostTickle(w) && Timely(w)
    && (w.loop in w.owing ==> w.pc == Running)
  }

  function Start(loop: nat): World {
    World(TimerSet(map[], []), 0, 0, false, {}, Running, loop)
  }

  lemma StartInv(loop: nat)
    ensures WakeInv(Start(loop))
  {
  }

  /** An insertion anywhere but at the front is behind a timer the loop already allowed for. */
  lemma ArmedIsCovered(s: TimerSet, s': TimerSet, a: nat, owed: bool, deadline: nat)
    requires Ok(s) && Ok(s') && NoLaterThanAny(s, deadline)
    requires a in s'.recs && forall b :: b in s'.armed ==> b == a || b in s.armed
    requires forall b :: b in s.armed && b != a ==> b in s'.armed
    requires forall b :: b in s.recs && b != a ==> b in s'.recs && s'.recs[b] == s.recs[b]
    requires owed || exists b :: b in s.armed && b != a && b in s'.recs && !Less(s'.recs, a, b)
    ensures owed || NoLaterThanAny(s', deadline)
  {
    if !owed {
      var b :| b in s.armed && b != a && b in s'.recs && !Less(s'.recs, a, b);
      assert deadline <= s.recs[b].next;
    }
  }

  lemma OweKeeps(w: World, tid: nat, timers: TimerSet, owed: bool)
    requires WakeInv(w) && Free(w, tid) && Ok(timers)
    requires Committed(w.pc) && NoLaterThanAny(w.timers, w.pc.at + w.pc.timeout) ==>
               owed || NoLaterThanAny(timers, w.pc.at + w.pc.timeout)
    ensures WakeInv(Owe(w, tid, timers, owed))
  {
  }

  lemma AddStep(w: World, l: Label)
    requires WakeInv(w) && Enabled(w, l) && l.Add?
    ensures WakeInv(Apply(w, l))
  {
    hide Sorted, AddTimer;
    ArmedAreKnown(w.timers);
    AddKeeps(w.timers, l.a, l.at, l.ms, l.cb, l.recurring);
    var (timers, owed) := AddTimer(w.timers, l.a, l.at, l.ms, l.cb, l.recurring);
    if Committed(w.pc) && NoLaterThanAny(w.timers, w.pc.at + w.pc.timeout) {
      ArmedIsCovered(w.timers, timers, l.a, owed, w.pc.at + w.pc.timeout);
    }
    OweKeeps(w, l.tid, timers, owed);
  }

  lemma RefreshStep(w: World, l: Label)
    requires WakeInv(w) && Enabled(w, l) && l.RefreshOne?
    ensures WakeInv(Apply(w, l))
  {
    hide Sorted, Refresh;
    ArmedAreKnown(w.timers);
    RefreshKeeps(w.timers, l.a, w.now);
    var o := Refresh(w.timers, l.a, w.now);
    if Committed(w.pc) && NoLaterThanAny(w.timers, w.pc.at + w.pc.timeout) && o.ok {
      ArmedIsCovered(w.timers, o.timers, l.a, o.owed, w.pc.at + w.pc.timeout);
    }
    OweKeeps(w, l.tid, o.timers, o.owed);
  }

  lemma ResetStep(w: World, l: Label)
    requires WakeInv(w) && Enabled(w, l) && l.ResetOne?
    ensures WakeInv(Apply(w, l))
  {
    hide Sorted, Reset;
    ArmedAreKnown(w.timers);
    ResetKeeps(w.timers, l.a, w.now, l.ms);
    var o := Reset(w.timers, l.a, w.now, l.ms);
    if Committed(w.pc) && NoLaterThanAny(w.timers, w.pc.at + w.pc.timeout) && o.ok && l.ms != w.timers.recs[l.a].ms {
      ArmedIsCovered(w.timers, o.timers, l.a, o.owed, w.pc.at + w.pc.timeout);
    }
    OweKeeps(w, l.tid, o.timers, o.owed);
  }

  lemma DisarmKeeps(w: World, l: Label)
    requires WakeInv(w) && Enabled(w, l) && (l.CancelOne? || l.CancelEvery? || l.ExpireDue?)
    ensures WakeInv(Apply(w, l))
  {
    hide Sorted;
    match l {
      case CancelOne(tid, a) => CancelKeeps(w.timers, a);
      case CancelEvery(tid) => CancelAllKeeps(w.timers);
      case ExpireDue(probe) => ExpireIsExact(w.timers, w.now, probe);
    }
  }

  lemma LoopKeeps(w: World, l: Label)
    requires WakeInv(w) && Enabled(w, l)
    requires !(l.Add? || l.RefreshOne? || l.ResetOne? || l.CancelOne? || l.CancelEvery? || l.ExpireDue?)
    ensures WakeInv(Apply(w, l))
  {
    if l == Ask { NextIsFirst(w.timers, w.now); }
  }

  /** getNextTime looks at the first timer only; no other is due sooner, and the time named is its own. */
  lemma NextIsFirst(s: TimerSet, now: nat)
    requires Ok(s)
    ensures GetNextTime(s, now) > 0 ==> NoLaterThanAny(s, now + GetNextTime(s, now)) || s.armed == []
    ensures GetNextTime(s, now) > 0 && s.armed != [] ==> exists a :: a in s.armed && s.recs[a].next == now + GetNextTime(s, now)
    ensures GetNextTime(s, now) == 0 <==> exists a :: a in s.armed && s.recs[a].next <= now
  {
    GetNextTimeIs(s, now);
  }

  lemma StepKeeps(w: World, l: Label)
    requires WakeInv(w) && Enabled(w, l)
    ensures WakeInv(Apply(w, l))
  {
    if l.Add? {
      AddStep(w, l);
    } else if l.RefreshOne? {
      RefreshStep(w, l);
    } else if l.ResetOne? {
      ResetStep(w, l);
    } else if l.CancelOne? || l.CancelEvery? || l.ExpireDue? {
      DisarmKeeps(w, l);
    } else {
      LoopKeeps(w, l);
    }
  }

  // ---------------------------------------------------------------- what each step brings about

  /** The loop is about to sleep until the first deadline, but at most 5 seconds. */
  lemma AskIs(w: World)
    requires WakeInv(w) && Enabled(w, Ask)
    ensures var w' := Apply(w, Ask);
            && w' == w.(pc := w'.pc) && w'.pc.Asked? && w'.pc.at == w.now && 0 <= w'.pc.timeout <= 5000
            && (forall a :: a in w.timers.armed ==> w'.pc.timeout == 0 || w.now + w'.pc.timeout <= w.timers.recs[a].next)
            && (w'.pc.timeout == 5000 || exists a :: a in w.timers.armed && w.timers.recs[a].next <= w.now + w'.pc.timeout)
            && (w'.pc.timeout == 0 <==> exists a :: a in w.timers.armed && w.timers.recs[a].next <= w.now)
  {
    GetNextTimeIs(w.timers, w.now);
  }

  /** After epoll_wait the loop goes on to the expired timers exactly if it returned something, a timer is due
      or stop() was called; those due, and only those, are taken out or armed anew. */
  lemma RecheckIs(w: World, autoStop: bool, probe: nat)
    requires WakeInv(w)
    ensures Enabled(w, Recheck(autoStop)) ==>
              var due := exists a :: a in w.timers.armed && w.timers.recs[a].next <= w.now;
              Apply(w, Recheck(autoStop)) == w.(pc := if w.pc.rt > 0 || due || autoStop then Expiring(w.pc.tickled) else Top)
    ensures Enabled(w, ExpireDue(probe)) ==>
              var w' := Apply(w, ExpireDue(probe));
              && w' == w.(timers := w'.timers, pc := Draining(w.pc.tickled))
              && forall a :: a in w'.timers.armed <==> a in w.timers.armed && (w.timers.recs[a].next > w.now || w.timers.recs[a].recurring)
  {
    GetNextTimeIs(w.timers, w.now);
    ExpireIsExact(w.timers, w.now, probe);
  }

  /** A new timer is armed for the 64-bit sum of the clock reading and its period; its thread owes a wake-up
      exactly if no armed timer comes before it. */
  lemma AddIs(w: World, tid: nat, a: nat, at: nat, ms: nat, cb: Option<nat>, recurring: bool)
    requires WakeInv(w) && Enabled(w, Add(tid, a, at, ms, cb, recurring))
    ensures var w', next := Apply(w, Add(tid, a, at, ms, cb, recurring)), (at + ms) % 0x1_0000_0000_0000_0000;
            && w' == w.(timers := w'.timers, owing := w'.owing)
            && (forall b :: b in w'.timers.armed <==> b == a || b in w.timers.armed)
            && w'.timers.recs == w.timers.recs[a := Rec(ms, next, cb, recurring)]
            && w'.owing == w.owing + if forall b :: b in w.timers.armed ==> Before(next, a, w.timers.recs[b].next, b) then {tid} else {}
  {
    hide NoLostTimer, Sorted, AddTimer, Refresh, Reset, Cancel, Expire, CancelAll;
    AddKeeps(w.timers, a, at, ms, cb, recurring);
    ArmedAreKnown(w.timers);
  }

  /** A cancelled timer that had its callback is not armed any more; the others stay. */
  lemma CancelIs(w: World, tid: nat, a: nat)
    requires WakeInv(w) && Free(w, tid)
    ensures a in w.timers.recs ==>
              var w' := Apply(w, CancelOne(tid, a));
              && w' == w.(timers := w'.timers) && !(a in w'.timers.armed && w.timers.recs[a].cb.Some?)
              && forall b :: b != a ==> (b in w'.timers.armed <==> b in w.timers.armed)
    ensures var w' := Apply(w, CancelEvery(tid)); w' == w.(timers := w'.timers) && w'.timers.armed == []
  {
    hide NoLostTimer, Sorted, AddTimer, Refresh, Reset, Cancel, Expire;
    if a in w.timers.recs { CancelKeeps(w.timers, a); }
  }

  /** The timer's deadline becomes the 64-bit sum of the clock and the period, and no other changes; the thread
      owes a wake-up exactly if no other armed timer comes before it. */
  ghost predicate Rearmed(w: World, w': World, tid: nat, a: nat, ms: nat)
    requires Ok(w.timers) && a in w.timers.recs
  {
    var next := (w.now + ms) % 0x1_0000_0000_0000_0000;
    && w' == w.(timers := w'.timers, owing := w'.owing)
    && (forall b :: b in w'.timers.armed <==> b in w.timers.armed)
    && w'.timers.recs == w.timers.recs[a := w.timers.recs[a].(ms := ms, next := next)]
    && w'.owing == w.owing + if forall b :: b in w.timers.armed && b != a ==> Before(next, a, w.timers.recs[b].next, b) then {tid} else {}
  }

  /** Refreshing an armed timer counts its period from now; resetting it does the same with the new period, if
      that differs. */
  lemma RearmIs(w: World, tid: nat, a: nat, ms: nat)
    requires WakeInv(w) && Free(w, tid) && a in w.timers.armed && a in w.timers.recs && w.timers.recs[a].cb.Some?
    ensures Rearmed(w, Apply(w, RefreshOne(tid, a)), tid, a, w.timers.recs[a].ms)
    ensures if ms == w.timers.recs[a].ms then Apply(w, ResetOne(tid, a, ms)) == w
            else Rearmed(w, Apply(w, ResetOne(tid, a, ms)), tid, a, ms)
  {
    hide NoLostTimer, Sorted, Refresh, Rearm, AddTimer, Cancel, Expire, CancelAll;
    RefreshKeeps(w.timers, a, w.now);
    ResetKeeps(w.timers, a, w.now, ms);
    var o := Refresh(w.timers, a, w.now);
    assert o.timers.recs[a] == w.timers.recs[a].(next := Add64(w.now, w.timers.recs[a].ms));
  }

  /** A tickle writes a byte, which the kernel then knows, exactly while the loop is idle; the loop sleeps from
      the moment it enters epoll_wait, learns of the bytes once, and drains them all. */
  lemma LoopIs(w: World, tid: nat, rt: nat, tickled: bool, d: nat)
    requires WakeInv(w)
    ensures Enabled(w, OnTimerRefresh(tid)) ==>
              Apply(w, OnTimerRefresh(tid))
              == (if w.pc == Running then w else w.(pipe := w.pipe + 1, edge := true)).(owing := w.owing - {tid})
    ensures Enabled(w, Wakeup(tid)) ==> Apply(w, Wakeup(tid)) == if w.pc == Running then w else w.(pipe := w.pipe + 1, edge := true)
    ensures Enabled(w, EnterIdle) ==> Apply(w, EnterIdle) == w.(pc := Top)
    ensures Enabled(w, EnterWait) ==> Apply(w, EnterWait) == w.(pc := Asleep(w.pc.at, w.pc.timeout, w.now))
    ensures Enabled(w, LeaveWait(rt, tickled)) ==> Apply(w, LeaveWait(rt, tickled)) == w.(pc := Woken(rt, tickled), edge := w.edge && !tickled)
    ensures Enabled(w, Drain) ==> Apply(w, Drain) == w.(pc := Running, pipe := if w.pc.tickled then 0 else w.pipe)
    ensures Enabled(w, Tick(d)) ==> Apply(w, Tick(d)) == w.(now := w.now + d)
  {
  }

  /** The loop thread can always take its next step. */
  lemma LoopGoesOn(w: World)
    ensures var l := match w.pc
                     case Running => if w.loop in w.owing then OnTimerRefresh(w.loop) else EnterIdle
                     case Top => Ask
                     case Asked(_, _) => EnterWait
                     case Asleep(_, _, _) => LeaveWait(0, false)
                     case Woken(_, _) => Recheck(false)
                     case Expiring(_) => ExpireDue(0)
                     case Draining(_) => Drain;
            Enabled(w, l)
  {
  }

  // ---------------------------------------------------------------- whole runs

  /** A set out of order would be left as it is; no run reaches one (see ExecutionInv). */
  ghost function Step(w: World, l: Label): World
    requires Enabled(w, l)
  {
    if Ok(w.timers) then Apply(w, l) else w
  }

  ghost predicate Execution(ls: seq<Label>, ws: seq<World>) {
    && |ws| == |ls| + 1
    && ws[0] == Start(ws[0].loop)
    && forall k :: 0 <= k < |ls| ==> Enabled(ws[k], ls[k]) && ws[k + 1] == Step(ws[k], ls[k])
  }

  lemma {:induction false} ExecutionInv(ls: seq<Label>, ws: seq<World>, k: nat)
    requires Execution(ls, ws) && k <= |ls|
    ensures WakeInv(ws[k])
  {
    if k == 0 {
      StartInv(ws[0].loop);
    } else {
      ExecutionInv(ls, ws, k - 1);
      StepKeeps(ws[k - 1], ls[k - 1]);
    }
  }

  /** No lost timer wake-up: from reading the deadline to leaving epoll_wait, the timeout is 0, or the
      deadline is at or before every armed timer, or the pipe is readable and the kernel knows it, or
      some thread still owes its onTimerRefresh. */
  lemma NoLostWakeup(ls: seq<Label>, ws: seq<World>, k: nat)
    requires Execution(ls, ws) && k <= |ls| && Committed(ws[k].pc)
    ensures Ok(ws[k].timers)
    ensures || ws[k].pc.timeout == 0
            || NoLaterThanAny(ws[k].timers, ws[k].pc.at + ws[k].pc.timeout)
            || (ws[k].pipe > 0 && ws[k].edge)
            || ws[k].owing != {}
  {
    ExecutionInv(ls, ws, k);
  }

  /** So the loop never oversleeps: once nobody owes a wake-up, either the kernel must return at once, or
      it has slept no longer than any armed timer still had to go when the deadline was read. */
  lemma NeverOversleeps(ls: seq<Label>, ws: seq<World>, k: nat, a: nat)
    requires Execution(ls, ws) && k <= |ls| && ws[k].pc.Asleep? && ws[k].owing == {}
    requires a in ws[k].timers.armed && a in ws[k].timers.recs
    ensures MustLeave(ws[k]) ||
            ws[k].now - ws[k].pc.since < ws[k].timers.recs[a].next - ws[k].pc.at
  {
    ExecutionInv(ls, ws, k);
  }

  /** And time does not pass for a thread that must leave. */
  lemma MustLeaveStopsTime(w: World, d: nat)
    requires WakeInv(w) && MustLeave(w) && Enabled(w, Tick(d))
    ensures d == 0 && !(w.edge && w.pipe > 0)
  {
  }
}
