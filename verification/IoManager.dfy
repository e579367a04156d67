/** class IOManager and its FdContext objects (src/iomanager.h, src/iomanager.cpp), updated in place.

    Each method is one section under an fd lock, proved to do to `View()` what IoEvents says.  The
    outcome of epoll_ctl is the parameter `up`; the calling coroutine and thread are parameters too. */
module IoManager {
  import opened Wrappers
  import opened TaskPool
  import opened IoEvents

  class FdContext {
    var events: set<Event>
    var read: EventCtx
    var write: EventCtx

    constructor ()
      ensures State() == NEW_FD
    {
      events, read, write := {}, EMPTY, EMPTY;
    }

    function State(): FdState
      reads this
    {
      FdState(events, read, write)
    }

    /** Lines 111-121, with the assertion of line 113. */
    method Occupy(e: Event, cb: Option<Callback>, co: nat, tid: nat)
      requires State().Ctx(e).Vacant()
      modifies this
      ensures State() == old(State()).(events := old(events) + {e}).WithCtx(e, State().Ctx(e))
      ensures State().Ctx(e) == if cb.Some? then old(State().Ctx(e)).(scheduler := true, cb := cb)
                                else old(State().Ctx(e)).(scheduler := true, co := Some(co), threadId := tid)
    {
      events := events + {e};
      var ctx := if e == READ then read else write;
      assert !ctx.scheduler && ctx.co == None && ctx.cb == None;
      ctx := ctx.(scheduler := true);
      if cb.Some? {
        ctx := ctx.(cb := cb);
      } else {
        ctx := ctx.(co := Some(co), threadId := tid);
      }
      if e == READ { read := ctx; } else { write := ctx; }
    }

    /** Lines 154-156, with resetContext. */
    method Vacate(e: Event)
      modifies this
      ensures State() == old(State()).(events := old(events) - {e}).WithCtx(e, EMPTY)
    {
      events := events - {e};
      if e == READ { read := EMPTY; } else { write := EMPTY; }
    }

    /** Lines 35-45.  The two `requires` are the assertion of line 36 and the pointer line 40 or 42
        dereferences. */
    method TriggerEvent(e: Event, scheduler: Scheduler)
      requires e in events
      requires State().Ctx(e).Occupied()
      modifies this, scheduler`taskPools, scheduler`tickles
      ensures State().events == old(events) - {e}
      ensures State() == old(State()).(events := old(events) - {e}).WithCtx(e, State().Ctx(e))
      ensures State().Ctx(e) == if old(State().Ctx(e)).cb.Some? then old(State().Ctx(e)).(scheduler := false, cb := None)
                                else old(State().Ctx(e)).(scheduler := false, co := None)
      ensures scheduler.taskPools == old(scheduler.taskPools) + [old(State().Ctx(e).Continuation())]
    {
      events := events - {e};
      var ctx := if e == READ then read else write;
      if ctx.cb.Some? {
        scheduler.Schedule(Some(Cb(ctx.cb.value)), ctx.threadId, true);
        ctx := ctx.(cb := None);
      } else {
        scheduler.Schedule(Some(Co(ctx.co.value)), ctx.threadId, true);
        ctx := ctx.(co := None);
      }
      ctx := ctx.(scheduler := false);
      if e == READ { read := ctx; } else { write := ctx; }
    }
  }

  class IoManager {
    var contexts: seq<FdContext>
    var pendingEventCount: nat
    var epoll: map<nat, set<Event>>
    const scheduler: Scheduler

    constructor (scheduler: Scheduler)
      ensures Valid() && View() == INITIAL && this.scheduler == scheduler && (forall c | c in contexts :: fresh(c))
    {
      this.scheduler := scheduler;
      contexts, pendingEventCount, epoll := [], 0, map[];
      new;
      GrowTo(INITIAL_FDS);
      assert View().fds == INITIAL.fds;
      InitialInv();
    }

    function View(): Io
      reads this, contexts
    {
      Io(seq(|contexts|, i requires 0 <= i < |contexts| reads this, contexts => contexts[i].State()),
         epoll, pendingEventCount)
    }

    ghost predicate Distinct()
      reads this
    {
      forall i, j :: 0 <= i < j < |contexts| ==> contexts[i] != contexts[j]
    }

    ghost predicate Valid()
      reads this, contexts
    {
      Distinct() && Inv(View())
    }

    /** fdContextsResize, which only ever grows the table. */
    method GrowTo(size: nat)
      requires Distinct()
      modifies this`contexts
      ensures Distinct() && old(contexts) <= contexts && forall i | |old(contexts)| <= i < |contexts| :: fresh(contexts[i])
      ensures |contexts| == if size > |old(contexts)| then size else |old(contexts)|
      ensures forall i :: |old(contexts)| <= i < |contexts| ==> contexts[i].State() == NEW_FD
    {
      ghost var n := |contexts|;
      while |contexts| < size
        invariant Distinct() && old(contexts) <= contexts && forall i | n <= i < |contexts| :: fresh(contexts[i])
        invariant n <= |contexts| && (|contexts| <= size || |contexts| == n)
        invariant forall i :: n <= i < |contexts| ==> contexts[i].State() == NEW_FD
        decreases size - |contexts|
      {
        var c := new FdContext();
        contexts := contexts + [c];
      }
    }

    method AddEvent(fd: nat, e: Event, cb: Option<Callback>, co: nat, tid: nat, up: bool) returns (ok: bool)
      requires Valid()
      modifies this, contexts
      ensures Valid() && old(contexts) <= contexts && forall i | |old(contexts)| <= i < |contexts| :: fresh(contexts[i])
      ensures (View(), ok) == IoEvents.AddEvent(old(View()), fd, e, cb, co, tid, up)
    {
      ghost var before := View();
      if fd >= |contexts| {
        GrowTo(fd * 3 / 2);
      }
      assert View() == before.(fds := Grow(before.fds, fd));
      assert Inv(View()) by { GrowKeepsInv(before, fd); }
      ok := AddToContext(fd, e, cb, co, tid, up);
    }

    /** addEvent from the fd lock on, lines 88-122. */
    method AddToContext(fd: nat, e: Event, cb: Option<Callback>, co: nat, tid: nat, up: bool) returns (ok: bool)
      requires Valid() && fd < |contexts|
      modifies this`pendingEventCount, this`epoll, contexts[fd]
      ensures Valid()
      ensures (View(), ok) == IoEvents.AddEvent(old(View()), fd, e, cb, co, tid, up)
    {
      ghost var before := View();
      var fdCtx := contexts[fd];
      assert fdCtx.State() == before.fds[fd];
      if e in fdCtx.events {
        return false;
      }
      var op := if fdCtx.events != {} then MOD else ADD;
      assert CtlLegal(epoll, op, fd);
      if !up {
        return false;
      }
      epoll, pendingEventCount := epoll[fd := fdCtx.events + {e}], pendingEventCount + 1;
      fdCtx.Occupy(e, cb, co, tid);
      assert View().fds == before.fds[fd := fdCtx.State()];
      AddEventKeepsInv(before, fd, e, cb, co, tid, up);
      return true;
    }

    /** What the invariant says about one descriptor. */
    lemma EntryFacts(fd: nat)
      requires Valid()
      ensures fd < |contexts| ==>
                && contexts[fd].State() == View().fds[fd]
                && (contexts[fd].events != {} <==> fd in epoll)
                && forall e :: e in contexts[fd].events ==> pendingEventCount > 0
      ensures SlotsOk(View()) && CountOk(View())
    {
      if fd < |contexts| {
        forall e | e in contexts[fd].events
          ensures pendingEventCount > 0
        {
          TotalBitsPositive(View().fds, fd, e);
        }
      }
    }

    method DelEvent(fd: nat, e: Event, up: bool) returns (ok: bool)
      requires Valid()
      modifies this`pendingEventCount, this`epoll, contexts
      ensures Valid()
      ensures (View(), ok) == IoEvents.DelEvent(old(View()), fd, e, up)
    {
      hide TotalBits, KernelOk, CountOk, SlotsOk, Inv;
      ghost var before := View();
      EntryFacts(fd);
      if |contexts| <= fd {
        return false;
      }
      var fdCtx := contexts[fd];
      assert fdCtx.State() == before.fds[fd];
      if e !in fdCtx.events {
        return false;
      }
      var newEvents := fdCtx.events - {e};
      var op := if newEvents != {} then MOD else DEL;
      assert CtlLegal(epoll, op, fd);
      if !up {
        return false;
      }
      epoll, pendingEventCount := if op == MOD then epoll[fd := newEvents] else epoll - {fd}, pendingEventCount - 1;
      fdCtx.Vacate(e);
      assert View().fds == before.fds[fd := fdCtx.State()];
      DelEventKeepsInv(before, fd, e, up);
      return true;
    }

    /** triggerEvent under the fd lock, then the decrement. */
    method TriggerAndCount(fd: nat, e: Event)
      requires Distinct() && SlotsOk(View()) && CountOk(View())
      requires Registered(View(), fd, e)
      modifies this`pendingEventCount, contexts, scheduler`taskPools, scheduler`tickles
      ensures Distinct() && SlotsOk(View()) && CountOk(View())
      ensures View() == Trigger(old(View()), fd, e).0
      ensures scheduler.taskPools == old(scheduler.taskPools) + [Trigger(old(View()), fd, e).1]
    {
      ghost var before := View();
      TriggerKeepsCount(before, fd, e);
      assert before.fds[fd].Ctx(e).Occupied();
      contexts[fd].TriggerEvent(e, scheduler);
      pendingEventCount := pendingEventCount - 1;
      assert View().fds == before.fds[fd := contexts[fd].State()];
      TriggerKeepsSlots(before, fd, e, true);
    }

    /** READ first, then WRITE, each if wanted and set. */
    method TriggerAllIn(fd: nat, wanted: set<Event>)
      requires Distinct() && SlotsOk(View()) && CountOk(View()) && fd < |contexts|
      modifies this`pendingEventCount, contexts, scheduler`taskPools, scheduler`tickles
      ensures Distinct() && SlotsOk(View()) && CountOk(View())
      ensures View() == TriggerBoth(old(View()), fd, wanted).0
      ensures scheduler.taskPools == old(scheduler.taskPools) + TriggerBoth(old(View()), fd, wanted).1
    {
      assert View().fds[fd].events == contexts[fd].events;
      if READ in wanted && READ in contexts[fd].events {
        TriggerAndCount(fd, READ);
      }
      assert View().fds[fd].events == contexts[fd].events;
      if WRITE in wanted && WRITE in contexts[fd].events {
        TriggerAndCount(fd, WRITE);
      }
    }

    method CancelEvent(fd: nat, e: Event, up: bool) returns (ok: bool)
      requires Valid()
      modifies this`pendingEventCount, this`epoll, contexts, scheduler`taskPools, scheduler`tickles
      ensures Valid()
      ensures var (io, r, tasks) := IoEvents.CancelEvent(old(View()), fd, e, up);
              View() == io && ok == r && scheduler.taskPools == old(scheduler.taskPools) + tasks
    {
      hide TotalBits, KernelOk, CountOk, SlotsOk, Inv, Trigger;
      ghost var before := View();
      EntryFacts(fd);
      CancelEventKeepsInv(before, fd, e, up);
      if |contexts| <= fd {
        return false;
      }
      var fdCtx := contexts[fd];
      if e !in fdCtx.events {
        return false;
      }
      var newEvents := fdCtx.events - {e};
      var op := if newEvents != {} then MOD else DEL;
      assert CtlLegal(epoll, op, fd);
      if !up {
        return false;
      }
      epoll := if op == MOD then epoll[fd := newEvents] else epoll - {fd};
      assert View() == before.(kernel := epoll);
      TriggerAndCount(fd, e);
      return true;
    }

    method CancelAllEvent(fd: nat, up: bool) returns (ok: bool)
      requires Valid()
      modifies this`pendingEventCount, this`epoll, contexts, scheduler`taskPools, scheduler`tickles
      ensures Valid()
      ensures var (io, r, tasks) := IoEvents.CancelAllEvent(old(View()), fd, up);
              View() == io && ok == r && scheduler.taskPools == old(scheduler.taskPools) + tasks
    {
      ghost var before := View();
      CancelAllKeepsInv(before, fd, up);
      if |contexts| <= fd {
        return false;
      }
      var fdCtx := contexts[fd];
      if fdCtx.events == {} {
        return false;
      }
      assert CtlLegal(epoll, DEL, fd);
      if !up {
        return false;
      }
      epoll := epoll - {fd};
      assert View() == before.(kernel := epoll);
      TriggerAllIn(fd, {READ, WRITE});
      assert View().fds[fd].events == {};  // the assertion of line 228
      return true;
    }

    /** Lines 308-315: unlike cancelAllEvent, these do not look at the registered events first. */
    method TriggerReady(fd: nat, realEvent: set<Event>) returns (aborted: bool)
      requires Distinct() && SlotsOk(View()) && CountOk(View()) && fd < |contexts|
      modifies this`pendingEventCount, contexts, scheduler`taskPools, scheduler`tickles
      ensures aborted <==> !(realEvent <= old(View().fds[fd].events))
      ensures !aborted ==> Distinct() && View() == TriggerBoth(old(View()), fd, realEvent).0
      ensures !aborted ==> scheduler.taskPools == old(scheduler.taskPools) + TriggerBoth(old(View()), fd, realEvent).1
    {
      assert View().fds[fd].events == contexts[fd].events;
      if READ in realEvent {
        if READ !in contexts[fd].events {
          return true;
        }
        TriggerAndCount(fd, READ);
      }
      assert View().fds[fd].events == contexts[fd].events;
      if WRITE in realEvent {
        if WRITE !in contexts[fd].events {
          return true;
        }
        TriggerAndCount(fd, WRITE);
      }
      return false;
    }

    /** The delivery loop body of idle, lines 279-316, for one entry epoll_wait returned. */
    method DeliverOne(fd: nat, readable: bool, writable: bool, broken: bool, up: bool) returns (aborted: bool)
      requires Valid() && fd < |contexts|
      modifies this`pendingEventCount, this`epoll, contexts, scheduler`taskPools, scheduler`tickles
      ensures var d := Deliver(old(View()), fd, ReadyEvents(readable, writable, broken), up);
              && (aborted <==> d == Aborted)
              && (d == Skipped ==> View() == old(View()) && scheduler.taskPools == old(scheduler.taskPools))
              && (d.Delivered? ==> View() == d.io && scheduler.taskPools == old(scheduler.taskPools) + d.tasks)
      ensures !aborted ==> Valid()
    {
      hide TotalBits, KernelOk, CountOk, SlotsOk, Inv, TriggerBoth;
      ghost var before := View();
      EntryFacts(fd);
      var realEvent: set<Event> := {};
      if readable || broken {
        realEvent := realEvent + {READ};
      }
      if writable || broken {
        realEvent := realEvent + {WRITE};
      }
      assert realEvent == ReadyEvents(readable, writable, broken);
      var fdCtx := contexts[fd];
      assert fdCtx.State() == before.fds[fd];
      if fdCtx.events * realEvent == {} {
        return false;
      }
      var leftEvents := fdCtx.events - realEvent;
      var op := if leftEvents != {} then MOD else DEL;
      assert CtlLegal(epoll, op, fd) by { assert fdCtx.events != {}; }
      if !up {
        return false;
      }
      epoll := if op == MOD then epoll[fd := leftEvents] else epoll - {fd};
      assert View() == before.(kernel := epoll);
      aborted := TriggerReady(fd, realEvent);
      assert !aborted ==> Valid() by { DeliverKeepsInv(before, fd, realEvent, up); }
    }
  }

  /** EPOLLERR and EPOLLHUP count as both directions (lines 281-290). */
  function ReadyEvents(readable: bool, writable: bool, broken: bool): (s: set<Event>)
    ensures READ in s <==> readable || broken
    ensures WRITE in s <==> writable || broken
  {
    (if readable || broken then {READ} else {}) + (if writable || broken then {WRITE} else {})
  }
}
