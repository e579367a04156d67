/** Event registration (src/iomanager.cpp).

    `Io` is the value of everything the functions under an fd lock touch: one context per descriptor,
    the interest mask the kernel holds for it, and the pending counter.  The functions say what each
    locked section does to that value; class IoManager.IoManager does it to FdContext objects in place. */
module IoEvents {
  import opened Wrappers
  import opened TaskPool

  datatype Event = READ | WRITE

  datatype CtlOp = ADD | MOD | DEL

  datatype EventCtx = EventCtx(scheduler: bool, threadId: nat, co: Option<nat>, cb: Option<Callback>) {
    /** What triggerEvent hands to the scheduler: the callback if there is one, else the coroutine. */
    function Continuation(): (task: Task)
      requires cb.Some? || co.Some?
    {
      Task(if cb.Some? then Cb(cb.value) else Co(co.value), threadId)
    }

    predicate Vacant() {
      !scheduler && co == None && cb == None
    }

    predicate Occupied() {
      scheduler && co.Some? != cb.Some?
    }
  }

  const EMPTY := EventCtx(false, 0, None, None)

  datatype FdState = FdState(events: set<Event>, read: EventCtx, write: EventCtx) {
    function Ctx(e: Event): EventCtx {
      if e == READ then read else write
    }

    function WithCtx(e: Event, ctx: EventCtx): (f: FdState)
      ensures f.events == events && f.Ctx(e) == ctx
      ensures forall o :: o != e ==> f.Ctx(o) == Ctx(o)
    {
      if e == READ then this.(read := ctx) else this.(write := ctx)
    }

    /** A bit is set iff its context holds a scheduler and exactly one of coroutine and callback. */
    ghost predicate Ok() {
      forall e: Event :: if e in events then Ctx(e).Occupied() else Ctx(e).Vacant()
    }
  }

  const NEW_FD := FdState({}, EMPTY, EMPTY)
  const INITIAL_FDS: nat := 64
  const SIZE_MAX: nat := 0xFFFF_FFFF_FFFF_FFFF

  datatype Io = Io(fds: seq<FdState>, kernel: map<nat, set<Event>>, pending: nat)

  datatype Slot = Slot(fd: nat, event: Event)

  function NewFds(n: nat): (fds: seq<FdState>)
    ensures |fds| == n && forall f :: f in fds ==> f == NEW_FD
  {
    seq(n, i => NEW_FD)
  }

  const INITIAL := Io(NewFds(INITIAL_FDS), map[], 0)

  /** epoll_ctl: fails when the operation does not fit what is registered, or when the kernel says so. */
  function KernelCtl(kernel: map<nat, set<Event>>, op: CtlOp, fd: nat, mask: set<Event>, up: bool)
    : Option<map<nat, set<Event>>>
  {
    if !up || !CtlLegal(kernel, op, fd) then None
    else if op == DEL then Some(kernel - {fd})
    else Some(kernel[fd := mask])
  }

  predicate CtlLegal(kernel: map<nat, set<Event>>, op: CtlOp, fd: nat) {
    op == ADD <==> fd !in kernel
  }

  /** The unsigned decrement of the pending counter, wrap-around included. */
  function Decrement(count: nat): nat {
    if count == 0 then SIZE_MAX else count - 1
  }

  /** Line 85: the context table grows to one and a half times the descriptor. */
  function Grow(fds: seq<FdState>, fd: nat): seq<FdState> {
    if fd < |fds| then fds else fds + NewFds(Missing(|fds|, fd))
  }

  function Missing(size: nat, fd: nat): nat {
    if fd * 3 / 2 > size then fd * 3 / 2 - size else 0
  }

  function AddOp(events: set<Event>): CtlOp {
    if events != {} then MOD else ADD
  }

  function RemoveOp(left: set<Event>): CtlOp {
    if left != {} then MOD else DEL
  }

  /** addEvent on behalf of coroutine `co` running on thread `tid`. */
  function AddEvent(io: Io, fd: nat, e: Event, cb: Option<Callback>, co: nat, tid: nat, up: bool): (r: (Io, bool))
    requires |io.fds| >= INITIAL_FDS
    ensures r.1 ==> Registered(r.0, fd, e)
    ensures r.1 ==> if cb.Some? then r.0.fds[fd].Ctx(e).cb == cb
                    else r.0.fds[fd].Ctx(e).co == Some(co) && r.0.fds[fd].Ctx(e).threadId == tid
  {
    var grown := io.(fds := Grow(io.fds, fd));
    var f := grown.fds[fd];
    if e in f.events then (grown, false)
    else
      var k := KernelCtl(io.kernel, AddOp(f.events), fd, f.events + {e}, up);
      if k == None then (grown, false)
      else
        var ctx := f.Ctx(e);
        var ctx' := if cb.Some? then ctx.(scheduler := true, cb := cb)
                    else ctx.(scheduler := true, co := Some(co), threadId := tid);
        var f' := f.(events := f.events + {e}).WithCtx(e, ctx');
        (Io(grown.fds[fd := f'], k.value, io.pending + 1), true)
  }

  /** addEvent dies on the assertion of line 113: the kernel takes the new mask, but the context is not
      free. */
  predicate AddAborts(io: Io, fd: nat, e: Event, up: bool)
    requires |io.fds| >= INITIAL_FDS
  {
    var f := Grow(io.fds, fd)[fd];
    e !in f.events && !f.Ctx(e).Vacant() && KernelCtl(io.kernel, AddOp(f.events), fd, f.events + {e}, up).Some?
  }

  function Registered(io: Io, fd: nat, e: Event): bool {
    fd < |io.fds| && e in io.fds[fd].events
  }

  /** The first half of delEvent and cancelEvent: drop one bit from the kernel's mask. */
  function Unmask(io: Io, fd: nat, e: Event, up: bool): Option<map<nat, set<Event>>>
    requires fd < |io.fds|
  {
    var left := io.fds[fd].events - {e};
    KernelCtl(io.kernel, RemoveOp(left), fd, left, up)
  }

  function DelEvent(io: Io, fd: nat, e: Event, up: bool): (Io, bool) {
    if !Registered(io, fd, e) then (io, false)
    else
      var k := Unmask(io, fd, e, up);
      if k == None then (io, false)
      else
        var f := io.fds[fd];
        (Io(io.fds[fd := f.(events := f.events - {e}).WithCtx(e, EMPTY)], k.value, Decrement(io.pending)), true)
  }

  /** triggerEvent, and the decrement that follows it: the bit goes, the continuation is handed over,
      the thread id stays behind in the context. */
  function Trigger(io: Io, fd: nat, e: Event): (Io, Task)
    requires Registered(io, fd, e)
    requires io.fds[fd].Ctx(e).Occupied()
  {
    var f := io.fds[fd];
    var ctx := f.Ctx(e);
    var ctx' := if ctx.cb.Some? then ctx.(scheduler := false, cb := None) else ctx.(scheduler := false, co := None);
    var f' := f.(events := f.events - {e}).WithCtx(e, ctx');
    (io.(fds := io.fds[fd := f'], pending := Decrement(io.pending)), ctx.Continuation())
  }

  /** Trigger for an event that may not be wanted or set. */
  function TriggerIf(io: Io, fd: nat, e: Event, wanted: bool): (Io, seq<Task>)
    requires SlotsOk(io)
  {
    if wanted && Registered(io, fd, e) then
      var (io', task) := Trigger(io, fd, e);
      (io', [task])
    else (io, [])
  }

  function CancelEvent(io: Io, fd: nat, e: Event, up: bool): (Io, bool, seq<Task>)
    requires SlotsOk(io)
  {
    if !Registered(io, fd, e) then (io, false, [])
    else
      var k := Unmask(io, fd, e, up);
      if k == None then (io, false, [])
      else
        var (io', task) := Trigger(io.(kernel := k.value), fd, e);
        (io', true, [task])
  }

  /** READ is triggered before WRITE. */
  function TriggerBoth(io: Io, fd: nat, wanted: set<Event>): (Io, seq<Task>)
    requires SlotsOk(io)
  {
    var (io1, t1) := TriggerIf(io, fd, READ, READ in wanted);
    TriggerKeepsSlots(io, fd, READ, READ in wanted);
    var (io2, t2) := TriggerIf(io1, fd, WRITE, WRITE in wanted);
    (io2, t1 + t2)
  }

  function CancelAllEvent(io: Io, fd: nat, up: bool): (Io, bool, seq<Task>)
    requires SlotsOk(io)
  {
    if fd >= |io.fds| || io.fds[fd].events == {} then (io, false, [])
    else
      var k := KernelCtl(io.kernel, DEL, fd, {}, up);
      if k == None then (io, false, [])
      else
        var (io', tasks) := TriggerBoth(io.(kernel := k.value), fd, {READ, WRITE});
        (io', true, tasks)
  }

  datatype Delivery = Skipped | Delivered(io: Io, tasks: seq<Task>) | Aborted

  /** One turn of the delivery loop in idle, for readiness `ready`.  Lines 308-315 trigger every ready
      event, set or not, and triggerEvent asserts that its bit is set. */
  function Deliver(io: Io, fd: nat, ready: set<Event>, up: bool): Delivery
    requires SlotsOk(io)
    requires fd < |io.fds|
  {
    var f := io.fds[fd];
    if f.events * ready == {} then Skipped
    else
      var left := f.events - ready;
      var k := KernelCtl(io.kernel, RemoveOp(left), fd, left, up);
      if k == None then Skipped
      else if !(ready <= f.events) then Aborted
      else
        var (io', tasks) := TriggerBoth(io.(kernel := k.value), fd, ready);
        Delivered(io', tasks)
  }

  // ---------------------------------------------------------------- the bookkeeping invariant

  ghost predicate SlotsOk(io: Io) {
    forall i :: 0 <= i < |io.fds| ==> io.fds[i].Ok()
  }

  /** The kernel's mask of each descriptor is exactly the events of its context, absent iff none. */
  ghost predicate KernelOk(io: Io) {
    && (forall k :: k in io.kernel ==> k < |io.fds|)
    && (forall i :: 0 <= i < |io.fds| ==> (i in io.kernel <==> io.fds[i].events != {}))
    && (forall i :: 0 <= i < |io.fds| && i in io.kernel ==> io.kernel[i] == io.fds[i].events)
  }

  function Bits(events: set<Event>): nat {
    (if READ in events then 1 else 0) + (if WRITE in events then 1 else 0)
  }

  function TotalBits(fds: seq<FdState>): nat {
    if fds == [] then 0 else TotalBits(fds[..|fds| - 1]) + Bits(fds[|fds| - 1].events)
  }

  ghost predicate CountOk(io: Io) {
    io.pending == TotalBits(io.fds)
  }

  ghost predicate Inv(io: Io) {
    |io.fds| >= INITIAL_FDS && SlotsOk(io) && KernelOk(io) && CountOk(io)
  }

  lemma {:induction false} TotalBitsUpdate(fds: seq<FdState>, fd: nat, f: FdState)
    requires fd < |fds|
    ensures TotalBits(fds[fd := f]) == TotalBits(fds) - Bits(fds[fd].events) + Bits(f.events)
  {
    var n := |fds| - 1;
    if fd == n {
      assert fds[fd := f][..n] == fds[..n];
    } else {
      assert fds[fd := f][..n] == fds[..n][fd := f];
      TotalBitsUpdate(fds[..n], fd, f);
    }
  }

  lemma {:induction false} TotalBitsOfNew(fds: seq<FdState>, more: seq<FdState>)
    requires forall f :: f in more ==> f.events == {}
    ensures TotalBits(fds + more) == TotalBits(fds)
  {
    if more == [] {
      assert fds + more == fds;
    } else {
      var n := |more| - 1;
      assert (fds + more)[..|fds| + n] == fds + more[..n];
      assert more[n] in more;
      TotalBitsOfNew(fds, more[..n]);
    }
  }

  lemma {:induction false} TotalBitsPositive(fds: seq<FdState>, fd: nat, e: Event)
    requires fd < |fds| && e in fds[fd].events
    ensures TotalBits(fds) > 0
  {
    if fd < |fds| - 1 {
      TotalBitsPositive(fds[..|fds| - 1], fd, e);
    }
  }

  lemma {:induction false} TotalBitsZero(fds: seq<FdState>)
    requires forall f :: f in fds ==> f.events == {}
    ensures TotalBits(fds) == 0
  {
    TotalBitsOfNew([], fds);
    assert [] + fds == fds;
  }

  /** No event is pending exactly when no bit is set anywhere. */
  lemma PendingZero(io: Io)
    requires CountOk(io)
    ensures io.pending == 0 <==> forall i, e :: 0 <= i < |io.fds| ==> e !in io.fds[i].events
  {
    if io.pending == 0 {
      forall i, e | 0 <= i < |io.fds|
        ensures e !in io.fds[i].events
      {
        if e in io.fds[i].events { TotalBitsPositive(io.fds, i, e); }
      }
    }
    if forall i, e :: 0 <= i < |io.fds| ==> e !in io.fds[i].events {
      forall f | f in io.fds
        ensures f.events == {}
      {
        var i :| 0 <= i < |io.fds| && io.fds[i] == f;
      }
      TotalBitsZero(io.fds);
    }
  }

  lemma InitialInv()
    ensures Inv(INITIAL) && |INITIAL.fds| == 64
  {
    TotalBitsZero(INITIAL.fds);
  }

  lemma GrowKeepsInv(io: Io, fd: nat)
    requires Inv(io)
    ensures var g := io.(fds := Grow(io.fds, fd)); Inv(g) && fd < |g.fds|
    ensures forall i :: 0 <= i < |io.fds| ==> Grow(io.fds, fd)[i] == io.fds[i]
    ensures forall i :: |io.fds| <= i < |Grow(io.fds, fd)| ==> Grow(io.fds, fd)[i] == NEW_FD
  {
    if fd >= |io.fds| {
      TotalBitsOfNew(io.fds, NewFds(Missing(|io.fds|, fd)));
    }
  }

  /** The table only grows for a descriptor beyond it, to one and a half times that. */
  lemma GrowSize(fds: seq<FdState>, fd: nat)
    requires |fds| >= 64
    ensures |Grow(fds, fd)| == if fd < |fds| then |fds| else fd * 3 / 2
    ensures fds <= Grow(fds, fd) && fd < |Grow(fds, fd)|
  {
  }

  lemma TriggerKeepsSlots(io: Io, fd: nat, e: Event, wanted: bool)
    requires SlotsOk(io)
    ensures SlotsOk(TriggerIf(io, fd, e, wanted).0)
  {
  }

  /** The counter follows the bits and never wraps, whatever the kernel's mask is meanwhile. */
  lemma TriggerKeepsCount(io: Io, fd: nat, e: Event)
    requires SlotsOk(io) && CountOk(io) && Registered(io, fd, e)
    ensures io.pending > 0
    ensures CountOk(Trigger(io, fd, e).0)
  {
    TotalBitsPositive(io.fds, fd, e);
    TotalBitsUpdate(io.fds, fd, Trigger(io, fd, e).0.fds[fd]);
  }

  /** What is registered for some events, READ before WRITE. */
  ghost function Continuations(f: FdState, events: set<Event>): (tasks: seq<Task>)
    requires f.Ok() && events <= f.events
    ensures |tasks| == Bits(events)
  {
    (if READ in events then [f.Ctx(READ).Continuation()] else []) +
    (if WRITE in events then [f.Ctx(WRITE).Continuation()] else [])
  }

  lemma TriggerBothKeeps(io: Io, fd: nat, wanted: set<Event>)
    requires fd < |io.fds|
    requires SlotsOk(io) && CountOk(io)
    ensures var (io', tasks) := TriggerBoth(io, fd, wanted);
            && SlotsOk(io') && CountOk(io') && io'.kernel == io.kernel && |io'.fds| == |io.fds|
            && io'.fds[fd].events == io.fds[fd].events - wanted
            && tasks == Continuations(io.fds[fd], io.fds[fd].events * wanted)
            && (forall i :: 0 <= i < |io.fds| && i != fd ==> io'.fds[i] == io.fds[i])
  {
    TriggerKeepsSlots(io, fd, READ, READ in wanted);
    var io1 := TriggerIf(io, fd, READ, READ in wanted).0;
    if READ in wanted && Registered(io, fd, READ) { TriggerKeepsCount(io, fd, READ); }
    TriggerKeepsSlots(io1, fd, WRITE, WRITE in wanted);
    if WRITE in wanted && Registered(io1, fd, WRITE) { TriggerKeepsCount(io1, fd, WRITE); }
    var io2 := TriggerIf(io1, fd, WRITE, WRITE in wanted).0;
    assert io2.fds[fd].events == io.fds[fd].events - wanted by {
      forall e: Event
        ensures e in io2.fds[fd].events <==> e in io.fds[fd].events - wanted
      {
      }
    }
  }

  /** Writing one context, with the kernel's mask and the counter following it. */
  function Put(io: Io, fd: nat, f: FdState, pending: nat): Io
    requires fd < |io.fds|
  {
    Io(io.fds[fd := f], if f.events == {} then io.kernel - {fd} else io.kernel[fd := f.events], pending)
  }

  lemma PutKeepsInv(io: Io, fd: nat, f: FdState, pending: nat)
    requires Inv(io) && fd < |io.fds| && f.Ok()
    requires pending == io.pending - Bits(io.fds[fd].events) + Bits(f.events)
    ensures Inv(Put(io, fd, f, pending))
  {
    TotalBitsUpdate(io.fds, fd, f);
  }

  lemma RemovingLeavesOk(f: FdState, e: Event, ctx: EventCtx)
    requires f.Ok() && ctx.Vacant()
    ensures f.(events := f.events - {e}).WithCtx(e, ctx).Ok()
  {
  }

  lemma AddingLeavesOk(f: FdState, e: Event, ctx: EventCtx)
    requires f.Ok() && ctx.Occupied()
    ensures f.(events := f.events + {e}).WithCtx(e, ctx).Ok()
  {
  }

  /** addEvent: the operation it picks is legal, so only the kernel's own refusal makes it fail on a
      free slot; the assertion on the context holds; the invariant is kept. */
  lemma AddEventKeepsInv(io: Io, fd: nat, e: Event, cb: Option<Callback>, co: nat, tid: nat, up: bool)
    requires Inv(io)
    ensures var (io', ok) := AddEvent(io, fd, e, cb, co, tid, up);
            && Inv(io')
            && (ok <==> up && !Registered(io, fd, e))
            && (ok ==> Registered(io', fd, e) && io'.pending == io.pending + 1)
            && |io'.fds| == |Grow(io.fds, fd)|
            && (!ok ==> io'.pending == io.pending && io'.kernel == io.kernel)
    ensures CtlLegal(io.kernel, AddOp(Grow(io.fds, fd)[fd].events), fd)
    ensures !Registered(io, fd, e) ==> Grow(io.fds, fd)[fd].Ctx(e).Vacant()
  {
    hide TotalBits, Grow, SlotsOk, KernelOk, CountOk, Inv;
    SameRegistration(io, fd, e);
    var grown := io.(fds := Grow(io.fds, fd));
    var f := grown.fds[fd];
    if e !in f.events && up {
      var io' := AddEvent(io, fd, e, cb, co, tid, up).0;
      var f' := io'.fds[fd];
      AddingLeavesOk(f, e, f'.Ctx(e));
      PutKeepsInv(grown, fd, f', io.pending + 1);
      assert io' == Put(grown, fd, f', io.pending + 1);
    }
  }

  /** It never does. */
  lemma AddNeverAborts(io: Io, fd: nat, e: Event, up: bool)
    requires Inv(io)
    ensures !AddAborts(io, fd, e, up)
  {
    hide Grow, Inv;
    SameRegistration(io, fd, e);
  }

  lemma SameRegistration(io: Io, fd: nat, e: Event)
    requires Inv(io)
    ensures Inv(io.(fds := Grow(io.fds, fd))) && fd < |Grow(io.fds, fd)|
    ensures Registered(io, fd, e) <==> e in Grow(io.fds, fd)[fd].events
    ensures fd in io.kernel <==> Grow(io.fds, fd)[fd].events != {}
    ensures |io.fds| >= INITIAL_FDS && Grow(io.fds, fd)[fd].Ok()
  {
    GrowKeepsInv(io, fd);
  }

  lemma DelEventKeepsInv(io: Io, fd: nat, e: Event, up: bool)
    requires Inv(io)
    ensures var (io', ok) := DelEvent(io, fd, e, up);
            && Inv(io')
            && (ok <==> up && Registered(io, fd, e))
            && (ok ==> !Registered(io', fd, e) && io'.pending == io.pending - 1)
            && (!ok ==> io' == io)
  {
    if Registered(io, fd, e) && up {
      var f := io.fds[fd];
      TotalBitsPositive(io.fds, fd, e);
      RemovingLeavesOk(f, e, EMPTY);
      var f' := f.(events := f.events - {e}).WithCtx(e, EMPTY);
      PutKeepsInv(io, fd, f', io.pending - 1);
      assert DelEvent(io, fd, e, up).0 == Put(io, fd, f', io.pending - 1);
    }
  }

  lemma CancelEventKeepsInv(io: Io, fd: nat, e: Event, up: bool)
    requires Inv(io)
    ensures var (io', ok, tasks) := CancelEvent(io, fd, e, up);
            && Inv(io')
            && (ok <==> up && Registered(io, fd, e))
            && (ok ==> !Registered(io', fd, e) && io'.pending == io.pending - 1)
            && (ok ==> tasks == [io.fds[fd].Ctx(e).Continuation()])
            && (!ok ==> io' == io && tasks == [])
  {
    hide TotalBits;
    if Registered(io, fd, e) && up {
      assert e in io.fds[fd].events;
      var left := io.fds[fd].events - {e};
      var k := Unmask(io, fd, e, up);
      var io1 := io.(kernel := k.value);
      TriggerKeepsCount(io1, fd, e);
      TriggerShape(io1, fd, e);
      TriggerKeepsSlots(io1, fd, e, true);
      KernelFollows(io, Trigger(io1, fd, e).0, fd, left);
    }
  }

  lemma TriggerShape(io: Io, fd: nat, e: Event)
    requires SlotsOk(io) && Registered(io, fd, e)
    ensures var io' := Trigger(io, fd, e).0;
            && io'.kernel == io.kernel && |io'.fds| == |io.fds| && io'.fds[fd].events == io.fds[fd].events - {e}
            && (forall i :: 0 <= i < |io.fds| && i != fd ==> io'.fds[i] == io.fds[i])
            && TriggerIf(io, fd, e, true).0 == io'
  {
  }

  lemma CancelAllKeepsInv(io: Io, fd: nat, up: bool)
    requires Inv(io)
    ensures var (io', ok, tasks) := CancelAllEvent(io, fd, up);
            && Inv(io')
            && (ok <==> up && fd < |io.fds| && io.fds[fd].events != {})
            && (ok ==> io'.fds[fd].events == {} && tasks == Continuations(io.fds[fd], io.fds[fd].events))
            && (!ok ==> io' == io && tasks == [])
  {
    if fd < |io.fds| && io.fds[fd].events != {} && up {
      var k := KernelCtl(io.kernel, DEL, fd, {}, up);
      TriggerBothKeeps(io.(kernel := k.value), fd, {READ, WRITE});
      var io' := CancelAllEvent(io, fd, up).0;
      assert io.fds[fd].events - {READ, WRITE} == {} && io.fds[fd].events * {READ, WRITE} == io.fds[fd].events;
    }
  }

  lemma KernelFollows(io: Io, io': Io, fd: nat, left: set<Event>)
    requires KernelOk(io) && fd < |io.fds| == |io'.fds|
    requires io'.kernel == if left == {} then io.kernel - {fd} else io.kernel[fd := left]
    requires io'.fds[fd].events == left
    requires forall i :: 0 <= i < |io.fds| && i != fd ==> io'.fds[i] == io.fds[i]
    ensures KernelOk(io')
  {
  }

  /** Delivery keeps the bookkeeping, and hands over the continuations of the ready events. */
  lemma DeliverKeepsInv(io: Io, fd: nat, ready: set<Event>, up: bool)
    requires Inv(io) && fd < |io.fds|
    ensures var d := Deliver(io, fd, ready, up);
            && (d.Skipped? <==> !up || forall e :: e in ready ==> e !in io.fds[fd].events)
            && (d.Delivered? ==> Inv(d.io) && d.io.fds[fd].events == io.fds[fd].events - ready
                                 && ready <= io.fds[fd].events && d.tasks == Continuations(io.fds[fd], ready))
  {
    var f := io.fds[fd];
    if f.events * ready != {} && up && ready <= f.events {
      var left := f.events - ready;
      assert f.events != {};
      var k := KernelCtl(io.kernel, RemoveOp(left), fd, left, up);
      var io1 := io.(kernel := k.value);
      TriggerBothKeeps(io1, fd, ready);
      assert f.events * ready == ready;
      KernelFollows(io, TriggerBoth(io1, fd, ready).0, fd, left);
    }
  }

  /** Exactly when the process dies on the assertion of line 36: the kernel accepts the new mask, and
      the readiness meets the registered events without being among them. */
  lemma DeliverAbortsIff(io: Io, fd: nat, ready: set<Event>, up: bool)
    requires Inv(io) && fd < |io.fds|
    ensures Deliver(io, fd, ready, up) == Aborted
            <==> up && io.fds[fd].events * ready != {} && exists e :: e in ready && e !in io.fds[fd].events
  {
    if io.fds[fd].events * ready != {} {
      assert io.fds[fd].events != {};
    }
  }

  /** An error or hang-up on a descriptor that only waits for READ is such a case (lines 281-290). */
  lemma HangUpAborts(io: Io, fd: nat)
    requires Inv(io) && fd < |io.fds| && io.fds[fd].events == {READ}
    ensures Deliver(io, fd, {READ, WRITE}, true) == Aborted
  {
    DeliverAbortsIff(io, fd, {READ, WRITE}, true);
    assert READ in io.fds[fd].events * {READ, WRITE};
  }

  /** triggerEvent leaves the thread number in the context, and a registration with a callback does not
      set it: after a coroutine's registration was cancelled, the next callback on the same slot is
      pinned to that coroutine's thread. */
  lemma CallbackInheritsThread(io: Io, fd: nat, e: Event, cb: Callback, co: nat, tid: nat)
    requires Inv(io) && Registered(io, fd, e) && io.fds[fd].Ctx(e).co.Some?
    ensures var (io1, done, _) := CancelEvent(io, fd, e, true);
            var (io2, ok) := AddEvent(io1, fd, e, Some(cb), co, tid, true);
            && done && ok && io2.fds[fd].Ctx(e).cb.Some?
            && io2.fds[fd].Ctx(e).Continuation() == Task(Cb(cb), io.fds[fd].Ctx(e).threadId)
  {
    CancelEventKeepsInv(io, fd, e, true);
    var io1 := CancelEvent(io, fd, e, true).0;
    AddEventKeepsInv(io1, fd, e, Some(cb), co, tid, true);
  }
}
