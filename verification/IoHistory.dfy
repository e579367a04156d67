/** Runs of one IOManager's event bookkeeping: which thread a callback's continuation is pinned to. */
module IoHistory {
  import opened Wrappers
  import opened TaskPool
  import opened IoEvents

  datatype Op =
    | Add(slot: Slot, cb: Option<Callback>, co: nat, tid: nat, up: bool)
    | Del(slot: Slot, up: bool)
    | Cancel(slot: Slot, up: bool)
    | CancelAll(fd: nat, up: bool)
    | DeliverAt(fd: nat, ready: set<Event>, up: bool)

  /** Threads have numbers other than 0; delivery is for a descriptor of the table, and is not fatal. */
  predicate Legal(io: Io, op: Op) {
    match op
    case Add(_, _, _, tid, _) => tid != 0
    case DeliverAt(fd, ready, up) => fd < |io.fds| && !Mismatched(io, fd, ready, up)
    case _ => true
  }

  /** The readiness meets the registered events without being among them: the case of line 36. */
  predicate Mismatched(io: Io, fd: nat, ready: set<Event>, up: bool) {
    fd < |io.fds| && up && io.fds[fd].events * ready != {} && !(ready <= io.fds[fd].events)
  }

  /** Bookkeeping out of order would be left as it is; no run reaches it (see RunInv). */
  ghost function Step(io: Io, op: Op): Io
    requires Legal(io, op)
  {
    if !Inv(io) then io
    else match op
      case Add(slot, cb, co, tid, up) => AddEvent(io, slot.fd, slot.event, cb, co, tid, up).0
      case Del(slot, up) => DelEvent(io, slot.fd, slot.event, up).0
      case Cancel(slot, up) => CancelEvent(io, slot.fd, slot.event, up).0
      case CancelAll(fd, up) => CancelAllEvent(io, fd, up).0
      case DeliverAt(fd, ready, up) => Delivered(io, Deliver(io, fd, ready, up))
  }

  function Delivered(io: Io, d: Delivery): Io {
    if d.Delivered? then d.io else io
  }

  ghost predicate Run(ops: seq<Op>, ios: seq<Io>) {
    && |ios| == |ops| + 1 && ios[0] == INITIAL
    && forall k :: 0 <= k < |ops| ==> Legal(ios[k], ops[k]) && ios[k + 1] == Step(ios[k], ops[k])
  }

  // ---------------------------------------------------------------- the invariant along a run

  lemma StepInv(io: Io, op: Op)
    requires Inv(io) && Legal(io, op)
    ensures Inv(Step(io, op))
  {
    hide Inv, AddEvent, DelEvent, CancelEvent, CancelAllEvent, Deliver;
    match op
    case Add(slot, cb, co, tid, up) => AddEventKeepsInv(io, slot.fd, slot.event, cb, co, tid, up);
    case Del(slot, up) => DelEventKeepsInv(io, slot.fd, slot.event, up);
    case Cancel(slot, up) => CancelEventKeepsInv(io, slot.fd, slot.event, up);
    case CancelAll(fd, up) => CancelAllKeepsInv(io, fd, up);
    case DeliverAt(fd, ready, up) => DeliverKeepsInv(io, fd, ready, up);
  }

  lemma {:induction false} RunInv(ops: seq<Op>, ios: seq<Io>, k: nat)
    requires Run(ops, ios) && k <= |ops|
    ensures Inv(ios[k])
  {
    hide Inv, Step, Legal;
    if k == 0 {
      InitialInv();
    } else {
      RunInv(ops, ios, k - 1);
      StepInv(ios[k - 1], ops[k - 1]);
    }
  }

  // ---------------------------------------------------------------- the thread number of a slot

  function ThreadAt(io: Io, slot: Slot): nat {
    if slot.fd < |io.fds| then io.fds[slot.fd].Ctx(slot.event).threadId else 0
  }

  /** A coroutine is registered on the slot. */
  predicate Pins(io: Io, op: Op, slot: Slot) {
    op.Add? && op.slot == slot && op.cb == None && op.up && !Registered(io, slot.fd, slot.event)
  }

  /** The slot's event is deleted. */
  predicate Unpins(io: Io, op: Op, slot: Slot) {
    op.Del? && op.slot == slot && op.up && Registered(io, slot.fd, slot.event)
  }

  lemma AddThread(io: Io, slot: Slot, cb: Option<Callback>, co: nat, tid: nat, up: bool, x: Slot)
    requires Inv(io)
    ensures var io' := AddEvent(io, slot.fd, slot.event, cb, co, tid, up).0;
            ThreadAt(io', x) == if x == slot && cb == None && up && !Registered(io, slot.fd, slot.event) then tid else ThreadAt(io, x)
  {
    hide Inv, KernelCtl;
    AddEventKeepsInv(io, slot.fd, slot.event, cb, co, tid, up);
    GrowKeepsInv(io, slot.fd);
    GrownThread(io, slot.fd, x);
  }

  lemma GrownThread(io: Io, fd: nat, x: Slot)
    ensures ThreadAt(io.(fds := Grow(io.fds, fd)), x) == ThreadAt(io, x)
    ensures |Grow(io.fds, fd)| >= |io.fds|
  {
    var grown := Grow(io.fds, fd);
    if |io.fds| <= x.fd < |grown| { assert grown[x.fd] in NewFds(Missing(|io.fds|, fd)); }
  }

  lemma DelThread(io: Io, slot: Slot, up: bool, x: Slot)
    requires Inv(io)
    ensures var io' := DelEvent(io, slot.fd, slot.event, up).0;
            ThreadAt(io', x) == if x == slot && up && Registered(io, slot.fd, slot.event) then 0 else ThreadAt(io, x)
  {
    hide Inv, Unmask;
    DelEventKeepsInv(io, slot.fd, slot.event, up);
  }

  /** triggerEvent leaves the number where it is. */
  lemma TriggerThread(io: Io, fd: nat, e: Event, wanted: bool, x: Slot)
    requires SlotsOk(io)
    ensures ThreadAt(TriggerIf(io, fd, e, wanted).0, x) == ThreadAt(io, x)
  {
  }

  lemma TriggerBothThread(io: Io, fd: nat, wanted: set<Event>, x: Slot)
    requires SlotsOk(io)
    ensures ThreadAt(TriggerBoth(io, fd, wanted).0, x) == ThreadAt(io, x)
  {
    hide TriggerIf, SlotsOk, ThreadAt;
    TriggerThread(io, fd, READ, READ in wanted, x);
    TriggerKeepsSlots(io, fd, READ, READ in wanted);
    TriggerThread(TriggerIf(io, fd, READ, READ in wanted).0, fd, WRITE, WRITE in wanted, x);
  }

  lemma CancelThread(io: Io, slot: Slot, up: bool, x: Slot)
    requires Inv(io)
    ensures ThreadAt(CancelEvent(io, slot.fd, slot.event, up).0, x) == ThreadAt(io, x)
  {
    hide Unmask, KernelOk, CountOk;
    if Registered(io, slot.fd, slot.event) {
      var k := Unmask(io, slot.fd, slot.event, up);
      if k.Some? { TriggerThread(io.(kernel := k.value), slot.fd, slot.event, true, x); }
    }
  }

  lemma CancelAllThread(io: Io, fd: nat, up: bool, x: Slot)
    requires Inv(io)
    ensures ThreadAt(CancelAllEvent(io, fd, up).0, x) == ThreadAt(io, x)
  {
    hide KernelOk, CountOk, TriggerBoth, KernelCtl;
    if fd < |io.fds| && io.fds[fd].events != {} {
      var k := KernelCtl(io.kernel, DEL, fd, {}, up);
      if k.Some? { TriggerBothThread(io.(kernel := k.value), fd, {READ, WRITE}, x); }
    }
  }

  lemma DeliverThread(io: Io, fd: nat, ready: set<Event>, up: bool, x: Slot)
    requires Inv(io) && fd < |io.fds|
    ensures ThreadAt(Delivered(io, Deliver(io, fd, ready, up)), x) == ThreadAt(io, x)
  {
    hide KernelOk, CountOk, TriggerBoth, KernelCtl;
    var left := io.fds[fd].events - ready;
    var k := KernelCtl(io.kernel, RemoveOp(left), fd, left, up);
    if k.Some? { TriggerBothThread(io.(kernel := k.value), fd, ready, x); }
  }

  /** Only two things change the number: a coroutine's registration and a deletion. */
  lemma StepThread(io: Io, op: Op, x: Slot)
    requires Inv(io) && Legal(io, op)
    ensures ThreadAt(Step(io, op), x)
            == if Pins(io, op, x) then op.tid else if Unpins(io, op, x) then 0 else ThreadAt(io, x)
  {
    hide Inv, AddEvent, DelEvent, CancelEvent, CancelAllEvent, Deliver, Delivered, ThreadAt;
    match op
    case Add(slot, cb, co, tid, up) => AddThread(io, slot, cb, co, tid, up, x);
    case Del(slot, up) => DelThread(io, slot, up, x);
    case Cancel(slot, up) => CancelThread(io, slot, up, x);
    case CancelAll(fd, up) => CancelAllThread(io, fd, up, x);
    case DeliverAt(fd, ready, up) => DeliverThread(io, fd, ready, up, x);
  }

  // ---------------------------------------------------------------- whole runs

  /** No coroutine was registered on the slot since the event was last deleted there. */
  ghost predicate Unpinned(ops: seq<Op>, ios: seq<Io>, k: nat, x: Slot)
    requires k <= |ops| < |ios|
  {
    forall i :: 0 <= i < k && Pins(ios[i], ops[i], x) ==> exists j :: i < j < k && Unpins(ios[j], ops[j], x)
  }

  lemma UnpinnedStep(ops: seq<Op>, ios: seq<Io>, k: nat, x: Slot)
    requires k < |ops| < |ios|
    ensures Unpinned(ops, ios, k + 1, x)
            <==> !Pins(ios[k], ops[k], x) && (Unpins(ios[k], ops[k], x) || Unpinned(ops, ios, k, x))
  {
    if Unpinned(ops, ios, k + 1, x) {
      assert !Pins(ios[k], ops[k], x);
      if !Unpins(ios[k], ops[k], x) {
        forall i | 0 <= i < k && Pins(ios[i], ops[i], x)
          ensures exists j :: i < j < k && Unpins(ios[j], ops[j], x)
        {
          var j :| i < j < k + 1 && Unpins(ios[j], ops[j], x);
          assert j < k;
        }
      }
    }
    if !Pins(ios[k], ops[k], x) && Unpins(ios[k], ops[k], x) {
      forall i | 0 <= i < k + 1 && Pins(ios[i], ops[i], x)
        ensures exists j :: i < j < k + 1 && Unpins(ios[j], ops[j], x)
      {
        assert i < k < k + 1;
      }
    }
    if !Pins(ios[k], ops[k], x) && Unpinned(ops, ios, k, x) {
      forall i | 0 <= i < k + 1 && Pins(ios[i], ops[i], x)
        ensures exists j :: i < j < k + 1 && Unpins(ios[j], ops[j], x)
      {
        var j :| i < j < k && Unpins(ios[j], ops[j], x);
        assert j < k + 1;
      }
    }
  }

  lemma {:induction false} ThreadIffPinned(ops: seq<Op>, ios: seq<Io>, k: nat, x: Slot)
    requires Run(ops, ios) && k <= |ops|
    ensures ThreadAt(ios[k], x) == 0 <==> Unpinned(ops, ios, k, x)
  {
    hide Step, ThreadAt, Unpinned, Pins, Unpins, Inv;
    if k == 0 {
      NothingPinned(ops, ios, x);
    } else {
      ThreadIffPinned(ops, ios, k - 1, x);
      RunInv(ops, ios, k - 1);
      StepThread(ios[k - 1], ops[k - 1], x);
      UnpinnedStep(ops, ios, k - 1, x);
      PinsHaveThreads(ios[k - 1], ops[k - 1], x);
    }
  }

  lemma NothingPinned(ops: seq<Op>, ios: seq<Io>, x: Slot)
    requires |ios| == |ops| + 1 && ios[0] == INITIAL
    ensures ThreadAt(ios[0], x) == 0 && Unpinned(ops, ios, 0, x)
  {
    if x.fd < |INITIAL.fds| { assert INITIAL.fds[x.fd] in INITIAL.fds; }
  }

  lemma PinsHaveThreads(io: Io, op: Op, x: Slot)
    requires Legal(io, op)
    ensures Pins(io, op, x) ==> op.Add? && op.tid != 0 && !Unpins(io, op, x)
  {
  }

  /** Over every sequence of additions, deletions, cancellations and deliveries: a callback that waits on a
      slot may run on any thread exactly if no coroutine was registered there since the slot's last
      successful deletion; otherwise it is pinned to a thread that has nothing to do with it. */
  lemma CallbackUnpinnedIff(ops: seq<Op>, ios: seq<Io>, k: nat, x: Slot)
    requires Run(ops, ios) && k <= |ops|
    requires Registered(ios[k], x.fd, x.event) && ios[k].fds[x.fd].Ctx(x.event).cb.Some?
    ensures ios[k].fds[x.fd].Ctx(x.event).Continuation().threadId == 0 <==> Unpinned(ops, ios, k, x)
  {
    ThreadIffPinned(ops, ios, k, x);
  }

  /** And at the moment of its registration: the number it gets is the one the slot was left with. */
  lemma RegisteredUnpinnedIff(ops: seq<Op>, ios: seq<Io>, k: nat)
    requires Run(ops, ios) && k < |ops| && ops[k].Add? && ops[k].cb.Some? && ops[k].up
    requires !Registered(ios[k], ops[k].slot.fd, ops[k].slot.event)
    ensures var x, io := ops[k].slot, ios[k + 1];
            && Registered(io, x.fd, x.event) && io.fds[x.fd].Ctx(x.event).cb == ops[k].cb
            && (io.fds[x.fd].Ctx(x.event).Continuation().threadId == 0 <==> Unpinned(ops, ios, k, x))
  {
    hide AddEvent, Unpinned, Inv;
    var Add(x, cb, co, tid, up) := ops[k];
    RunInv(ops, ios, k);
    assert Legal(ios[k], ops[k]) && ios[k + 1] == Step(ios[k], ops[k]);
    AddEventKeepsInv(ios[k], x.fd, x.event, cb, co, tid, up);
    AddThread(ios[k], x, cb, co, tid, up, x);
    ThreadIffPinned(ops, ios, k, x);
  }
}
