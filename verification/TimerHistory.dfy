/** Whole runs of the timer set.

    The ordered set multiplexes every timer over one structure.  The reference is a cell per timer that
    knows of no other: the runs are shown to look, from each timer, like its own cell, and the promises
    about single timers are then proved on cells. */
module TimerHistory {
  import opened Wrappers
  import opened Timers

  datatype Op =
    | Add(a: nat, now: nat, ms: nat, cb: Option<nat>, recurring: bool)
    | CancelOne(a: nat)
    | RefreshOne(a: nat, now: nat)
    | ResetOne(a: nat, now: nat, ms: nat)
    | ExpireDue(now: nat, probe: nat)
    | CancelAllTimers

  /** One callback handed out: whose, when, for which deadline, the period at that time. */
  datatype Firing = Firing(a: nat, at: nat, due: nat, ms: nat, cb: Option<nat>)

  /** A caller names only timers it holds, and a new object has a new address. */
  predicate Legal(s: TimerSet, op: Op) {
    match op
    case Add(a, _, _, _, _) => a !in s.recs
    case CancelOne(a) => a in s.recs
    case RefreshOne(a, _) => a in s.recs
    case ResetOne(a, _, _) => a in s.recs
    case ExpireDue(_, _) => true
    case CancelAllTimers => true
  }

  function Apply(s: TimerSet, op: Op): TimerSet
    requires Ok(s) && Legal(s, op)
  {
    match op
    case Add(a, now, ms, cb, recurring) => AddTimer(s, a, now, ms, cb, recurring).0
    case CancelOne(a) => Cancel(s, a).0
    case RefreshOne(a, now) => Refresh(s, a, now).timers
    case ResetOne(a, now, ms) => Reset(s, a, now, ms).timers
    case ExpireDue(now, probe) => Expire(s, now, probe).timers
    case CancelAllTimers => CancelAll(s)
  }

  /** What the operation returns to its caller (an addTimer always succeeds). */
  function Returned(s: TimerSet, op: Op): bool
    requires Ok(s) && Legal(s, op)
  {
    match op
    case CancelOne(a) => Cancel(s, a).1
    case RefreshOne(a, now) => Refresh(s, a, now).ok
    case ResetOne(a, now, ms) => Reset(s, a, now, ms).ok
    case _ => true
  }

  function Handed(recs: map<nat, Rec>, expired: seq<nat>, now: nat): (fs: seq<Firing>)
    requires Known(recs, expired)
    ensures |fs| == |expired|
    ensures forall i :: 0 <= i < |fs| ==>
                          fs[i] == Firing(expired[i], now, recs[expired[i]].next, recs[expired[i]].ms, recs[expired[i]].cb)
  {
    seq(|expired|, i requires 0 <= i < |expired| =>
          Firing(expired[i], now, recs[expired[i]].next, recs[expired[i]].ms, recs[expired[i]].cb))
  }

  /** The callbacks one operation hands out, in order. */
  function Fired(s: TimerSet, op: Op): seq<Firing>
    requires Ok(s)
  {
    if op.ExpireDue? then Handed(s.recs, Expire(s, op.now, op.probe).expired, op.now) else []
  }

  /** A run, from the empty set: the set and the log of everything handed out so far. */
  datatype History = History(timers: TimerSet, log: seq<Firing>)

  ghost predicate Run(ops: seq<Op>, hs: seq<History>) {
    && |hs| == |ops| + 1
    && hs[0] == History(TimerSet(map[], []), [])
    && forall k :: 0 <= k < |ops| ==> Next(hs[k], ops[k], hs[k + 1])
  }

  /** A set out of order would be left as it is; no run reaches one (see RunIsSolo). */
  ghost function Step(h: History, op: Op): History
    requires Legal(h.timers, op)
  {
    if Ok(h.timers) then History(Apply(h.timers, op), h.log + Fired(h.timers, op)) else h
  }

  ghost predicate Next(h: History, op: Op, h': History) {
    Legal(h.timers, op) && h' == Step(h, op)
  }

  // ---------------------------------------------------------------- one timer on its own

  datatype Cell = Absent | Cell(rec: Rec, armed: bool)

  function View(s: TimerSet, a: nat): Cell {
    if a in s.recs then Cell(s.recs[a], a in s.armed) else Absent
  }

  predicate Due(c: Cell, now: nat) {
    c.Cell? && c.armed && c.rec.next <= now
  }

  /** What one operation does to one timer. */
  function Solo(c: Cell, op: Op, a: nat): Cell {
    match op
    case Add(b, now, ms, cb, recurring) =>
      if b == a then Cell(Rec(ms, Add64(now, ms), cb, recurring), true) else c
    case CancelOne(b) =>
      if b == a && c.Cell? && c.rec.cb.Some? then Cell(c.rec.(cb := None), false) else c
    case RefreshOne(b, now) =>
      if b == a && c.Cell? && c.rec.cb.Some? then
        (if c.armed then c.(rec := c.rec.(next := Add64(now, c.rec.ms))) else c.(rec := c.rec.(cb := None)))
      else c
    case ResetOne(b, now, ms) =>
      if b == a && c.Cell? && c.rec.cb.Some? && c.armed && ms != c.rec.ms then
        c.(rec := c.rec.(ms := ms, next := Add64(now, ms)))
      else c
    case ExpireDue(now, _) =>
      if !Due(c, now) then c
      else if c.rec.recurring then c.(rec := c.rec.(next := Add64(now, c.rec.ms)))
      else Cell(c.rec.(cb := None), false)
    case CancelAllTimers =>
      if c.Cell? && c.armed then Cell(c.rec.(cb := None), false) else c
  }

  function SoloFired(c: Cell, op: Op, a: nat): seq<Firing> {
    if op.ExpireDue? && Due(c, op.now) then [Firing(a, op.now, c.rec.next, c.rec.ms, c.rec.cb)] else []
  }

  function SoloRun(ops: seq<Op>, a: nat): (Cell, seq<Firing>) {
    if ops == [] then (Absent, [])
    else
      var (c, log) := SoloRun(ops[..|ops| - 1], a);
      var op := ops[|ops| - 1];
      (Solo(c, op, a), log + SoloFired(c, op, a))
  }

  function Only(log: seq<Firing>, a: nat): seq<Firing> {
    if log == [] then []
    else if log[|log| - 1].a == a then Only(log[..|log| - 1], a) + [log[|log| - 1]]
    else Only(log[..|log| - 1], a)
  }

  lemma {:induction false} OnlyAppends(log1: seq<Firing>, log2: seq<Firing>, a: nat)
    ensures Only(log1 + log2, a) == Only(log1, a) + Only(log2, a)
    decreases log2
  {
    if log2 == [] {
      assert log1 + log2 == log1;
    } else {
      assert (log1 + log2)[..|log1 + log2| - 1] == log1 + log2[..|log2| - 1];
      OnlyAppends(log1, log2[..|log2| - 1], a);
    }
  }

  lemma {:induction false} OnlyAbsent(log: seq<Firing>, a: nat)
    requires forall i :: 0 <= i < |log| ==> log[i].a != a
    ensures Only(log, a) == []
  {
    if log != [] { OnlyAbsent(log[..|log| - 1], a); }
  }

  /** Among firings of different timers, one timer has its own at most once. */
  lemma OnlyOnce(log: seq<Firing>, a: nat, k: nat)
    requires k < |log| && log[k].a == a
    requires forall i, j :: 0 <= i < j < |log| ==> log[i].a != log[j].a
    ensures Only(log, a) == [log[k]]
  {
    assert log == log[..k] + ([log[k]] + log[k + 1..]);
    OnlyAppends(log[..k], [log[k]] + log[k + 1..], a);
    OnlyAppends([log[k]], log[k + 1..], a);
    OnlyAbsent(log[..k], a);
    OnlyAbsent(log[k + 1..], a);
    assert [log[k]][..0] == [];
    assert Only([log[k]], a) == [log[k]];
  }

  // ---------------------------------------------------------------- the set refines the cells

  lemma ApplyKeepsOk(s: TimerSet, op: Op)
    requires Ok(s) && Legal(s, op)
    ensures Ok(Apply(s, op))
  {
    hide Sorted;
    match op
    case Add(a, now, ms, cb, recurring) => AddKeeps(s, a, now, ms, cb, recurring);
    case CancelOne(a) => CancelKeeps(s, a);
    case RefreshOne(a, now) => RefreshKeeps(s, a, now);
    case ResetOne(a, now, ms) => ResetKeeps(s, a, now, ms);
    case ExpireDue(now, probe) => ExpireIsExact(s, now, probe);
    case CancelAllTimers => CancelAllKeeps(s);
  }

  lemma ApplyIsSolo(s: TimerSet, op: Op, a: nat)
    requires Ok(s) && Legal(s, op)
    requires Bound(View(s, a))
    ensures View(Apply(s, op), a) == Solo(View(s, a), op, a)
  {
    hide Sorted;
    match op
    case Add(b, now, ms, cb, recurring) => AddKeeps(s, b, now, ms, cb, recurring);
    case CancelOne(b) => CancelKeeps(s, b);
    case RefreshOne(b, now) => RefreshKeeps(s, b, now);
    case ResetOne(b, now, ms) => ResetKeeps(s, b, now, ms);
    case ExpireDue(now, probe) => ExpireIsExact(s, now, probe);
    case CancelAllTimers =>
  }

  /** A timer that still has its callback is in the set. */
  predicate Bound(c: Cell) {
    c.Cell? && c.rec.cb.Some? ==> c.armed
  }

  lemma FiredIsSolo(s: TimerSet, op: Op, a: nat)
    requires Ok(s)
    ensures Only(Fired(s, op), a) == SoloFired(View(s, a), op, a)
  {
    hide Sorted;
    if op.ExpireDue? {
      var e := Expire(s, op.now, op.probe);
      ExpireIsExact(s, op.now, op.probe);
      var fs := Fired(s, op);
      forall i, j | 0 <= i < j < |fs|
        ensures fs[i].a != fs[j].a
      {
        SortedIsDistinct(s.recs, s.armed);
        assert s.armed[i] != s.armed[j];
      }
      if a in e.expired {
        var k :| 0 <= k < |e.expired| && e.expired[k] == a;
        OnlyOnce(fs, a, k);
        ArmedAreKnown(s);
        assert fs[k] == Firing(a, op.now, s.recs[a].next, s.recs[a].ms, s.recs[a].cb);
        assert a in s.armed && Due(View(s, a), op.now);
      } else {
        OnlyAbsent(fs, a);
      }
    }
  }

  /** Refinement, over every run: each timer's fields, its membership and its firings are those of a
      cell of its own that knows nothing of the other timers. */
  lemma {:induction false} RunIsSolo(ops: seq<Op>, hs: seq<History>, a: nat)
    requires Run(ops, hs)
    ensures Ok(hs[|ops|].timers)
    ensures (View(hs[|ops|].timers, a), Only(hs[|ops|].log, a)) == SoloRun(ops, a)
    ensures Bound(View(hs[|ops|].timers, a))
  {
    hide Ok, Solo, Apply, Fired, Legal;
    if ops == [] {
      assert Ok(TimerSet(map[], [])) by { EmptyOk(); }
    } else {
      var n := |ops| - 1;
      assert Run(ops[..n], hs[..|ops|]);
      RunIsSolo(ops[..n], hs[..|ops|], a);
      assert Next(hs[n], ops[n], hs[n + 1]);
      ApplyKeepsOk(hs[n].timers, ops[n]);
      ApplyIsSolo(hs[n].timers, ops[n], a);
      FiredIsSolo(hs[n].timers, ops[n], a);
      OnlyAppends(hs[n].log, Fired(hs[n].timers, ops[n]), a);
      SoloKeepsBound(View(hs[n].timers, a), ops[n], a);
    }
  }

  lemma EmptyOk()
    ensures Ok(TimerSet(map[], []))
  {
  }

  lemma SoloKeepsBound(c: Cell, op: Op, a: nat)
    requires Bound(c)
    ensures Bound(Solo(c, op, a))
  {
  }

  /** The prefix of a run is a run. */
  lemma RunPrefix(ops: seq<Op>, hs: seq<History>, k: nat)
    requires Run(ops, hs) && k <= |ops|
    ensures Run(ops[..k], hs[..k + 1])
  {
  }

  // ---------------------------------------------------------------- promises about one timer

  ghost predicate AddedWithCallback(ops: seq<Op>, a: nat) {
    forall k :: 0 <= k < |ops| && ops[k].Add? && ops[k].a == a ==> ops[k].cb.Some?
  }

  ghost predicate AddedOneShot(ops: seq<Op>, a: nat) {
    forall k :: 0 <= k < |ops| && ops[k].Add? && ops[k].a == a ==> !ops[k].recurring
  }

  /** In every reachable state the branches for a timer with a callback that is not in the set are dead:
      cancel and refresh succeed exactly when the callback is still there, and reset also when the
      period is the old one. */
  lemma CancelTells(ops: seq<Op>, hs: seq<History>, op: Op)
    requires Run(ops, hs) && Legal(hs[|ops|].timers, op)
    ensures Ok(hs[|ops|].timers)
    ensures var s := hs[|ops|].timers;
            && (op.CancelOne? || op.RefreshOne? ==> (Returned(s, op) <==> s.recs[op.a].cb.Some?))
            && (op.ResetOne? ==> (Returned(s, op) <==> op.ms == s.recs[op.a].ms || s.recs[op.a].cb.Some?))
  {
    var s := hs[|ops|].timers;
    match op {
      case CancelOne(a) => RunIsSolo(ops, hs, a); CancelKeeps(s, a);
      case RefreshOne(a, now) => RunIsSolo(ops, hs, a); RefreshKeeps(s, a, now);
      case ResetOne(a, now, ms) => RunIsSolo(ops, hs, a); ResetKeeps(s, a, now, ms);
      case _ => RunIsSolo(ops, hs, 0);
    }
  }

  /** How the step of a run looks from one timer; a timer is added only before it exists. */
  lemma {:induction false} SoloStep(ops: seq<Op>, hs: seq<History>, a: nat)
    requires Run(ops, hs) && ops != []
    ensures var n := |ops| - 1;
            && Run(ops[..n], hs[..n + 1])
            && Ok(hs[n].timers) && Legal(hs[n].timers, ops[n])
            && SoloRun(ops[..n], a) == (View(hs[n].timers, a), Only(hs[n].log, a))
            && SoloRun(ops, a) == (View(hs[n + 1].timers, a), Only(hs[n + 1].log, a))
            && (ops[n].Add? && ops[n].a == a ==> View(hs[n].timers, a) == Absent)
  {
    hide Sorted, Apply, Fired, Solo;
    var n := |ops| - 1;
    RunPrefix(ops, hs, n);
    RunIsSolo(ops, hs, a);
    RunIsSolo(ops[..n], hs[..n + 1], a);
    assert Next(hs[n], ops[n], hs[n + 1]);
  }

  predicate CallbackIsArmed(c: Cell) {
    c.Cell? ==> (c.rec.cb.Some? <==> c.armed)
  }

  lemma CallbackStep(c: Cell, op: Op, a: nat)
    requires CallbackIsArmed(c) && (op.Add? && op.a == a ==> op.cb.Some?)
    ensures CallbackIsArmed(Solo(c, op, a))
  {
  }

  lemma {:induction false} SoloCallback(ops: seq<Op>, hs: seq<History>, a: nat)
    requires Run(ops, hs) && AddedWithCallback(ops, a)
    ensures CallbackIsArmed(SoloRun(ops, a).0)
  {
    hide Ok, Apply, Fired, Next, Solo, SoloFired;
    if ops != [] {
      SoloStep(ops, hs, a);
      SoloCallback(ops[..|ops| - 1], hs[..|ops|], a);
      CallbackStep(SoloRun(ops[..|ops| - 1], a).0, ops[|ops| - 1], a);
    }
  }

  /** For a timer added with a callback, the callback is kept exactly while the timer is in the set.
      (One added without can never be cancelled: see CancelTells.) */
  lemma CallbackIffArmed(ops: seq<Op>, hs: seq<History>, a: nat)
    requires Run(ops, hs) && AddedWithCallback(ops, a)
    ensures var s := hs[|ops|].timers;
            a in s.recs ==> (s.recs[a].cb.Some? <==> a in s.armed)
  {
    SoloCallback(ops, hs, a);
    RunIsSolo(ops, hs, a);
  }

  predicate OneShot(c: Cell, log: seq<Firing>) {
    && |log| <= 1
    && (c.Absent? || c.armed ==> log == [])
    && (c.Cell? ==> !c.rec.recurring)
  }

  lemma {:induction false} SoloOneShot(ops: seq<Op>, hs: seq<History>, a: nat)
    requires Run(ops, hs) && AddedOneShot(ops, a)
    ensures OneShot(SoloRun(ops, a).0, SoloRun(ops, a).1)
  {
    hide Ok, Apply, Fired, Next, Solo, SoloFired, OneShot;
    if ops == [] {
      OneShotAtStart();
    } else {
      SoloStep(ops, hs, a);
      SoloOneShot(ops[..|ops| - 1], hs[..|ops|], a);
      var (c, log) := SoloRun(ops[..|ops| - 1], a);
      OneShotStep(c, log, ops[|ops| - 1], a);
    }
  }

  lemma OneShotAtStart()
    ensures OneShot(Absent, [])
  {
  }

  lemma OneShotStep(c: Cell, log: seq<Firing>, op: Op, a: nat)
    requires OneShot(c, log) && (op.Add? && op.a == a ==> c == Absent && !op.recurring)
    ensures OneShot(Solo(c, op, a), log + SoloFired(c, op, a))
  {
  }

  /** A one-shot timer is handed out at most once, and while it is in the set it has not been. */
  lemma OneShotOnce(ops: seq<Op>, hs: seq<History>, a: nat)
    requires Run(ops, hs) && AddedOneShot(ops, a)
    ensures |Only(hs[|ops|].log, a)| <= 1
    ensures a in hs[|ops|].timers.recs && a in hs[|ops|].timers.armed ==> Only(hs[|ops|].log, a) == []
  {
    SoloOneShot(ops, hs, a);
    RunIsSolo(ops, hs, a);
  }

  /** Nothing is handed out before its deadline. */
  lemma {:induction false} NeverEarly(ops: seq<Op>, hs: seq<History>)
    requires Run(ops, hs)
    ensures forall i :: 0 <= i < |hs[|ops|].log| ==> hs[|ops|].log[i].due <= hs[|ops|].log[i].at
  {
    hide Ok, Apply, Fired, Legal;
    if ops != [] {
      var n := |ops| - 1;
      RunPrefix(ops, hs, n);
      NeverEarly(ops[..n], hs[..n + 1]);
      RunIsSolo(ops[..n], hs[..n + 1], 0);
      assert Next(hs[n], ops[n], hs[n + 1]);
      FiredIsDue(hs[n].timers, ops[n]);
    }
  }

  /** One call hands out what is due and in order of deadline and address. */
  lemma FiredIsDue(s: TimerSet, op: Op)
    requires Ok(s)
    ensures forall i :: 0 <= i < |Fired(s, op)| ==> Fired(s, op)[i].due <= Fired(s, op)[i].at
    ensures forall i, j :: 0 <= i < j < |Fired(s, op)| ==>
                             Before(Fired(s, op)[i].due, Fired(s, op)[i].a, Fired(s, op)[j].due, Fired(s, op)[j].a)
  {
    if op.ExpireDue? {
      var e := Expire(s, op.now, op.probe);
      ExpireIsExact(s, op.now, op.probe);
      forall i | 0 <= i < |e.expired|
        ensures s.recs[e.expired[i]].next <= op.now
      {
        assert e.expired[i] in e.expired;
      }
      forall i, j | 0 <= i < j < |e.expired|
        ensures Before(s.recs[e.expired[i]].next, e.expired[i], s.recs[e.expired[j]].next, e.expired[j])
      {
        assert Less(s.recs, s.armed[i], s.armed[j]);
      }
    }
  }

  predicate Dead(c: Cell) {
    c.Cell? && !c.armed && c.rec.cb == None
  }

  lemma DeadStep(c: Cell, op: Op, a: nat)
    requires Dead(c) && (op.Add? && op.a == a ==> c == Absent)
    ensures Dead(Solo(c, op, a)) && SoloFired(c, op, a) == []
  {
  }

  lemma {:induction false} SoloDead(ops: seq<Op>, hs: seq<History>, a: nat, k: nat)
    requires Run(ops, hs) && k <= |ops| && Dead(SoloRun(ops[..k], a).0)
    ensures Dead(SoloRun(ops, a).0) && SoloRun(ops, a).1 == SoloRun(ops[..k], a).1
    decreases |ops|
  {
    hide Ok, Apply, Fired, Next, Solo, SoloFired, Dead;
    if k == |ops| {
      assert ops[..k] == ops;
    } else {
      var before := ops[..|ops| - 1];
      SoloStep(ops, hs, a);
      assert before[..k] == ops[..k];
      SoloDead(before, hs[..|ops|], a, k);
      DeadStep(SoloRun(before, a).0, ops[|ops| - 1], a);
      assert SoloRun(before, a).1 + [] == SoloRun(before, a).1;
    }
  }

  /** Once cancel has returned true, the timer is never handed out again. */
  lemma NeverAfterCancel(ops: seq<Op>, hs: seq<History>, a: nat, k: nat)
    requires Run(ops, hs) && k < |ops| && ops[k] == CancelOne(a)
    ensures Ok(hs[k].timers) && Legal(hs[k].timers, ops[k])
    ensures Returned(hs[k].timers, ops[k]) ==>
              Only(hs[|ops|].log, a) == Only(hs[k].log, a) && a !in hs[|ops|].timers.armed
  {
    hide Ok, Apply, Fired;
    RunPrefix(ops, hs, k);
    RunIsSolo(ops[..k], hs[..k + 1], a);
    assert Next(hs[k], ops[k], hs[k + 1]);
    if Returned(hs[k].timers, ops[k]) {
      CancelKeeps(hs[k].timers, a);
      RunPrefix(ops, hs, k + 1);
      SoloStep(ops[..k + 1], hs[..k + 2], a);
      assert ops[..k + 1][..k] == ops[..k];
      SoloDead(ops, hs, a, k + 1);
      RunIsSolo(ops, hs, a);
    }
  }

  /** Nor, after cancelAllTimers, any timer there was. */
  lemma NeverAfterCancelAll(ops: seq<Op>, hs: seq<History>, a: nat, k: nat)
    requires Run(ops, hs) && k < |ops| && ops[k] == CancelAllTimers && a in hs[k].timers.recs
    ensures Only(hs[|ops|].log, a) == Only(hs[k].log, a)
    ensures a !in hs[|ops|].timers.armed
  {
    hide Ok, Apply, Fired;
    RunPrefix(ops, hs, k + 1);
    RunPrefix(ops, hs, k);
    RunIsSolo(ops[..k], hs[..k + 1], a);
    SoloStep(ops[..k + 1], hs[..k + 2], a);
    assert ops[..k + 1][..k] == ops[..k];
    SoloDead(ops, hs, a, k + 1);
    RunIsSolo(ops, hs, a);
  }

  // ---------------------------------------------------------------- spacing

  function Clock(op: Op): Option<nat> {
    match op
    case Add(_, now, _, _, _) => Some(now)
    case RefreshOne(_, now) => Some(now)
    case ResetOne(_, now, _) => Some(now)
    case ExpireDue(now, _) => Some(now)
    case _ => None
  }

  function Latest(ops: seq<Op>): nat {
    if ops == [] then 0
    else match Clock(ops[|ops| - 1])
      case Some(now) => now
      case None => Latest(ops[..|ops| - 1])
  }

  /** The clock readings never go back. */
  ghost predicate Monotone(ops: seq<Op>) {
    ops == [] ||
    (Monotone(ops[..|ops| - 1]) &&
     (Clock(ops[|ops| - 1]).Some? ==> Latest(ops[..|ops| - 1]) <= Clock(ops[|ops| - 1]).value))
  }

  /** Far from the end of the 64-bit range. */
  ghost predicate NoWrap(ops: seq<Op>) {
    forall k :: 0 <= k < |ops| ==>
                  && (Clock(ops[k]).Some? ==> Clock(ops[k]).value < TWO64 / 2)
                  && (ops[k].Add? || ops[k].ResetOne? ==> ops[k].ms < TWO64 / 2)
  }

  /** No refresh or reset of the timer reads a clock older than its last firing. */
  ghost predicate InStep(ops: seq<Op>, a: nat) {
    forall k :: 0 <= k < |ops| && (ops[k].RefreshOne? || ops[k].ResetOne?) && ops[k].a == a ==>
                  LastAt(SoloRun(ops[..k], a).1) <= ops[k].now
  }

  function LastAt(log: seq<Firing>): nat {
    if log == [] then 0 else log[|log| - 1].at
  }

  ghost predicate Spaced(log: seq<Firing>) {
    forall i :: 0 < i < |log| ==> log[i - 1].at + log[i].ms <= log[i].at
  }

  ghost predicate Pace(c: Cell, log: seq<Firing>) {
    && Spaced(log)
    && (c.Cell? ==> c.rec.ms < TWO64 / 2)
    && (c.Absent? ==> log == [])
    && (c.Cell? && c.armed && log != [] ==> LastAt(log) + c.rec.ms <= c.rec.next)
  }

  lemma FiringPace(c: Cell, log: seq<Firing>, now: nat, probe: nat, a: nat)
    requires Pace(c, log) && now < TWO64 / 2 && Due(c, now)
    ensures Pace(Solo(c, ExpireDue(now, probe), a), log + SoloFired(c, ExpireDue(now, probe), a))
  {
  }

  lemma PaceStep(c: Cell, log: seq<Firing>, op: Op, a: nat)
    requires Pace(c, log) && NoWrap([op])
    requires op.Add? && op.a == a ==> c == Absent
    requires (op.RefreshOne? || op.ResetOne?) && op.a == a ==> LastAt(log) <= op.now
    ensures Pace(Solo(c, op, a), log + SoloFired(c, op, a))
  {
    hide Spaced;
    assert [op][0] == op;
    if op.ExpireDue? && Due(c, op.now) {
      FiringPace(c, log, op.now, op.probe, a);
    } else {
      assert log + SoloFired(c, op, a) == log;
    }
  }

  lemma {:induction false} SoloSpaced(ops: seq<Op>, hs: seq<History>, a: nat)
    requires Run(ops, hs) && NoWrap(ops) && InStep(ops, a)
    ensures Pace(SoloRun(ops, a).0, SoloRun(ops, a).1)
  {
    hide Ok, Apply, Fired, Next, Solo, SoloFired, Pace;
    if ops == [] {
      PaceAtStart();
    } else {
      var n := |ops| - 1;
      assert forall k :: 0 <= k < n ==> ops[..n][..k] == ops[..k];
      SoloStep(ops, hs, a);
      SoloSpaced(ops[..n], hs[..n + 1], a);
      PaceStep(SoloRun(ops[..n], a).0, SoloRun(ops[..n], a).1, ops[n], a);
    }
  }

  lemma PaceAtStart()
    ensures Pace(Absent, [])
  {
  }

  /** Successive firings of a timer are at least its period apart (the period it has at the second), so
      long as no refresh or reset of it runs on an older clock reading than its last firing. */
  lemma FiringsAreSpaced(ops: seq<Op>, hs: seq<History>, a: nat)
    requires Run(ops, hs) && NoWrap(ops) && InStep(ops, a)
    ensures Spaced(Only(hs[|ops|].log, a))
  {
    SoloSpaced(ops, hs, a);
    RunIsSolo(ops, hs, a);
  }

  lemma {:induction false} LastAtIsPast(ops: seq<Op>, a: nat)
    requires Monotone(ops)
    ensures LastAt(SoloRun(ops, a).1) <= Latest(ops)
  {
    if ops != [] { LastAtIsPast(ops[..|ops| - 1], a); }
  }

  lemma {:induction false} MonotonePrefix(ops: seq<Op>, k: nat)
    requires Monotone(ops) && k <= |ops|
    ensures Monotone(ops[..k])
    decreases |ops|
  {
    if k < |ops| {
      MonotonePrefix(ops[..|ops| - 1], k);
      assert ops[..|ops| - 1][..k] == ops[..k];
    } else {
      assert ops[..k] == ops;
    }
  }

  /** In particular over every run whose clock never goes back, refreshes and resets included. */
  lemma MonotoneClockSpaces(ops: seq<Op>, hs: seq<History>, a: nat)
    requires Run(ops, hs) && NoWrap(ops) && Monotone(ops)
    ensures Spaced(Only(hs[|ops|].log, a))
  {
    forall k | 0 <= k < |ops| && (ops[k].RefreshOne? || ops[k].ResetOne?) && ops[k].a == a
      ensures LastAt(SoloRun(ops[..k], a).1) <= ops[k].now
    {
      MonotonePrefix(ops, k);
      LastAtIsPast(ops[..k], a);
      MonotonePrefix(ops, k + 1);
      assert ops[..k + 1][..k] == ops[..k];
    }
    FiringsAreSpaced(ops, hs, a);
  }

  /** A new timer is due at a later reading exactly if its deadline, the 64-bit sum of clock and period, has
      come; and then its callback is among those handed out. */
  lemma DueIff(s: TimerSet, a: nat, now: nat, ms: nat, cb: Option<nat>, recurring: bool, at: nat, probe: nat)
    requires Ok(s) && a !in s.recs
    ensures Ok(AddTimer(s, a, now, ms, cb, recurring).0)
    ensures var s' := AddTimer(s, a, now, ms, cb, recurring).0;
            a in Expire(s', at, probe).expired <==> (now + ms) % 0x1_0000_0000_0000_0000 <= at
  {
    AddKeeps(s, a, now, ms, cb, recurring);
    ExpireIsExact(AddTimer(s, a, now, ms, cb, recurring).0, at, probe);
  }

  /** Near the end of the 64-bit range the promise fails: a new timer is due at the very reading it was
      armed at exactly when its period is 0 or the sum wraps. */
  lemma DueAtOnceIff(s: TimerSet, a: nat, now: nat, ms: nat, cb: Option<nat>, recurring: bool, probe: nat)
    requires Ok(s) && a !in s.recs && now < TWO64 && ms < TWO64
    ensures Ok(AddTimer(s, a, now, ms, cb, recurring).0)
    ensures a in Expire(AddTimer(s, a, now, ms, cb, recurring).0, now, probe).expired <==> ms == 0 || now + ms >= TWO64
  {
    hide AddTimer, Expire, Sorted;
    AddKeeps(s, a, now, ms, cb, recurring);
    ExpireIsExact(AddTimer(s, a, now, ms, cb, recurring).0, now, probe);
  }
}
