/** Which waits in doSocketIo still have a timeout coming, over every run of the event loop. */
module EventLoopWaits {
  import opened Wrappers
  import opened TaskPool
  import opened IoEvents
  import opened EventLoop
  import opened EventLoopInvariant
  import opened EventLoopTheorems
  import opened EventLoopTimeouts

  // ---------------------------------------------------------------- the invariant

  /** The coroutine is in the call itself, not in one of its callbacks. */
  predicate Own(p: Phase) {
    p.Trying? || Waits(p)
  }

  /** Between arming the timer and disarming it. */
  predicate Waits(p: Phase) {
    p.Arming? || p.Waiting? || p.Parked?
  }

  predicate SameOwn(p: Phase, q: Phase) {
    Own(p) && Own(q) && p.call == q.call
  }

  /** A call belongs to one coroutine, and lives as long as that is in it. */
  ghost predicate OwnersOk(s: Sys) {
    && (forall c :: c in s.cos && Own(s.cos[c].phase) ==> s.cos[c].phase.call in s.calls && s.calls[s.cos[c].phase.call].alive)
    && (forall c, d :: c in s.cos && d in s.cos && SameOwn(s.cos[c].phase, s.cos[d].phase) ==> c == d)
  }

  /** `dropped` are the timers an Expire took out of the set after stop(). */
  ghost predicate TimerIdsOk(s: Sys, dropped: set<nat>) {
    && (forall id :: id in s.timers || id in dropped ==> id < s.nextTimer)
    && (forall id :: id in dropped ==> id !in s.timers)
    && (forall k :: k in s.calls && s.calls[k].timer.Some? ==>
          s.calls[k].timer.value < s.nextTimer && (s.calls[k].timer.value in s.timers ==> s.timers[s.calls[k].timer.value] == k))
  }

  predicate Armed(s: Sys, k: nat) {
    k in s.calls && s.calls[k].timer.Some? && s.calls[k].timer.value in s.timers
  }

  ghost predicate Accounted(s: Sys, k: nat, dropped: set<nat>) {
    && k in s.calls && s.calls[k].timer.Some?
    && (Armed(s, k) || InFlight(s, k) || s.calls[k].canceled || s.calls[k].timer.value in dropped)
  }

  /** The timeout of a timed wait is armed, on its way, past its mark, or dropped. */
  ghost predicate Covered(s: Sys, dropped: set<nat>) {
    forall c :: c in s.cos && Waits(s.cos[c].phase) && s.cos[c].phase.call in s.calls && s.calls[s.cos[c].phase.call].timed ==>
                  Accounted(s, s.cos[c].phase.call, dropped)
  }

  ghost predicate WaitInv(s: Sys, dropped: set<nat>) {
    OwnersOk(s) && MarksOk(s) && TimerIdsOk(s, dropped) && Covered(s, dropped)
  }

  /** The timers a step drops: scheduleIterator queues nothing after stop(), yet they have left the set. */
  function DroppedBy(s: Sys, l: Label): set<nat> {
    if l.Expire? && s.autoStop then set id | id in l.ids else {}
  }

  // ---------------------------------------------------------------- every step keeps it

  lemma MovedKeeps(s: Sys, s': Sys, dropped: set<nat>)
    requires WaitInv(s, dropped) && Moved(s, s')
    ensures WaitInv(s', dropped)
  {
    hide OwnersOk, MarksOk, TimerIdsOk, Covered, Moved;
    MovedCovers(s, s', dropped);
    MovedIsSameCalls(s, s');
    SameCallsKeep(s, s', dropped);
  }

  lemma SameCallsKeep(s: Sys, s': Sys, dropped: set<nat>)
    requires OwnersOk(s) && MarksOk(s) && TimerIdsOk(s, dropped) && SameCalls(s, s')
    ensures OwnersOk(s') && MarksOk(s') && TimerIdsOk(s', dropped)
  {
    assert forall c :: c in s'.cos && Own(s'.cos[c].phase) ==>
                         c in s.cos && Own(s.cos[c].phase) && s.cos[c].phase.call == s'.cos[c].phase.call;
    assert forall c :: c in s'.cos && s'.cos[c].phase.Cancelling? ==> c in s.cos && s.cos[c].phase == s'.cos[c].phase;
  }

  lemma MovedCovers(s: Sys, s': Sys, dropped: set<nat>)
    requires Covered(s, dropped) && Moved(s, s')
    ensures Covered(s', dropped)
  {
    hide InFlight;
    forall c | c in s'.cos && Waits(s'.cos[c].phase) && s'.cos[c].phase.call in s'.calls && s'.calls[s'.cos[c].phase.call].timed
      ensures Accounted(s', s'.cos[c].phase.call, dropped)
    {
      assert Accounted(s, s.cos[c].phase.call, dropped);
    }
  }

  /** One coroutine changes, and not out of a check of this call. */
  lemma OneCoFlights(s: Sys, s': Sys, c: nat, rec: CoRec, k: nat)
    requires s'.pool == s.pool && s'.threads == s.threads && s'.cos == s.cos[c := rec]
    requires c in s.cos && s.cos[c].phase != Checking(k)
    ensures InFlight(s, k) ==> InFlight(s', k)
  {
    if InFlight(s, k) {
      if i: nat :| IsCb(s.pool, i, k) {
        assert IsCb(s'.pool, i, k);
      } else if t :| HoldsCb(s, t, k) {
        assert HoldsCb(s', t, k);
      } else {
        var d :| Checks(s, d, k);
        assert Checks(s', d, k);
      }
    }
  }

  lemma BeginKeeps(s: Sys, t: nat, slot: Slot, timed: bool, k: nat, dropped: set<nat>)
    requires WaitInv(s, dropped) && RunsPlain(s, t) && k !in s.calls
    ensures WaitInv(DoBegin(s, t, slot, timed, k), dropped)
  {
    hide OwnersOk, MarksOk, TimerIdsOk, Covered, InFlight;
    var s', c := DoBegin(s, t, slot, timed, k), s.threads[t].co;
    assert s'.cos == s.cos[c := s.cos[c].(phase := Trying(k))] && s'.calls == s.calls[k := Call(slot, timed, None, false, true)];
    BegunOwners(s, s', c, k);
    BegunMarks(s, s', c, k);
    BegunTimers(s, s', k, dropped);
    BegunCovers(s, s', c, k, dropped);
  }

  lemma BegunOwners(s: Sys, s': Sys, c: nat, k: nat)
    requires OwnersOk(s) && c in s.cos && k !in s.calls && k in s'.calls && s'.calls[k].alive
    requires s'.cos == s.cos[c := s.cos[c].(phase := Trying(k))] && s'.calls == s.calls[k := s'.calls[k]]
    ensures OwnersOk(s')
  {
    assert forall d :: d in s.cos && Own(s.cos[d].phase) ==> s.cos[d].phase.call != k;
  }

  lemma BegunMarks(s: Sys, s': Sys, c: nat, k: nat)
    requires MarksOk(s) && c in s.cos && k !in s.calls && k in s'.calls
    requires s'.cos == s.cos[c := s.cos[c].(phase := Trying(k))] && s'.calls == s.calls[k := s'.calls[k]]
    ensures MarksOk(s')
  {
  }

  lemma BegunTimers(s: Sys, s': Sys, k: nat, dropped: set<nat>)
    requires TimerIdsOk(s, dropped) && k !in s.calls && k in s'.calls && s'.calls[k].timer == None
    requires s'.calls == s.calls[k := s'.calls[k]] && s'.timers == s.timers && s'.nextTimer == s.nextTimer
    ensures TimerIdsOk(s', dropped)
  {
  }

  lemma BegunCovers(s: Sys, s': Sys, c: nat, k: nat, dropped: set<nat>)
    requires Covered(s, dropped) && OwnersOk(s) && c in s.cos && s.cos[c].phase == Plain && k !in s.calls && k in s'.calls
    requires s'.cos == s.cos[c := s.cos[c].(phase := Trying(k))] && s'.calls == s.calls[k := s'.calls[k]]
    requires s'.timers == s.timers && s'.pool == s.pool && s'.threads == s.threads
    ensures Covered(s', dropped)
  {
    hide InFlight;
    forall d | d in s'.cos && Waits(s'.cos[d].phase) && s'.cos[d].phase.call in s'.calls && s'.calls[s'.cos[d].phase.call].timed
      ensures Accounted(s', s'.cos[d].phase.call, dropped)
    {
      assert Own(s.cos[d].phase);
      assert Accounted(s, s.cos[d].phase.call, dropped);
      OneCoFlights(s, s', c, s'.cos[c], s.cos[d].phase.call);
    }
  }

  /** One coroutine and one call change: the coroutine is no new owner, and the call ends with its owner. */
  lemma OwnersChange(s: Sys, s': Sys, c: nat, rec: CoRec, k: nat, call: Call)
    requires OwnersOk(s) && c in s.cos && k in s.calls
    requires s'.cos == s.cos[c := rec] && s'.calls == s.calls[k := call]
    requires Own(rec.phase) ==> SameOwn(rec.phase, s.cos[c].phase)
    requires call.alive == s.calls[k].alive || (Own(s.cos[c].phase) && s.cos[c].phase.call == k && !Own(rec.phase))
    ensures OwnersOk(s')
  {
    forall d | d in s'.cos && Own(s'.cos[d].phase)
      ensures s'.cos[d].phase.call in s'.calls && s'.calls[s'.cos[d].phase.call].alive
      ensures d in s.cos && SameOwn(s'.cos[d].phase, s.cos[d].phase)
    {
      assert d in s.cos && SameOwn(s'.cos[d].phase, s.cos[d].phase);
      assert SameOwn(s.cos[c].phase, s.cos[d].phase) ==> c == d;
    }
  }

  lemma OwnersKept(s: Sys, l: Label, s': Sys)
    requires OwnersOk(s) && OfCall(l) && InCall(s, l.tid) && OwnPhase(l, PhaseOn(s, l.tid)) && CallStepIs(s, l, s')
    ensures OwnersOk(s')
  {
    hide RegisterSucceeds, TimersAfter, OwnersOk;
    OwnersChange(s, s', s.threads[l.tid].co, CallRec(s, l), PhaseOn(s, l.tid).call, CallAfter(s, l));
  }

  /** One coroutine and one call change: a mark stays, and only the first marker goes on to cancel. */
  lemma MarksChange(s: Sys, s': Sys, c: nat, rec: CoRec, k: nat, call: Call)
    requires MarksOk(s) && c in s.cos && k in s.calls
    requires s'.cos == s.cos[c := rec] && s'.calls == s.calls[k := call]
    requires s.calls[k].canceled ==> call.canceled
    requires rec.phase.Cancelling? ==> rec.phase == Cancelling(k) && call.canceled && !s.calls[k].canceled
    ensures MarksOk(s')
  {
    forall d | d in s'.cos && s'.cos[d].phase.Cancelling?
      ensures s'.cos[d].phase.call in s'.calls && s'.calls[s'.cos[d].phase.call].canceled
      ensures d != c ==> d in s.cos && s'.cos[d] == s.cos[d] && (rec.phase.Cancelling? ==> s'.cos[d].phase != rec.phase)
    {
      if d != c { assert s'.cos[d] == s.cos[d]; }
    }
  }

  lemma MarksKept(s: Sys, l: Label, s': Sys)
    requires MarksOk(s) && OfCall(l) && InCall(s, l.tid) && OwnPhase(l, PhaseOn(s, l.tid)) && CallStepIs(s, l, s')
    ensures MarksOk(s')
  {
    hide RegisterSucceeds, TimersAfter, MarksOk;
    MarksChange(s, s', s.threads[l.tid].co, CallRec(s, l), PhaseOn(s, l.tid).call, CallAfter(s, l));
  }

  lemma TimersKept(s: Sys, l: Label, s': Sys, dropped: set<nat>)
    requires TimerIdsOk(s, dropped) && OfCall(l) && InCall(s, l.tid) && OwnPhase(l, PhaseOn(s, l.tid)) && CallStepIs(s, l, s')
    ensures TimerIdsOk(s', dropped)
    ensures forall j :: j in s.calls && j != PhaseOn(s, l.tid).call && Armed(s, j) ==> Armed(s', j)
    ensures l.CheckTimeout? || (l.Register? && Waits(CallRec(s, l).phase)) ==>
              (Armed(s, PhaseOn(s, l.tid).call) ==> Armed(s', PhaseOn(s, l.tid).call))
    ensures l.Attempt? && Waits(CallRec(s, l).phase) && s.calls[PhaseOn(s, l.tid).call].timed ==> Armed(s', PhaseOn(s, l.tid).call)
  {
    hide RegisterSucceeds;
    var k := PhaseOn(s, l.tid).call;
    assert s'.calls[k] == CallAfter(s, l);
    assert forall j :: j in s.calls && j != k ==> s'.calls[j] == s.calls[j];
  }

  lemma CoveredKept(s: Sys, l: Label, s': Sys, dropped: set<nat>)
    requires WaitInv(s, dropped) && OfCall(l) && InCall(s, l.tid) && OwnPhase(l, PhaseOn(s, l.tid)) && CallStepIs(s, l, s')
    ensures Covered(s', dropped)
  {
    hide RegisterSucceeds, Disarmed, TimersAfter, TimerIdsOk, MarksOk, InFlight, Armed;
    var c, k := s.threads[l.tid].co, PhaseOn(s, l.tid).call;
    TimersKept(s, l, s', dropped);
    assert s'.cos[c] == CallRec(s, l) && s'.calls[k] == CallAfter(s, l);
    forall d | d in s'.cos && Waits(s'.cos[d].phase) && s'.cos[d].phase.call in s'.calls && s'.calls[s'.cos[d].phase.call].timed
      ensures Accounted(s', s'.cos[d].phase.call, dropped)
    {
      var j := s'.cos[d].phase.call;
      if d == c {
        if l.Register? { AccountedKept(s, l, s', c, k, dropped); }
      } else {
        assert s'.cos[d] == s.cos[d] && j in s.calls;
        if j != k {
          assert s'.calls[j] == s.calls[j];
          AccountedKept(s, l, s', d, j, dropped);
        } else if l.CheckTimeout? {
          assert s.calls[k].alive;
          ArmedMeans(s', j);
        }
      }
    }
  }

  lemma ArmedMeans(s: Sys, k: nat)
    ensures Armed(s, k) ==> k in s.calls && s.calls[k].timer.Some?
  {
  }

  /** A wait that is not the checking callback's own stays accounted for. */
  lemma AccountedKept(s: Sys, l: Label, s': Sys, d: nat, j: nat, dropped: set<nat>)
    requires TimerIdsOk(s, dropped) && Covered(s, dropped)
    requires OfCall(l) && InCall(s, l.tid) && OwnPhase(l, PhaseOn(s, l.tid)) && CallStepIs(s, l, s')
    requires d in s.cos && Waits(s.cos[d].phase) && s.cos[d].phase.call == j && j in s.calls && s.calls[j].timed
    requires j != PhaseOn(s, l.tid).call || (l.Register? && Waits(CallRec(s, l).phase))
    ensures Accounted(s', j, dropped)
  {
    hide RegisterSucceeds, Disarmed, TimersAfter, TimerIdsOk, InFlight, Armed;
    var c, k := s.threads[l.tid].co, PhaseOn(s, l.tid).call;
    TimersKept(s, l, s', dropped);
    assert Accounted(s, j, dropped);
    OneCoFlights(s, s', c, CallRec(s, l), j);
    assert s'.calls[j] == if j == k then CallAfter(s, l) else s.calls[j];
  }

  lemma CallStepKeeps(s: Sys, l: Label, s': Sys, dropped: set<nat>)
    requires WaitInv(s, dropped) && OfCall(l) && InCall(s, l.tid) && OwnPhase(l, PhaseOn(s, l.tid)) && CallStepIs(s, l, s')
    ensures WaitInv(s', dropped)
  {
    hide CallStepIs, OwnersOk, MarksOk, TimerIdsOk, Covered, OwnPhase;
    OwnersKept(s, l, s');
    MarksKept(s, l, s');
    TimersKept(s, l, s', dropped);
    CoveredKept(s, l, s', dropped);
  }

  lemma CancelTimeoutKeeps(s: Sys, t: nat, up: bool, dropped: set<nat>)
    requires WaitInv(s, dropped) && InCall(s, t) && PhaseOn(s, t).Cancelling?
    ensures WaitInv(DoCancelTimeout(s, t, up), dropped)
  {
    hide DoCancel, InFlight, Calm, Moved;
    var s1, slot := SetPhase(s, t, Plain), s.calls[PhaseOn(s, t).call].slot;
    var c := s.threads[t].co;
    forall d | d in s1.cos && Waits(s1.cos[d].phase) && s1.cos[d].phase.call in s1.calls && s1.calls[s1.cos[d].phase.call].timed
      ensures Accounted(s1, s1.cos[d].phase.call, dropped)
    {
      assert Accounted(s, s.cos[d].phase.call, dropped);
      OneCoFlights(s, s1, c, s1.cos[c], s.cos[d].phase.call);
    }
    assert WaitInv(s1, dropped);
    CancelCalm(s1, slot, up);
    CalmMoves(s1, DoCancel(s1, slot, up));
    MovedKeeps(s1, DoCancel(s1, slot, up), dropped);
  }

  /** An expired timer's callback is queued, or, after stop(), the timer is dropped. */
  lemma ExpireFlights(s: Sys, t: nat, ids: seq<nat>, k: nat)
    requires Enabled(s, Expire(t, ids))
    ensures var s' := DoExpire(s, t, ids);
            && (InFlight(s, k) ==> InFlight(s', k))
            && (!s.autoStop && Armed(s, k) && s.calls[k].timer.value in ids && s.timers[s.calls[k].timer.value] == k ==> InFlight(s', k))
  {
    hide LockFree, InFlight, Calm;
    var s' := DoExpire(s, t, ids);
    var works := ExpiredWorks(s, ids);
    QueueAllAppends(s.pool, s.autoStop, works, false);
    PoolFlights(s, s', t, k);
    if !s.autoStop && Armed(s, k) && s.calls[k].timer.value in ids && s.timers[s.calls[k].timer.value] == k {
      var i :| 0 <= i < |ids| && ids[i] == s.calls[k].timer.value;
      QueuedFlight(s', |s.pool| + i, k);
    }
  }

  lemma QueuedFlight(s: Sys, i: nat, k: nat)
    requires IsCb(s.pool, i, k)
    ensures InFlight(s, k)
  {
  }

  lemma PoolFlights(s: Sys, s': Sys, t: nat, k: nat)
    requires s.pool <= s'.pool && s'.cos == s.cos && t in s.threads && !s.threads[t].Holding?
    requires forall u :: u in s.threads && u != t ==> u in s'.threads && s'.threads[u] == s.threads[u]
    ensures InFlight(s, k) ==> InFlight(s', k)
  {
    if InFlight(s, k) {
      if i: nat :| IsCb(s.pool, i, k) {
        assert IsCb(s'.pool, i, k);
      } else if u :| HoldsCb(s, u, k) {
        assert HoldsCb(s', u, k);
      } else {
        var d :| Checks(s, d, k);
        assert Checks(s', d, k);
      }
    }
  }

  lemma ExpireKeeps(s: Sys, t: nat, ids: seq<nat>, dropped: set<nat>)
    requires WaitInv(s, dropped) && Enabled(s, Expire(t, ids))
    ensures WaitInv(DoExpire(s, t, ids), dropped + DroppedBy(s, Expire(t, ids)))
  {
    hide LockFree, InFlight, QueueAll, ExpiredWorks;
    var s', d' := DoExpire(s, t, ids), dropped + DroppedBy(s, Expire(t, ids));
    assert s'.cos == s.cos && s'.calls == s.calls && s'.nextTimer == s.nextTimer;
    forall c | c in s'.cos && Waits(s'.cos[c].phase) && s'.cos[c].phase.call in s'.calls && s'.calls[s'.cos[c].phase.call].timed
      ensures Accounted(s', s'.cos[c].phase.call, d')
    {
      var k := s.cos[c].phase.call;
      assert Accounted(s, k, dropped);
      ExpireFlights(s, t, ids, k);
    }
  }

  lemma CrashKeeps(s: Sys, dropped: set<nat>)
    requires WaitInv(s, dropped)
    ensures WaitInv(Crash(s), dropped)
  {
    hide InFlight, Calm, Moved;
    CalmSelf(s);
    CalmMoves(s, Crash(s));
    MovedKeeps(s, Crash(s), dropped);
  }

  lemma WaitStep(s: Sys, l: Label, dropped: set<nat>)
    requires WaitInv(s, dropped) && Enabled(s, l)
    ensures WaitInv(Apply(s, l), dropped + DroppedBy(s, l))
  {
    hide WaitInv, CallStepIs, DoBegin, DoExpire, DoCancelTimeout, LockFree, Moved, SameCalls;
    var s' := Apply(s, l);
    assert !l.Expire? ==> dropped + DroppedBy(s, l) == dropped;
    if OfCall(l) {
      CallStepsAre(s, l);
      CrashKeeps(s, dropped);
      if CallStepIs(s, l, s') { CallStepKeeps(s, l, s', dropped); }
    } else if l.CancelTimeout? {
      CancelTimeoutKeeps(s, l.tid, l.up, dropped);
    } else if l.Begin? {
      BeginKeeps(s, l.tid, l.slot, l.timed, l.call, dropped);
    } else if l.Expire? {
      ExpireKeeps(s, l.tid, l.ids, dropped);
    } else {
      UnrelatedMoves(s, l);
      MovedKeeps(s, s', dropped);
    }
  }

  // ---------------------------------------------------------------- whole runs

  /** The timers dropped in the first `i` steps of a run. */
  function Dropped(ss: seq<Sys>, ls: seq<Label>, i: nat): set<nat>
    requires i <= |ls| <= |ss|
  {
    if i == 0 then {} else Dropped(ss, ls, i - 1) + DroppedBy(ss[i - 1], ls[i - 1])
  }

  lemma {:induction false} DroppedIff(ss: seq<Sys>, ls: seq<Label>, i: nat, id: nat)
    requires i <= |ls| <= |ss|
    ensures id in Dropped(ss, ls, i) <==> exists m :: 0 <= m < i && ls[m].Expire? && ss[m].autoStop && id in ls[m].ids
    decreases i
  {
    if i > 0 { DroppedIff(ss, ls, i - 1, id); }
  }

  lemma {:induction false} ExecutionWaits(ss: seq<Sys>, ls: seq<Label>, i: nat)
    requires Execution(ss, ls) && i < |ss|
    ensures WaitInv(ss[i], Dropped(ss, ls, i))
    decreases i
  {
    hide WaitInv, Apply, Enabled, Initial;
    if i == 0 {
      InitialWaits(ss[0]);
    } else {
      ExecutionWaits(ss, ls, i - 1);
      WaitStep(ss[i - 1], ls[i - 1], Dropped(ss, ls, i - 1));
    }
  }

  lemma InitialWaits(s: Sys)
    requires Initial(s)
    ensures WaitInv(s, {})
  {
  }

  /** A timed call whose coroutine waits at its slot has its timer armed, or a callback queued, held,
      checking or cancelling, or its timeout is spent, or its timer was dropped after stop(). */
  lemma WaitIsCovered(ss: seq<Sys>, ls: seq<Label>, i: nat, c: nat)
    requires Execution(ss, ls) && i < |ss| && c in ss[i].cos && ss[i].cos[c].loc.AtSlot? && Waits(ss[i].cos[c].phase)
    requires var k := ss[i].cos[c].phase.call; k in ss[i].calls && ss[i].calls[k].timed
    ensures var s, k := ss[i], ss[i].cos[c].phase.call;
            && s.calls[k].timer.Some?
            && (Armed(s, k) || InFlight(s, k) || (exists d :: d in s.cos && s.cos[d].phase == Cancelling(k)) || TimeoutSpent(s, k)
                || exists m :: 0 <= m < i && ls[m].Expire? && ss[m].autoStop && s.calls[k].timer.value in ls[m].ids)
  {
    hide InFlight, Armed, OwnersOk, MarksOk, TimerIdsOk, Initial, Enabled, Apply;
    ExecutionWaits(ss, ls, i);
    var k := ss[i].cos[c].phase.call;
    assert Accounted(ss[i], k, Dropped(ss, ls, i));
    DroppedIff(ss, ls, i, ss[i].calls[k].timer.value);
  }

  /** A timeout is spent exactly when, some time in the run, its callback called cancelEvent. */
  lemma {:induction false} SpentIff(ss: seq<Sys>, ls: seq<Label>, i: nat, k: nat)
    requires Execution(ss, ls) && i < |ss|
    ensures TimeoutSpent(ss[i], k) <==> exists m :: 0 <= m < i && Cancels(ss[m], ls[m], k)
    decreases i
  {
    hide TimeoutSpent, Apply, Enabled, Initial, Cancels, MarksOk, OwnersOk, TimerIdsOk, Covered, Dropped;
    if i == 0 {
      NotSpentAtStart(ss[0], k);
    } else {
      SpentIff(ss, ls, i - 1, k);
      ExecutionWaits(ss, ls, i - 1);
      if k in ss[i - 1].calls {
        SpentStep(ss[i - 1], ls[i - 1], k);
      } else {
        UnknownCall(ss[i - 1], ls[i - 1], k);
      }
    }
  }

  lemma NotSpentAtStart(s: Sys, k: nat)
    requires Initial(s)
    ensures !TimeoutSpent(s, k)
  {
  }

  /** A call that has not begun is neither cancelled in this step nor spent by it. */
  lemma UnknownCall(s: Sys, l: Label, k: nat)
    requires MarksOk(s) && Enabled(s, l) && k !in s.calls
    ensures !TimeoutSpent(s, k) && !Cancels(s, l, k) && !TimeoutSpent(Apply(s, l), k)
  {
    hide CallStepIs, DoExpire, DoCancelTimeout, DoCancel, LockFree, Moved, SameCalls, InFlight, QueueAll, ExpiredWorks;
    if OfCall(l) {
      CallStepsAre(s, l);
      OtherCallsStay(s, l, Apply(s, l), k);
    } else if l.CancelTimeout? {
      var s1, slot := SetPhase(s, l.tid, Plain), s.calls[PhaseOn(s, l.tid).call].slot;
      CancelCalm(s1, slot, l.up);
      CalmIsSameCalls(s1, DoCancel(s1, slot, l.up));
      SameCallsAre(s1, DoCancel(s1, slot, l.up));
      CancelTimeoutIs(s, l.tid, l.up);
    } else if l.Begin? {
    } else if l.Expire? {
      ExpireSpent(s, l.tid, l.ids, k);
    } else {
      UnrelatedMoves(s, l);
      MovedIsSameCalls(s, Apply(s, l));
      SameCallsAre(s, Apply(s, l));
    }
  }

  lemma CancelTimeoutIs(s: Sys, t: nat, up: bool)
    requires InCall(s, t) && PhaseOn(s, t).Cancelling?
    ensures DoCancelTimeout(s, t, up) == DoCancel(SetPhase(s, t, Plain), s.calls[PhaseOn(s, t).call].slot, up)
    ensures SetPhase(s, t, Plain).calls == s.calls
  {
    hide DoCancel;
  }

  lemma SameCallsAre(s: Sys, s': Sys)
    requires SameCalls(s, s')
    ensures s'.calls == s.calls
  {
  }

  lemma OtherCallsStay(s: Sys, l: Label, s': Sys, k: nat)
    requires OfCall(l) && InCall(s, l.tid) && (s' == Crash(s) || CallStepIs(s, l, s')) && k !in s.calls
    ensures k !in s'.calls
  {
    hide RegisterSucceeds, TimersAfter;
  }

  // ---------------------------------------------------------------- the wait without a timeout

  /** Some callback will still call cancelEvent for the call, if readiness does not come first. */
  ghost predicate Coming(s: Sys, k: nat) {
    || (exists d :: d in s.cos && s.cos[d].phase == Cancelling(k))
    || (k in s.calls && !s.calls[k].canceled && (Armed(s, k) || InFlight(s, k)))
  }

  /** Over every run: a timed wait has no timeout coming exactly if its callback has been through
      cancelEvent, which then came too early or for an earlier wait of the call, or if its timer expired after
      stop() while no callback of an earlier wait was left over. */
  lemma WaitsInVainIff(ss: seq<Sys>, ls: seq<Label>, i: nat, c: nat)
    requires Execution(ss, ls) && i < |ss| && c in ss[i].cos && Waits(ss[i].cos[c].phase)
    requires var k := ss[i].cos[c].phase.call; k in ss[i].calls && ss[i].calls[k].timed
    ensures var s, k := ss[i], ss[i].cos[c].phase.call;
            && s.calls[k].timer.Some?
            && (!Coming(s, k) <==>
                || (exists m :: 0 <= m < i && Cancels(ss[m], ls[m], k))
                || ((exists m :: 0 <= m < i && ls[m].Expire? && ss[m].autoStop && s.calls[k].timer.value in ls[m].ids)
                    && !InFlight(s, k) && !s.calls[k].canceled))
  {
    hide InFlight, OwnersOk, Initial, Enabled, Apply, Cancels;
    ExecutionWaits(ss, ls, i);
    var s, k := ss[i], ss[i].cos[c].phase.call;
    assert Accounted(s, k, Dropped(ss, ls, i));
    DroppedIff(ss, ls, i, s.calls[k].timer.value);
    SpentIff(ss, ls, i, k);
  }

  /** At the moment addEvent succeeds: the call goes on to wait without a timeout exactly if the callback of
      its timer was through before, or stop() had been called and the timer expired before. */
  lemma RegisteredTooLateIff(ss: seq<Sys>, ls: seq<Label>, i: nat)
    requires Execution(ss, ls) && i < |ls| && ls[i].Register?
    requires InCall(ss[i], ls[i].tid) && RegisterSucceeds(ss[i], ls[i].tid, ls[i].up)
    requires ss[i].calls[PhaseOn(ss[i], ls[i].tid).call].timed
    ensures var s, k := ss[i + 1], PhaseOn(ss[i], ls[i].tid).call;
            && ss[i].threads[ls[i].tid].co in s.cos && s.cos[ss[i].threads[ls[i].tid].co].phase == Waiting(k)
            && k in s.calls && s.calls[k].timer.Some? && s.calls[k].timer == ss[i].calls[k].timer
            && (!Coming(s, k) <==>
                || (exists m :: 0 <= m < i && Cancels(ss[m], ls[m], k))
                || ((exists m :: 0 <= m < i && ls[m].Expire? && ss[m].autoStop && s.calls[k].timer.value in ls[m].ids)
                    && !InFlight(s, k) && !s.calls[k].canceled))
  {
    hide InFlight, Coming, DoRegister, RegisterAborts;
    var s, l := ss[i], ls[i];
    assert Enabled(s, l) && ss[i + 1] == Apply(s, l);
    RegisterIs(s, l.tid, l.up);
    assert ss[i + 1].cos[s.threads[l.tid].co] == CallRec(s, l);
    WaitsInVainIff(ss, ls, i + 1, s.threads[l.tid].co);
    assert !Cancels(s, l, PhaseOn(s, l.tid).call);
  }

  /** After stop(): thread `t` is between addTimer and addEvent of a call, and thread `u` about to take
      expired timers out of the set, that of the call among them; no callback of the call is on its way. */
  ghost predicate StopRace(s: Sys, t: nat, u: nat, id: nat) {
    && LockFree(s) && s.autoStop && t != u && u in s.threads && s.threads[u].Expiring?
    && InCall(s, t) && PhaseOn(s, t).Arming? && id in s.timers
    && var k := PhaseOn(s, t).call;
       && s.calls[k].timer == Some(id) && !s.calls[k].canceled && !InFlight(s, k)
       && !Registered(s.io, s.calls[k].slot.fd, s.calls[k].slot.event)
       && forall c :: c in s.cos ==> s.cos[c].phase != Cancelling(k)
  }

  /** The second way: the timer leaves the set, nothing is queued, and the wait that follows has no timeout
      and no mark either. */
  lemma StopDropsTimeout(s: Sys, t: nat, u: nat, id: nat)
    requires LoopInv(s) && StopRace(s, t, u, id)
    ensures Enabled(s, Expire(u, [id]))
    ensures var s1, k := DoExpire(s, u, [id]), PhaseOn(s, t).call;
            !s1.crashed && InCall(s1, t) && PhaseOn(s1, t).Arming? &&
            var s2 := DoRegister(s1, t, true);
            && s.threads[t].co in s2.cos && s2.cos[s.threads[t].co].phase == Waiting(k) && s2.pool == s.pool
            && !TimeoutSpent(s2, k) && !Coming(s2, k)
  {
    hide LoopInv, InFlight, DoRegister, DoExpire, AddEvent, AddAborts;
    NotCrashed(s);
    var k, c := PhaseOn(s, t).call, s.threads[t].co;
    var s1 := DoExpire(s, u, [id]);
    ExpiredAfterStop(s, u, id);
    assert InCall(s1, t) && PhaseOn(s1, t) == PhaseOn(s, t) && s1.crashed == s.crashed;
    LateRegisterSucceeds(s1, s, t);
    RegisterIs(s1, t, true);
    var s2 := DoRegister(s1, t, true);
    assert s2.cos[c] == CallRec(s1, Register(t, true));
    assert s2.calls[k] == s.calls[k] && s2.timers == s1.timers;
    NoNewFlights(s, s2, u, c, k);
  }

  lemma ExpiredAfterStop(s: Sys, u: nat, id: nat)
    requires s.autoStop && u in s.threads && s.threads[u].Expiring? && id in s.timers
    ensures var s1 := DoExpire(s, u, [id]);
            && s1 == Move(s, u, Delivering(s.threads[u].ready)).(timers := s1.timers)
            && id !in s1.timers
  {
    QueueAllAppends(s.pool, s.autoStop, ExpiredWorks(s, [id]), false);
  }

  lemma LateRegisterSucceeds(s1: Sys, s: Sys, t: nat)
    requires LoopInv(s) && s1.io == s.io && InCall(s1, t)
    requires var slot := s1.calls[PhaseOn(s1, t).call].slot; !Registered(s1.io, slot.fd, slot.event)
    ensures !RegisterAborts(s1, t, true) && RegisterSucceeds(s1, t, true)
  {
    hide LoopInv, AddEvent, AddAborts, Inv;
    IoInv(s);
    var slot := s1.calls[PhaseOn(s1, t).call].slot;
    AddNeverAborts(s.io, slot.fd, slot.event, true);
    AddEventKeepsInv(s.io, slot.fd, slot.event, None, s1.threads[t].co, t, true);
    InvFds(s.io);
  }

  lemma InvFds(io: Io)
    requires Inv(io)
    ensures |io.fds| >= INITIAL_FDS
  {
  }

  lemma NoNewFlights(s: Sys, s': Sys, u: nat, c: nat, k: nat)
    requires !InFlight(s, k) && s'.pool == s.pool && u in s.threads
    requires u in s'.threads && !s'.threads[u].Holding? && s'.threads == s.threads[u := s'.threads[u]]
    requires c in s'.cos && !s'.cos[c].phase.Checking? && s'.cos == s.cos[c := s'.cos[c]]
    ensures !InFlight(s', k)
  {
    forall i: nat
      ensures !IsCb(s'.pool, i, k)
    {
      assert !IsCb(s.pool, i, k);
    }
    forall t
      ensures !HoldsCb(s', t, k)
    {
      assert !HoldsCb(s, t, k);
    }
    forall d
      ensures !Checks(s', d, k)
    {
      assert !Checks(s, d, k);
    }
  }

  // ---------------------------------------------------------------- callbacks left over

  /** cancelEvent names the slot only: a callback past its check retires whatever is registered there and
      hands it to the pool, its own call's wait or another's; and nothing exactly if the slot is free. */
  lemma CancelTimeoutHits(s: Sys, t: nat)
    requires LoopInv(s) && InCall(s, t) && PhaseOn(s, t).Cancelling?
    ensures var s', slot := DoCancelTimeout(s, t, true), s.calls[PhaseOn(s, t).call].slot;
            if slot in s.live then
              && s.live[slot] < |s.regs| && slot !in s'.live
              && s'.log == s.log + [Retirement(s.live[slot], ByCancel, Some(s.regs[s.live[slot]].task))]
              && s'.pool == s.pool + [s.regs[s.live[slot]].task]
            else s'.log == s.log && s'.pool == s.pool && s'.live == s.live
  {
    hide Fire, LiveOk, LogOk, SlotCosOk, PoolOk, ThreadCosOk, CallsOk, ThreadsOk, RecsOk, KernelOk, SlotsOk, CountOk, KernelCtl, Coherent;
    var s1, slot := SetPhase(s, t, Plain), s.calls[PhaseOn(s, t).call].slot;
    CancelTimeoutIs(s, t, true);
    PlainAgain(s, t);
    LiveAt(s1, slot);
    if slot in s.live {
      UnmaskAt(s1, slot);
      var k := Unmask(s1.io, slot.fd, slot.event, true).value;
      KernelOnly(s1, k);
      FireShape(WithKernel(s1, k), slot, ByCancel);
    }
  }

  lemma PlainAgain(s: Sys, t: nat)
    requires LoopInv(s) && InCall(s, t) && PhaseOn(s, t).Cancelling?
    ensures LoopInv(SetPhase(s, t, Plain))
  {
    hide LiveOk, LogOk, SlotCosOk, PoolOk, ThreadCosOk, CallsOk, ThreadsOk, KernelOk;
    RunsFact(s, t);
    PhaseKeeps(s, SetPhase(s, t, Plain), t);
  }

  lemma LiveAt(s: Sys, slot: Slot)
    requires LoopInv(s)
    ensures Coherent(s) && (slot in s.live <==> Registered(s.io, slot.fd, slot.event))
    ensures slot in s.live ==> slot.fd < |s.io.fds| && CtxAt(s, slot).Occupied() && s.live[slot] < |s.regs|
                               && s.regs[s.live[slot]].task == CtxAt(s, slot).Continuation()
  {
    LiveFact(s, slot);
  }

  lemma UnmaskAt(s: Sys, slot: Slot)
    requires LoopInv(s) && Registered(s.io, slot.fd, slot.event)
    ensures Unmask(s.io, slot.fd, slot.event, true).Some?
  {
    UnmaskFact(s.io, slot.fd, slot.event);
  }

  /** So a callback left over from an earlier wait of the call cuts the present one short: it finds the call
      alive and unmarked, marks it, and wakes its coroutine while the timer of this wait is still armed. */
  lemma LeftoverCutsShort(s: Sys, t: nat, k: nat, c: nat)
    requires LoopInv(s) && LockFree(s) && InCall(s, t) && PhaseOn(s, t) == Checking(k)
    requires s.calls[k].alive && !s.calls[k].canceled && Armed(s, k)
    requires s.calls[k].slot in s.live && s.live[s.calls[k].slot] < |s.regs| && s.regs[s.live[s.calls[k].slot]].task.work == Co(c)
    ensures Enabled(s, CheckTimeout(t))
    ensures var s1 := DoCheckTimeout(s, t);
            !s1.crashed && LockFree(s1) && InCall(s1, t) && PhaseOn(s1, t).Cancelling? &&
            var s2 := DoCancelTimeout(s1, t, true);
            && k in s2.calls && s2.calls[k].canceled && Armed(s2, k)
            && s2.pool == s.pool + [s.regs[s.live[s.calls[k].slot]].task]
  {
    hide LoopInv, DoCheckTimeout, DoCancelTimeout, DoCancel, SameCalls, Calm;
    NotCrashed(s);
    var s1 := DoCheckTimeout(s, t);
    CheckIs(s, t);
    EventLoopInvariant.CheckTimeoutKeeps(s, t);
    CheckedIs(s, t);
    CancelTimeoutHits(s1, t);
    CancelTimeoutIs(s1, t, true);
    var s0 := SetPhase(s1, t, Plain);
    CancelCalm(s0, s.calls[k].slot, true);
    CalmIsSameCalls(s0, DoCancel(s0, s.calls[k].slot, true));
    ArmedStays(s0, DoCancel(s0, s.calls[k].slot, true), k);
  }

  lemma CheckedIs(s: Sys, t: nat)
    requires InCall(s, t) && PhaseOn(s, t).Checking? && s.calls[PhaseOn(s, t).call].alive && !s.calls[PhaseOn(s, t).call].canceled
    ensures var s1, k := DoCheckTimeout(s, t), PhaseOn(s, t).call;
            && s1.threads == s.threads && s1.pool == s.pool && s1.live == s.live && s1.regs == s.regs && s1.timers == s.timers
            && InCall(s1, t) && PhaseOn(s1, t) == Cancelling(k) && s1.calls == s.calls[k := s.calls[k].(canceled := true)]
            && s1.crashed == s.crashed
  {
  }

  lemma ArmedStays(s: Sys, s': Sys, k: nat)
    requires SameCalls(s, s')
    ensures s'.calls == s.calls && (Armed(s, k) ==> Armed(s', k))
  {
  }
}
