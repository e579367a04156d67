/** Histories of the task pool: every accepted task gets a number; the pool holds numbers. */
module TaskHistory {
  import opened Wrappers
  import opened TaskPool

  /** `tasks` are the accepted tasks in order; `takenBy` who took which; `hand` what each thread holds;
      `madeInto` the coroutine task a callback became. */
  datatype Hist = Hist(tasks: seq<Task>, pool: seq<nat>, takenBy: map<nat, nat>, hand: map<nat, nat>, madeInto: map<nat, nat>)

  datatype Label =
    | Accept(work: Option<Work>, pin: nat, force: bool, autoStop: bool)
    | TakeOne(tid: nat)
    | Turn(tid: nat, co: nat)  // a callback in hand is turned into a coroutine and queued, by force
    | Run(tid: nat)            // a coroutine in hand is executed

  /** A number that was never given out stands for some task or other; the pool has none (see Sane). */
  function TaskAt(h: Hist, n: nat): Task {
    if n < |h.tasks| then h.tasks[n] else Task(Co(0), 0)
  }

  function InPool(h: Hist): (pool: Pool)
    ensures |pool| == |h.pool|
    ensures forall i :: 0 <= i < |pool| ==> pool[i] == TaskAt(h, h.pool[i])
  {
    seq(|h.pool|, i requires 0 <= i < |h.pool| => TaskAt(h, h.pool[i]))
  }

  function Append(h: Hist, task: Task): Hist {
    h.(tasks := h.tasks + [task], pool := h.pool + [|h.tasks|])
  }

  predicate Enabled(h: Hist, l: Label) {
    match l
    case Accept(_, _, _, _) => true
    case TakeOne(tid) => tid != 0 && tid !in h.hand
    case Turn(tid, _) => tid in h.hand && h.hand[tid] < |h.tasks| && h.tasks[h.hand[tid]].work.Cb?
    case Run(tid) => tid in h.hand && h.hand[tid] < |h.tasks| && h.tasks[h.hand[tid]].work.Co?
  }

  function Apply(h: Hist, l: Label): Hist
    requires Enabled(h, l)
  {
    match l
    case Accept(work, pin, force, autoStop) =>
      if (autoStop && !force) || work.None? then h else Append(h, Task(work.value, pin))
    case TakeOne(tid) =>
      var i := FirstEligible(InPool(h), tid);
      if i == |h.pool| then h
      else h.(pool := h.pool[..i] + h.pool[i + 1..], takenBy := h.takenBy[h.pool[i] := tid], hand := h.hand[tid := h.pool[i]])
    case Turn(tid, co) =>
      var n := h.hand[tid];
      Append(h, Task(Co(co), h.tasks[n].threadId)).(hand := h.hand - {tid}, madeInto := h.madeInto[n := |h.tasks|])
    case Run(tid) => h.(hand := h.hand - {tid})
  }

  /** The pool is in order of acceptance, and what is not in it has been taken. */
  ghost predicate Sane(h: Hist) {
    && (forall i :: 0 <= i < |h.pool| ==> h.pool[i] < |h.tasks|)
    && (forall i, j :: 0 <= i < j < |h.pool| ==> h.pool[i] < h.pool[j])
    && (forall n :: n in h.takenBy ==> n < |h.tasks|)
    && (forall n: nat :: n < |h.tasks| ==> (n in h.pool <==> n !in h.takenBy))
  }

  /** A thread holds what it took; a callback that left its hand became one coroutine task, with its pin. */
  ghost predicate HandsOk(h: Hist) {
    && (forall n :: n in h.takenBy ==> h.takenBy[n] != 0 && n < |h.tasks| && Eligible(h.tasks[n], h.takenBy[n]))
    && (forall t :: t in h.hand ==> h.hand[t] in h.takenBy && h.takenBy[h.hand[t]] == t && h.hand[t] !in h.madeInto)
    && (forall n :: n in h.madeInto ==>
          && n < h.madeInto[n] < |h.tasks| && n in h.takenBy && h.tasks[n].work.Cb?
          && h.tasks[h.madeInto[n]].work.Co? && h.tasks[h.madeInto[n]].threadId == h.tasks[n].threadId)
    && (forall n, m :: n in h.madeInto && m in h.madeInto && n != m ==> h.madeInto[n] != h.madeInto[m])
    && (forall n :: n in h.takenBy && n < |h.tasks| && h.tasks[n].work.Cb? ==>
          n in h.madeInto || (h.takenBy[n] in h.hand && h.hand[h.takenBy[n]] == n))
  }

  // ---------------------------------------------------------------- the list of the scheduler

  /** The labels do to the tasks in the pool what the methods of class Scheduler do to its list. */
  lemma AcceptIsQueue(h: Hist, work: Option<Work>, pin: nat, force: bool, autoStop: bool)
    requires Sane(h)
    ensures InPool(Apply(h, Accept(work, pin, force, autoStop))) == Queue(InPool(h), autoStop, work, pin, force)
  {
    if !(autoStop && !force) && work.Some? { AppendIs(h, Task(work.value, pin)); }
  }

  lemma AppendIs(h: Hist, task: Task)
    requires Sane(h)
    ensures InPool(Append(h, task)) == InPool(h) + [task]
  {
  }

  lemma TakeIsWithout(h: Hist, tid: nat)
    requires Enabled(h, TakeOne(tid))
    ensures var i, h' := FirstEligible(InPool(h), tid), Apply(h, TakeOne(tid));
            if i == |InPool(h)| then h' == h
            else InPool(h') == Without(InPool(h), i) && tid in h'.hand && TaskAt(h', h'.hand[tid]) == InPool(h)[i]
  {
    hide FirstEligible, Eligible;
  }

  lemma TurnIsQueue(h: Hist, tid: nat, co: nat, autoStop: bool)
    requires Sane(h) && Enabled(h, Turn(tid, co))
    ensures InPool(Apply(h, Turn(tid, co)))
            == Queue(InPool(h), autoStop, Some(Co(co)), h.tasks[h.hand[tid]].threadId, true)
  {
    AppendIs(h, Task(Co(co), h.tasks[h.hand[tid]].threadId));
  }

  /** Executing a coroutine empties the thread's hand and changes nothing else. */
  lemma RunFrees(h: Hist, tid: nat)
    requires Enabled(h, Run(tid))
    ensures var h' := Apply(h, Run(tid));
            && tid !in h'.hand && (forall t :: t != tid && t in h.hand ==> t in h'.hand && h'.hand[t] == h.hand[t])
            && h' == h.(hand := h'.hand)
  {
  }

  // ---------------------------------------------------------------- every step keeps the order

  /** Taking one element out of the pool. */
  lemma Removed(pool: seq<nat>, i: nat)
    requires i < |pool| && forall a, b :: 0 <= a < b < |pool| ==> pool[a] < pool[b]
    ensures var rest := pool[..i] + pool[i + 1..];
            && (forall a, b :: 0 <= a < b < |rest| ==> rest[a] < rest[b])
            && (forall n :: n in rest <==> n in pool && n != pool[i])
  {
    var rest := pool[..i] + pool[i + 1..];
    assert forall k :: 0 <= k < |rest| ==> rest[k] == pool[if k < i then k else k + 1];
    forall n | n in pool && n != pool[i]
      ensures n in rest
    {
      var k :| 0 <= k < |pool| && pool[k] == n;
      assert rest[if k < i then k else k - 1] == n;
    }
  }

  lemma SaneWithout(h: Hist, h': Hist, i: nat, tid: nat)
    requires Sane(h) && i < |h.pool| && h'.tasks == h.tasks
    requires h'.pool == h.pool[..i] + h.pool[i + 1..] && h'.takenBy == h.takenBy[h.pool[i] := tid]
    ensures Sane(h')
  {
    Removed(h.pool, i);
    InBounds(h);
    assert h.pool[i] in h.pool;
    forall k | 0 <= k < |h'.pool|
      ensures h'.pool[k] < |h.tasks|
    {
      assert h'.pool[k] in h'.pool;
    }
  }

  lemma InBounds(h: Hist)
    requires Sane(h)
    ensures forall n :: n in h.pool ==> n < |h.tasks|
  {
  }

  lemma TakeSane(h: Hist, tid: nat)
    requires Sane(h) && Enabled(h, TakeOne(tid))
    ensures Sane(Apply(h, TakeOne(tid)))
  {
    hide FirstEligible, Eligible;
    var i := FirstEligible(InPool(h), tid);
    if i < |h.pool| {
      SaneWithout(h, Apply(h, TakeOne(tid)), i, tid);
    }
  }

  lemma StepSane(h: Hist, l: Label)
    requires Sane(h) && Enabled(h, l)
    ensures Sane(Apply(h, l))
  {
    if l.TakeOne? { TakeSane(h, l.tid); }
  }

  lemma TakeHands(h: Hist, tid: nat)
    requires Sane(h) && HandsOk(h) && Enabled(h, TakeOne(tid))
    ensures HandsOk(Apply(h, TakeOne(tid)))
  {
    hide FirstEligible;
    var i := FirstEligible(InPool(h), tid);
    if i < |h.pool| {
      assert h.pool[i] in h.pool;
      assert InPool(h)[i] == h.tasks[h.pool[i]];
    }
  }

  lemma TurnHands(h: Hist, l: Label)
    requires Sane(h) && HandsOk(h) && Enabled(h, l) && l.Turn?
    ensures HandsOk(Apply(h, l))
  {
    hide FirstEligible, Eligible, Sane;
  }

  lemma StepHands(h: Hist, l: Label)
    requires Sane(h) && HandsOk(h) && Enabled(h, l)
    ensures HandsOk(Apply(h, l))
  {
    hide FirstEligible, Eligible, Sane;
    if l.TakeOne? {
      TakeHands(h, l.tid);
    } else if l.Turn? {
      TurnHands(h, l);
    }
  }

  function Start(): Hist {
    Hist([], [], map[], map[], map[])
  }

  ghost predicate Execution(ls: seq<Label>, hs: seq<Hist>) {
    && |hs| == |ls| + 1 && hs[0] == Start()
    && forall k :: 0 <= k < |ls| ==> Enabled(hs[k], ls[k]) && hs[k + 1] == Apply(hs[k], ls[k])
  }

  lemma {:induction false} ExecutionInv(ls: seq<Label>, hs: seq<Hist>, k: nat)
    requires Execution(ls, hs) && k <= |ls|
    ensures Sane(hs[k]) && HandsOk(hs[k])
  {
    hide Apply, Enabled;
    if k == 0 {
      assert Sane(Start()) && HandsOk(Start());
    } else {
      ExecutionInv(ls, hs, k - 1);
      StepSane(hs[k - 1], ls[k - 1]);
      StepHands(hs[k - 1], ls[k - 1]);
    }
  }

  /** Over every run: an accepted task is either in the pool, once, or was taken, by one thread that its
      pin allows; a callback taken is still in its taker's hand or became exactly one coroutine task,
      with the same pin. */
  lemma EveryTaskOnce(ls: seq<Label>, hs: seq<Hist>, k: nat, n: nat)
    requires Execution(ls, hs) && k <= |ls| && n < |hs[k].tasks|
    ensures n in hs[k].pool <==> n !in hs[k].takenBy
    ensures forall i, j :: 0 <= i < j < |hs[k].pool| ==> hs[k].pool[i] != hs[k].pool[j]
    ensures n in hs[k].takenBy ==> Eligible(hs[k].tasks[n], hs[k].takenBy[n])
    ensures n in hs[k].takenBy && hs[k].tasks[n].work.Cb? ==>
              var h := hs[k];
              if n in h.madeInto then h.madeInto[n] < |h.tasks| && h.tasks[h.madeInto[n]].work.Co?
                                      && h.tasks[h.madeInto[n]].threadId == h.tasks[n].threadId
              else h.takenBy[n] in h.hand && h.hand[h.takenBy[n]] == n
  {
    ExecutionInv(ls, hs, k);
  }

  lemma Ordered(pool: seq<nat>, a: nat, b: nat)
    requires a < |pool| && b < |pool| && pool[a] < pool[b] && forall i, j :: 0 <= i < j < |pool| ==> pool[i] < pool[j]
    ensures a < b
  {
  }

  /** What is taken is the earliest accepted task the thread may take, and it stays taken by that thread. */
  lemma TakesTheEarliest(h: Hist, tid: nat, n: nat)
    requires Sane(h) && HandsOk(h) && Enabled(h, TakeOne(tid))
    requires var h' := Apply(h, TakeOne(tid)); tid in h'.hand && h'.hand[tid] == n
    ensures n < |h.tasks| && n !in h.takenBy && Eligible(h.tasks[n], tid)
    ensures forall m: nat :: m < n && m !in h.takenBy ==> !Eligible(h.tasks[m], tid)
  {
    var i := FirstEligible(InPool(h), tid);
    assert i < |h.pool| && n == h.pool[i] && n in h.pool;
    assert InPool(h)[i] == h.tasks[n];
    forall m: nat | m < n && m !in h.takenBy
      ensures !Eligible(h.tasks[m], tid)
    {
      assert m in h.pool;
      var j :| 0 <= j < |h.pool| && h.pool[j] == m;
      Ordered(h.pool, j, i);
      assert InPool(h)[j] == h.tasks[m];
    }
  }
}
