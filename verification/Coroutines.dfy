/** Coroutine stacks of one thread (src/coroutine.cpp), as control state: who is current, which stack each
    coroutine is on, and whose continuation each saved context holds.  No caller coroutine is set, and
    switching contexts does not fail.

    A number the maps do not mention is a coroutine nobody has resumed yet. */
module Coroutines {
  datatype State = INIT | YIELD | EXECING | TERMINAL | EXCEPT

  /** `link` is the coroutine whose context m_ctx.uc_link points to. */
  datatype Co = Co(stackId: nat, state: State, link: nat)

  datatype Event = Started(stack: nat, co: nat) | Finished(stack: nat, co: nat)

  /** `running` is whose code the thread really executes; `saved` whose continuation each context holds.
      The log is the history of the stacks. */
  datatype Thread = Thread(cos: map<nat, Co>, stacks: map<nat, seq<nat>>, cur: nat, lastStackId: nat,
                           running: nat, saved: map<nat, nat>, log: seq<Event>)

  const MAIN: nat := 0

  function Of(cos: map<nat, Co>, c: nat): Co {
    if c in cos then cos[c] else Co(0, INIT, MAIN)
  }

  function Holder(saved: map<nat, nat>, c: nat): nat {
    if c in saved then saved[c] else c
  }

  /** Empty if there is no such stack. */
  function StackAt(stacks: map<nat, seq<nat>>, id: nat): seq<nat> {
    if id in stacks then stacks[id] else []
  }

  function Top(stack: seq<nat>): nat {
    if stack == [] then MAIN else stack[|stack| - 1]
  }

  function SetState(cos: map<nat, Co>, c: nat, state: State): map<nat, Co> {
    cos[c := Of(cos, c).(state := state)]
  }

  /** swapcontext(into, from). */
  function Swap(t: Thread, into: nat, from: nat): Thread {
    var saved := t.saved[into := t.running];
    t.(saved := saved, running := Holder(saved, from))
  }

  /** c.resume(), for any c. */
  function Resume(t: Thread, c: nat): Thread {
    var co, cur := Of(t.cos, c), Of(t.cos, t.cur);
    if co.stackId > 0 || (cur.state == EXECING && t.cur != MAIN) then
      var id := if co.stackId > 0 then co.stackId else cur.stackId;
      ResumeOn(t.(cos := t.cos[c := co.(stackId := id)]), c, id)
    else
      StartOn(t, c, MAIN)
  }

  function ResumeOn(t: Thread, c: nat, id: nat): Thread {
    if id !in t.stacks then t
    else
      var top := Top(t.stacks[id]);
      var t1 := if top == c then t else Push(t, c, id, top);
      if Of(t1.cos, c).state in {EXECING, TERMINAL, EXCEPT} then t1 else SwitchTo(t1, c)
  }

  function Push(t: Thread, c: nat, id: nat, top: nat): Thread {
    var cos := SetState(t.cos, top, YIELD);
    t.(cos := cos[c := Of(cos, c).(link := top)], stacks := t.stacks[id := StackAt(t.stacks, id) + [c]],
       log := t.log + [Started(id, c)])
  }

  function SwitchTo(t: Thread, c: nat): Thread {
    var cos := SetState(t.cos, c, EXECING);
    if Of(cos, MAIN).state == EXECING then
      Swap(t.(cos := SetState(cos, MAIN, YIELD), cur := c), MAIN, c)
    else
      Swap(t.(cos := SetState(cos, t.cur, YIELD), cur := c), Of(cos, c).link, c)
  }

  /** A stack of its own; `back` is the coroutine that is left. */
  function StartOn(t: Thread, c: nat, back: nat): Thread {
    var id := t.lastStackId + 1;
    var cos := SetState(t.cos, back, YIELD)[c := Co(id, EXECING, MAIN)];
    Swap(t.(cos := cos, stacks := t.stacks[id := [c]], cur := c, lastStackId := id, log := t.log + [Started(id, c)]), back, c)
  }

  function ResumeWithNewStack(t: Thread, c: nat): Thread {
    if Of(t.cos, c).stackId > 0 || c == MAIN then t else StartOn(t, c, t.cur)
  }

  /** c.yield(), for any c. */
  function Yield(t: Thread, c: nat): Thread {
    var id := Of(t.cos, c).stackId;
    if id !in t.stacks || c != Top(t.stacks[id]) then t
    else
      var cos := if Of(t.cos, c).state == EXECING then SetState(t.cos, c, YIELD) else t.cos;
      Swap(t.(cos := SetState(cos, MAIN, EXECING), cur := MAIN), c, MAIN)
  }

  /** The end of MainFunc, for the current coroutine. */
  function Finish(t: Thread, state: State): Thread {
    var c, id := t.cur, Of(t.cos, t.cur).stackId;
    var stack := StackAt(t.stacks, id);
    var rest := if stack == [] then [] else stack[..|stack| - 1];
    var next := Top(rest);
    t.(cos := SetState(SetState(t.cos, c, state), next, EXECING), cur := next, running := Holder(t.saved, next),
       stacks := if rest == [] then t.stacks - {id} else t.stacks[id := rest],
       log := t.log + [Finished(id, c)])
  }

  /** Coroutine::Resume(stackId). */
  function ResumeStack(t: Thread, id: nat): Thread {
    if id in t.stacks then Resume(t, Top(t.stacks[id]))
    else if Of(t.cos, MAIN).state == EXECING then t
    else t.(cos := SetState(t.cos, MAIN, EXECING), running := Holder(t.saved, MAIN))
  }

  // ---------------------------------------------------------------- the invariant

  predicate OnTop(t: Thread, c: nat) {
    var id := Of(t.cos, c).stackId;
    id in t.stacks && t.stacks[id] != [] && Top(t.stacks[id]) == c
  }

  predicate Stacked(t: Thread, c: nat) {
    c in StackAt(t.stacks, Of(t.cos, c).stackId)
  }

  /** Exactly one coroutine is EXECING, and it is the current one; a current one that is not the main
      coroutine is the top of its stack. */
  predicate OneExecing(t: Thread) {
    && (forall c :: c in t.cos ==> (Of(t.cos, c).state == EXECING <==> c == t.cur))
    && Of(t.cos, t.cur).state == EXECING
    && (t.cur != MAIN ==> OnTop(t, t.cur))
    && MAIN in t.cos && Of(t.cos, MAIN).stackId == 0 && Of(t.cos, MAIN).state in {EXECING, YIELD}
  }

  /** No mapped stack is empty; what is on a stack knows it, and is there once. */
  predicate StacksOk(t: Thread) {
    && (forall s :: s in t.stacks ==> 0 < s <= t.lastStackId && t.stacks[s] != [])
    && (forall s, i :: s in t.stacks && 0 <= i < |t.stacks[s]| ==>
                         t.stacks[s][i] != MAIN && t.stacks[s][i] in t.cos && Of(t.cos, t.stacks[s][i]).stackId == s)
    && (forall s, i, j :: s in t.stacks && 0 <= i < j < |t.stacks[s]| ==> t.stacks[s][i] != t.stacks[s][j])
  }

  /** A coroutine is on a stack exactly while it is suspended or current, and has a stack number exactly
      once it has been resumed. */
  predicate StatesOk(t: Thread) {
    && (forall c :: c in t.cos && c != MAIN ==> (Stacked(t, c) <==> Of(t.cos, c).state in {YIELD, EXECING}))
    && (forall c :: c in t.cos && c != MAIN ==> (Of(t.cos, c).stackId == 0 <==> Of(t.cos, c).state == INIT))
    && (forall c :: c in t.cos ==> Of(t.cos, c).stackId <= t.lastStackId)
  }

  predicate Inv(t: Thread) {
    OneExecing(t) && StacksOk(t) && StatesOk(t)
  }

  /** The link of a stacked coroutine is the one below it, or the main coroutine. */
  predicate LinksOk(t: Thread) {
    forall s, i :: s in t.stacks && 0 <= i < |t.stacks[s]| ==>
                     Of(t.cos, t.stacks[s][i]).link == Below(t.stacks[s], i)
  }

  function Below(stack: seq<nat>, i: nat): nat
    requires i < |stack|
  {
    if i == 0 then MAIN else stack[i - 1]
  }

  /** The thread really runs the current coroutine, and every other can be continued where it was. */
  predicate ContextsOk(t: Thread) {
    t.running == t.cur && forall c :: c in t.saved ==> Holder(t.saved, c) == c
  }

  predicate IsFresh(t: Thread, c: nat) {
    c != MAIN && Of(t.cos, c) == Of(t.cos, c).(stackId := 0, state := INIT)
  }

  function Start(): Thread {
    Thread(map[MAIN := Co(0, EXECING, MAIN)], map[], MAIN, 0, MAIN, map[], [])
  }

  lemma StartInv()
    ensures Inv(Start()) && ContextsOk(Start())
  {
  }

  // ---------------------------------------------------------------- each operation

  /** What a new stack changes. */
  lemma StartOnIs(t: Thread, c: nat)
    requires Inv(t) && IsFresh(t, c)
    ensures var t', id := StartOn(t, c, t.cur), t.lastStackId + 1;
            && id !in t.stacks && t'.stacks == t.stacks[id := [c]] && t'.cur == c && t'.lastStackId == id
            && c != t.cur && c != MAIN && t.cur in t.cos
            && Of(t'.cos, c) == Co(id, EXECING, MAIN) && Of(t'.cos, t.cur) == Of(t.cos, t.cur).(state := YIELD)
            && t'.cos.Keys == t.cos.Keys + {c} && (forall d :: d != c && d != t.cur ==> Of(t'.cos, d) == Of(t.cos, d))
    ensures forall s, i :: s in t.stacks && 0 <= i < |t.stacks[s]| ==> t.stacks[s][i] != c
  {
    FreshIsNowhere(t, c);
  }

  lemma StartOnStacks(t: Thread, c: nat)
    requires Inv(t) && IsFresh(t, c)
    ensures StacksOk(StartOn(t, c, t.cur))
  {
    hide StartOn, StatesOk, OneExecing;
    StartOnIs(t, c);
  }

  lemma StartOnStates(t: Thread, c: nat)
    requires Inv(t) && IsFresh(t, c)
    ensures StatesOk(StartOn(t, c, t.cur)) && OneExecing(StartOn(t, c, t.cur))
  {
    hide StartOn, StacksOk;
    StartOnIs(t, c);
  }

  lemma StartOnKeeps(t: Thread, c: nat)
    requires Inv(t) && IsFresh(t, c)
    ensures Inv(StartOn(t, c, t.cur)) && (ContextsOk(t) ==> ContextsOk(StartOn(t, c, t.cur)))
  {
    hide ContextsOk, StartOn, StacksOk, StatesOk, OneExecing, IsFresh;
    StartOnContexts(t, c);
    StartOnStacks(t, c);
    StartOnStates(t, c);
  }

  lemma StartOnContexts(t: Thread, c: nat)
    ensures ContextsOk(t) ==> ContextsOk(StartOn(t, c, t.cur))
  {
  }

  lemma YieldKeeps(t: Thread)
    requires Inv(t) && t.cur != MAIN
    ensures Inv(Yield(t, t.cur)) && (ContextsOk(t) ==> ContextsOk(Yield(t, t.cur)))
  {
  }

  /** What finishing changes: two coroutines and one stack. */
  lemma FinishIs(t: Thread, state: State)
    requires Inv(t) && t.cur != MAIN && state in {TERMINAL, EXCEPT}
    ensures var t', id := Finish(t, state), Of(t.cos, t.cur).stackId;
            var rest := t.stacks[id][..|t.stacks[id]| - 1];
            && id in t.stacks && t.stacks[id] == rest + [t.cur] && t'.cur == Top(rest) && t'.cur != t.cur
            && (rest == [] ==> t'.cur == MAIN && t'.stacks == t.stacks - {id})
            && (rest != [] ==> t'.cur in rest && t'.cur != MAIN && t'.stacks == t.stacks[id := rest] && Of(t.cos, t'.cur).stackId == id)
            && t.cur !in rest
            && t'.cos.Keys == t.cos.Keys && t'.cur in t.cos && t.cur in t.cos && t'.lastStackId == t.lastStackId
            && Of(t'.cos, t.cur) == Of(t.cos, t.cur).(state := state)
            && Of(t'.cos, t'.cur) == Of(t.cos, t'.cur).(state := EXECING)
            && (forall d :: d != t.cur && d != t'.cur ==> Of(t'.cos, d) == Of(t.cos, d))
  {
    hide Inv, OneExecing, StacksOk, StatesOk, OnTop;
    CurIsOnTop(t);
  }

  /** The stack of the current coroutine. */
  lemma CurIsOnTop(t: Thread)
    requires Inv(t) && t.cur != MAIN
    ensures var id := Of(t.cos, t.cur).stackId;
            && id in t.stacks && t.stacks[id] != [] && t.cur in t.cos && MAIN in t.cos
            && var rest := t.stacks[id][..|t.stacks[id]| - 1];
               && t.stacks[id] == rest + [t.cur] && t.cur !in rest
               && (rest != [] ==> Top(rest) in rest && Top(rest) in t.cos && Top(rest) != MAIN && Of(t.cos, Top(rest)).stackId == id)
  {
    hide StatesOk;
    var id := Of(t.cos, t.cur).stackId;
    var rest := t.stacks[id][..|t.stacks[id]| - 1];
    assert t.stacks[id] == rest + [t.cur];
    assert rest != [] ==> rest[|rest| - 1] == t.stacks[id][|rest| - 1];
    assert forall i :: 0 <= i < |rest| ==> rest[i] == t.stacks[id][i];
  }

  lemma FinishStates(t: Thread, state: State, d: nat)
    requires Inv(t) && t.cur != MAIN && state in {TERMINAL, EXCEPT} && d in t.cos && d != MAIN
    ensures var t' := Finish(t, state);
            && (Stacked(t', d) <==> Of(t'.cos, d).state in {YIELD, EXECING})
            && (Of(t'.cos, d).stackId == 0 <==> Of(t'.cos, d).state == INIT)
  {
    hide Finish, StacksOk, Top, OnTop, Inv;
    var t' := Finish(t, state);
    FinishIs(t, state);
    InvFacts(t, d);
    InvFacts(t, t.cur);
    var id := Of(t.cos, t.cur).stackId;
    var rest := t.stacks[id][..|t.stacks[id]| - 1];
    assert d in t.stacks[id] <==> d in rest || d == t.cur;
    assert StackAt(t'.stacks, id) == rest;
    assert Of(t'.cos, d).stackId == Of(t.cos, d).stackId;
    assert Of(t.cos, d).stackId != id ==> StackAt(t'.stacks, Of(t.cos, d).stackId) == StackAt(t.stacks, Of(t.cos, d).stackId);
  }

  lemma InvFacts(t: Thread, d: nat)
    requires Inv(t) && d in t.cos && d != MAIN
    ensures Stacked(t, d) <==> Of(t.cos, d).state in {YIELD, EXECING}
    ensures Of(t.cos, d).state == EXECING <==> d == t.cur
    ensures Of(t.cos, d).stackId == 0 <==> Of(t.cos, d).state == INIT
    ensures d == t.cur ==> Stacked(t, d)
  {
  }

  lemma FinishKeeps(t: Thread, state: State)
    requires Inv(t) && t.cur != MAIN && state in {TERMINAL, EXCEPT}
    ensures Inv(Finish(t, state))
  {
    hide Finish, StacksOk, OnTop, Stacked, StackAt;
    FinishIs(t, state);
    var t' := Finish(t, state);
    FinishStacks(t, state);
    FinishExecing(t, state);
    forall d | d in t'.cos && d != MAIN
      ensures Stacked(t', d) <==> Of(t'.cos, d).state in {YIELD, EXECING}
      ensures Of(t'.cos, d).stackId == 0 <==> Of(t'.cos, d).state == INIT
    {
      FinishStates(t, state, d);
    }
    FinishNumbers(t, state);
  }

  lemma FinishExecing(t: Thread, state: State)
    requires Inv(t) && t.cur != MAIN && state in {TERMINAL, EXCEPT}
    ensures OneExecing(Finish(t, state))
  {
    hide Finish, StacksOk, StatesOk;
    FinishIs(t, state);
  }

  lemma FinishNumbers(t: Thread, state: State)
    requires Inv(t) && t.cur != MAIN && state in {TERMINAL, EXCEPT}
    ensures forall c :: c in Finish(t, state).cos ==> Of(Finish(t, state).cos, c).stackId <= Finish(t, state).lastStackId
  {
    hide Finish, StacksOk, OneExecing, Stacked;
    FinishIs(t, state);
  }

  lemma FinishStacks(t: Thread, state: State)
    requires Inv(t) && t.cur != MAIN && state in {TERMINAL, EXCEPT}
    ensures StacksOk(Finish(t, state))
  {
    hide Finish, StatesOk;
    FinishIs(t, state);
  }

  lemma FinishContexts(t: Thread, state: State)
    requires Inv(t) && t.cur != MAIN && ContextsOk(t)
    ensures ContextsOk(Finish(t, state))
  {
    var id := Of(t.cos, t.cur).stackId;
    assert Finish(t, state).cur != t.cur;
  }

  /** A fresh coroutine resumed from another: on top of that one's stack. */
  lemma PushKeeps(t: Thread, c: nat)
    requires Inv(t) && IsFresh(t, c) && t.cur != MAIN
    ensures var id := Of(t.cos, t.cur).stackId;
            var t' := Resume(t, c);
            && id in t.stacks && t'.stacks == t.stacks[id := t.stacks[id] + [c]] && t'.cur == c && t'.lastStackId == t.lastStackId
            && t'.log == t.log + [Started(id, c)]
            && Of(t'.cos, c) == Co(id, EXECING, t.cur) && Of(t'.cos, t.cur) == Of(t.cos, t.cur).(state := YIELD)
            && t'.cos.Keys == t.cos.Keys + {c} && (forall d :: d != c && d != t.cur ==> Of(t'.cos, d) == Of(t.cos, d))
            && (ContextsOk(t) ==> ContextsOk(t'))
  {
  }

  lemma PushInv(t: Thread, c: nat)
    requires Inv(t) && IsFresh(t, c) && t.cur != MAIN
    ensures Inv(Resume(t, c))
  {
    hide Resume, IsFresh, ContextsOk;
    PushKeeps(t, c);
    FreshIsNowhere(t, c);
    var t', id := Resume(t, c), Of(t.cos, t.cur).stackId;
    assert forall d :: d in t.stacks[id] + [c] <==> d in t.stacks[id] || d == c;
    PushStacks(t, t', c, id);
  }

  lemma PushStacks(t: Thread, t': Thread, c: nat, id: nat)
    requires Inv(t) && id in t.stacks && t'.stacks == t.stacks[id := t.stacks[id] + [c]] && t'.lastStackId == t.lastStackId
    requires t'.cos.Keys == t.cos.Keys + {c} && c != MAIN && Of(t'.cos, c).stackId == id
    requires forall d :: d != c ==> Of(t'.cos, d).stackId == Of(t.cos, d).stackId
    requires forall s, i :: s in t.stacks && 0 <= i < |t.stacks[s]| ==> t.stacks[s][i] != c
    ensures StacksOk(t')
  {
  }

  lemma FreshIsNowhere(t: Thread, c: nat)
    requires Inv(t) && IsFresh(t, c)
    ensures forall s, i :: s in t.stacks && 0 <= i < |t.stacks[s]| ==> t.stacks[s][i] != c
    ensures c != t.cur && c != MAIN
  {
  }

  /** The top of a stack resumed: from the main coroutine or from the top of another stack. */
  lemma TopIs(t: Thread, c: nat)
    requires Inv(t) && OnTop(t, c) && c != MAIN && c in t.cos
    ensures c == t.cur ==> Resume(t, c) == t
    ensures c != t.cur ==>
              var t' := Resume(t, c);
              && t'.stacks == t.stacks && t'.cur == c && t'.lastStackId == t.lastStackId && t'.log == t.log
              && t'.cos.Keys == t.cos.Keys
              && Of(t'.cos, c) == Of(t.cos, c).(state := EXECING) && Of(t'.cos, t.cur) == Of(t.cos, t.cur).(state := YIELD)
              && (forall d :: d != c && d != t.cur ==> Of(t'.cos, d) == Of(t.cos, d))
              && t'.saved == t.saved[(if t.cur == MAIN then MAIN else Of(t.cos, c).link) := t.running]
              && t'.running == Holder(t'.saved, c)
  {
    var co := Of(t.cos, c);
    TopState(t, c);
    assert t.cos[c := co.(stackId := co.stackId)] == t.cos;
    assert t.(cos := t.cos) == t;
  }

  lemma TopState(t: Thread, c: nat)
    requires Inv(t) && OnTop(t, c) && c != MAIN
    ensures c in t.cos && Of(t.cos, c).stackId > 0 && Of(t.cos, c).state == (if c == t.cur then EXECING else YIELD)
  {
    assert c in t.stacks[Of(t.cos, c).stackId];
  }

  lemma TopKeeps(t: Thread, c: nat)
    requires Inv(t) && OnTop(t, c) && c != MAIN
    ensures Inv(Resume(t, c))
  {
    hide Resume;
    TopState(t, c);
    TopIs(t, c);
  }

  /** A number whose stack is gone: nothing happens. */
  lemma GoneIs(t: Thread, c: nat)
    requires Of(t.cos, c).stackId > 0 && Of(t.cos, c).stackId !in t.stacks && c in t.cos
    ensures Resume(t, c) == t
  {
    assert t.cos[c := Of(t.cos, c)] == t.cos;
  }

  /** resume keeps the invariant exactly when its target is a fresh coroutine, or the top of its stack, or
      one whose stack is gone.  (A finished or a covered coroutine is pushed a second time; the main
      coroutine has no stack.) */
  lemma ResumeKeepsIff(t: Thread, c: nat)
    requires Inv(t)
    ensures Inv(Resume(t, c)) <==>
              c != MAIN && (IsFresh(t, c) || OnTop(t, c) || (Of(t.cos, c).stackId > 0 && Of(t.cos, c).stackId !in t.stacks))
  {
    var id := Of(t.cos, c).stackId;
    if c == MAIN {
      MainBreaks(t);
    } else if IsFresh(t, c) {
      if t.cur == MAIN { StartOnKeeps(t, c); } else { PushInv(t, c); }
    } else if id !in t.stacks {
      GoneIs(t, c);
    } else if OnTop(t, c) {
      TopKeeps(t, c);
    } else {
      CoveredBreaks(t, c);
    }
  }

  lemma MainBreaks(t: Thread)
    requires Inv(t)
    ensures !Inv(Resume(t, MAIN))
  {
    var t' := Resume(t, MAIN);
    if t.cur == MAIN {
      assert t'.stacks[t.lastStackId + 1][0] == MAIN;
    } else {
      assert Of(t'.cos, MAIN).stackId != 0;
    }
  }

  lemma CoveredBreaks(t: Thread, c: nat)
    requires Inv(t) && c != MAIN && Of(t.cos, c).stackId in t.stacks && !OnTop(t, c)
    ensures !Inv(Resume(t, c))
  {
    var id := Of(t.cos, c).stackId;
    var stack := t.stacks[id];
    var t' := Resume(t, c);
    assert id > 0 && stack != [] && Top(stack) != c && c in t.cos;
    assert t.cos[c := Of(t.cos, c)] == t.cos;
    assert t'.stacks[id] == stack + [c];
    if c in stack {
      var i :| 0 <= i < |stack| && stack[i] == c;
      assert t'.stacks[id][i] == t'.stacks[id][|stack|];
    } else {
      assert !Stacked(t, c) && Of(t.cos, c).state in {TERMINAL, EXCEPT};
      assert Of(t'.cos, c).state in {TERMINAL, EXCEPT} && Stacked(t', c);
    }
  }

  /** Among those, resume leaves every context right exactly when the target is fresh, or the call comes
      from the main coroutine, or the target is running already.  Resuming the top of another stack from
      a coroutine saves that coroutine's continuation in the wrong context. */
  lemma ResumeContextsIff(t: Thread, c: nat)
    requires Inv(t) && LinksOk(t) && ContextsOk(t) && c != MAIN && (IsFresh(t, c) || OnTop(t, c))
    ensures ContextsOk(Resume(t, c)) <==> IsFresh(t, c) || t.cur == MAIN || c == t.cur
  {
    hide Resume, StartOn, OneExecing, StacksOk, StatesOk, LinksOk, IsFresh, OnTop;
    if IsFresh(t, c) {
      if t.cur == MAIN { FreshFromMain(t, c); StartOnKeeps(t, c); } else { PushKeeps(t, c); }
    } else {
      TopState(t, c);
      TopIs(t, c);
      if c != t.cur && t.cur != MAIN {
        LinkIsOther(t, c);
        assert Holder(Resume(t, c).saved, Of(t.cos, c).link) == t.cur;
      }
    }
  }

  lemma FreshFromMain(t: Thread, c: nat)
    requires IsFresh(t, c) && t.cur == MAIN
    ensures Resume(t, c) == StartOn(t, c, t.cur)
  {
  }

  /** What lies below the top of another stack is not the current coroutine. */
  lemma LinkIsOther(t: Thread, c: nat)
    requires Inv(t) && LinksOk(t) && OnTop(t, c) && c != MAIN && c != t.cur && t.cur != MAIN
    ensures Of(t.cos, c).link != t.cur
  {
    hide Inv, LinksOk;
    InvStacks(t);
    CurIsOnTop(t);
    var stack := t.stacks[Of(t.cos, c).stackId];
    TopLink(t, c);
    if |stack| > 1 && stack[|stack| - 2] == t.cur {
      assert false;
    }
  }

  lemma TopLink(t: Thread, c: nat)
    requires LinksOk(t) && OnTop(t, c)
    ensures var stack := t.stacks[Of(t.cos, c).stackId]; Of(t.cos, c).link == if |stack| > 1 then stack[|stack| - 2] else MAIN
  {
    var stack := t.stacks[Of(t.cos, c).stackId];
    assert stack[|stack| - 1] == c;
    assert Of(t.cos, stack[|stack| - 1]).link == Below(stack, |stack| - 1);
  }

  /** Coroutine::Resume on a number keeps the invariant exactly when there is such a stack or the main
      coroutine calls; otherwise two coroutines are left EXECING. */
  lemma ResumeStackKeepsIff(t: Thread, id: nat)
    requires Inv(t)
    ensures Inv(ResumeStack(t, id)) <==> id in t.stacks || t.cur == MAIN
  {
    if id in t.stacks {
      var c := Top(t.stacks[id]);
      assert c == t.stacks[id][|t.stacks[id]| - 1];
      TopKeeps(t, c);
    } else if t.cur != MAIN {
      assert Of(ResumeStack(t, id).cos, MAIN).state == EXECING;
    }
  }

  // ---------------------------------------------------------------- whole runs

  datatype Label = DoResume(c: nat) | DoResumeNew(c: nat) | DoYield | DoFinish(state: State) | DoResumeStack(id: nat)

  /** The documented use: a coroutine resumes a fresh one, the top of a stack (also by its number) or one
      that is over; it yields or ends itself. */
  predicate Allowed(t: Thread, l: Label) {
    match l
    case DoResume(c) =>
      c != MAIN && (IsFresh(t, c) || OnTop(t, c) || (Of(t.cos, c).stackId > 0 && Of(t.cos, c).stackId !in t.stacks))
    case DoResumeNew(c) => true
    case DoYield => t.cur != MAIN
    case DoFinish(state) => t.cur != MAIN && state in {TERMINAL, EXCEPT}
    case DoResumeStack(id) => id in t.stacks || t.cur == MAIN
  }

  function Apply(t: Thread, l: Label): Thread {
    match l
    case DoResume(c) => Resume(t, c)
    case DoResumeNew(c) => ResumeWithNewStack(t, c)
    case DoYield => Yield(t, t.cur)
    case DoFinish(state) => Finish(t, state)
    case DoResumeStack(id) => ResumeStack(t, id)
  }

  // ---------------------------------------------------------------- what each step brings about

  /** The thread goes from its current coroutine to `c`, leaving its continuation in the context of `into` and
      going on with what the context of `c` holds; all other coroutines stay as they are. */
  ghost predicate Switches(t: Thread, t': Thread, c: nat, into: nat) {
    && c != t.cur && t'.cur == c && t'.cos.Keys == t.cos.Keys + {c}
    && Of(t'.cos, c).state == EXECING && Of(t'.cos, t.cur) == Of(t.cos, t.cur).(state := YIELD)
    && (forall d :: d != c && d != t.cur ==> Of(t'.cos, d) == Of(t.cos, d))
    && t'.saved == t.saved[into := t.running] && t'.running == (if c in t'.saved then t'.saved[c] else c)
  }

  /** yield goes from the current coroutine, which stays on top of its stack, to the main one. */
  lemma YieldIs(t: Thread)
    requires Inv(t) && t.cur != MAIN
    ensures var t' := Apply(t, DoYield);
            && Switches(t, t', 0, t.cur) && OnTop(t', t.cur)
            && t'.stacks == t.stacks && t'.lastStackId == t.lastStackId && t'.log == t.log
            && Of(t'.cos, 0) == Of(t.cos, 0).(state := EXECING)
  {
  }

  /** yield of any coroutine does nothing unless that is on top of its stack.  The states survive exactly if it
      is not, or is the current one, or the main one calls; the contexts only in the first two cases. */
  lemma YieldKeepsIff(t: Thread, c: nat)
    requires Inv(t)
    ensures !OnTop(t, c) ==> Yield(t, c) == t
    ensures Inv(Yield(t, c)) <==> !OnTop(t, c) || c == t.cur || t.cur == MAIN
    ensures ContextsOk(t) ==> (ContextsOk(Yield(t, c)) <==> !OnTop(t, c) || c == t.cur)
  {
    var t' := Yield(t, c);
    if OnTop(t, c) && c != t.cur {
      assert c in t'.saved && Holder(t'.saved, c) == t.running;
      assert t.cur != MAIN ==> Of(t'.cos, t.cur).state == EXECING && t'.cur == MAIN;
    } else if OnTop(t, c) {
      YieldKeeps(t);
    }
  }

  /** resumeWithNewStack puts a coroutine that never ran on the next stack and goes to it, whoever calls; on
      any other it does nothing. */
  lemma NewStackIs(t: Thread, c: nat)
    requires Inv(t)
    ensures var t', id := Apply(t, DoResumeNew(c)), t.lastStackId + 1;
            if IsFresh(t, c) then
              && Switches(t, t', c, t.cur) && Of(t'.cos, c) == Co(id, EXECING, 0) && id !in t.stacks
              && t'.stacks == t.stacks[id := [c]] && t'.lastStackId == id && t'.log == t.log + [Started(id, c)]
            else t' == t
  {
    hide StacksOk;
    if IsFresh(t, c) { StartOnIs(t, c); }
  }

  /** resume puts a coroutine that never ran above the current one, or on the next stack if the main one
      calls, and goes to it; the top of a stack it only goes to; what is over it leaves alone. */
  lemma ResumeIs(t: Thread, c: nat)
    requires Inv(t) && Allowed(t, DoResume(c))
    ensures var t' := Apply(t, DoResume(c));
            if IsFresh(t, c) then
              && Switches(t, t', c, t.cur)
              && (if t.cur == 0 then
                    var id := t.lastStackId + 1;
                    Of(t'.cos, c) == Co(id, EXECING, 0) && t'.stacks == t.stacks[id := [c]] && t'.lastStackId == id
                    && t'.log == t.log + [Started(id, c)]
                  else
                    var id := Of(t.cos, t.cur).stackId;
                    id in t.stacks && Of(t'.cos, c) == Co(id, EXECING, t.cur) && t'.stacks == t.stacks[id := t.stacks[id] + [c]]
                    && t'.lastStackId == t.lastStackId && t'.log == t.log + [Started(id, c)])
            else if OnTop(t, c) && c != t.cur then WentTo(t, t', c)
            else t' == t
  {
    hide StacksOk, Resume;
    if IsFresh(t, c) {
      FreshIsNowhere(t, c);
      if t.cur == MAIN {
        FreshFromMain(t, c);
        StartOnIs(t, c);
      } else {
        PushKeeps(t, c);
        PushSwitches(t, c);
      }
    } else if OnTop(t, c) {
      TopState(t, c);
      TopIs(t, c);
    } else {
      GoneIs(t, c);
    }
  }

  /** From the current coroutine to the top of another stack; the continuation left is the main one's if that
      called, else it is left in the context the target's link names. */
  ghost predicate WentTo(t: Thread, t': Thread, c: nat) {
    && Switches(t, t', c, if t.cur == 0 then 0 else Of(t.cos, c).link)
    && Of(t'.cos, c) == Of(t.cos, c).(state := EXECING)
    && t'.stacks == t.stacks && t'.lastStackId == t.lastStackId && t'.log == t.log
  }

  lemma PushSwitches(t: Thread, c: nat)
    requires Inv(t) && IsFresh(t, c) && t.cur != MAIN
    ensures var t' := Resume(t, c); t'.saved == t.saved[t.cur := t.running] && t'.running == Holder(t'.saved, c)
  {
    hide StacksOk, StatesOk;
    CurStack(t);
    FreshIsOther(t, c);
  }

  lemma CurStack(t: Thread)
    requires Inv(t) && t.cur != MAIN
    ensures var id := Of(t.cos, t.cur).stackId; id in t.stacks && Top(t.stacks[id]) == t.cur
    ensures Of(t.cos, t.cur).state == EXECING && Of(t.cos, MAIN).state != EXECING && Of(t.cos, MAIN).stackId == 0
  {
  }

  lemma FreshIsOther(t: Thread, c: nat)
    requires Inv(t) && IsFresh(t, c)
    ensures c != t.cur && c != MAIN && Of(t.cos, c).stackId == 0 && Of(t.cos, c).state == INIT
  {
  }

  /** Coroutine::Resume goes to the top of the numbered stack; without such a stack it goes back to the main
      coroutine, which for that one means nothing. */
  lemma ResumeStackIs(t: Thread, id: nat)
    requires Inv(t) && Allowed(t, DoResumeStack(id))
    ensures var t' := Apply(t, DoResumeStack(id));
            if id in t.stacks && t.stacks[id] != [] && t.stacks[id][|t.stacks[id]| - 1] != t.cur then
              WentTo(t, t', t.stacks[id][|t.stacks[id]| - 1])
            else t' == t
  {
    hide Resume;
    if id in t.stacks {
      TopOfStack(t, id);
      TopState(t, Top(t.stacks[id]));
      TopIs(t, Top(t.stacks[id]));
    }
  }

  /** A coroutine that ends is taken off its stack, and the one below it, or the main one, goes on where it
      left off; an empty stack is dropped.  Nothing is saved. */
  lemma FinishGoes(t: Thread, state: State)
    requires Inv(t) && t.cur != MAIN && state in {TERMINAL, EXCEPT}
    ensures var t', id := Apply(t, DoFinish(state)), Of(t.cos, t.cur).stackId;
            && id in t.stacks && t.stacks[id] != []
            && var n := |t.stacks[id]| - 1;
               var next := if n == 0 then 0 else t.stacks[id][n - 1];
               && t.stacks[id][n] == t.cur && next != t.cur && t'.cur == next
               && t'.stacks == (if n == 0 then t.stacks - {id} else t.stacks[id := t.stacks[id][..n]])
               && Of(t'.cos, t.cur) == Of(t.cos, t.cur).(state := state) && Of(t'.cos, next) == Of(t.cos, next).(state := EXECING)
               && t'.cos.Keys == t.cos.Keys && (forall d :: d != t.cur && d != next ==> Of(t'.cos, d) == Of(t.cos, d))
               && t'.running == (if next in t.saved then t.saved[next] else next) && t'.saved == t.saved
               && t'.lastStackId == t.lastStackId && t'.log == t.log + [Finished(id, t.cur)]
  {
    hide Inv, Finish;
    FinishIs(t, state);
    FinishContinues(t, state);
    FinishLog(t, state);
    Tops(t.stacks, Of(t.cos, t.cur).stackId);
  }

  lemma Tops(stacks: map<nat, seq<nat>>, id: nat)
    ensures id in stacks && stacks[id] != [] ==>
              var n := |stacks[id]| - 1; Top(stacks[id][..n]) == if n == 0 then 0 else stacks[id][n - 1]
  {
  }

  lemma FinishContinues(t: Thread, state: State)
    ensures var t' := Finish(t, state);
            t'.running == Holder(t.saved, t'.cur) && t'.saved == t.saved && t'.lastStackId == t.lastStackId
  {
  }

  lemma StepKeepsInv(t: Thread, l: Label)
    requires Inv(t) && Allowed(t, l)
    ensures Inv(Apply(t, l))
  {
    hide Resume, StartOn, Yield, Finish, OneExecing, StacksOk, StatesOk;
    match l {
      case DoResume(c) => ResumeKeepsIff(t, c);
      case DoResumeNew(c) => NewStackKeeps(t, c);
      case DoYield => YieldKeeps(t);
      case DoFinish(state) => FinishKeeps(t, state);
      case DoResumeStack(id) => ResumeStackKeepsIff(t, id);
    }
  }

  lemma NewStackKeeps(t: Thread, c: nat)
    requires Inv(t)
    ensures Inv(ResumeWithNewStack(t, c)) && (ContextsOk(t) ==> ContextsOk(ResumeWithNewStack(t, c)))
  {
    hide StartOn;
    if Of(t.cos, c).stackId == 0 && c != MAIN {
      assert IsFresh(t, c);
      StartOnKeeps(t, c);
    }
  }

  /** No coroutine resumes the top of another stack: the one use the contexts do not survive. */
  predicate FromMain(t: Thread, l: Label) {
    match l
    case DoResume(c) => OnTop(t, c) && !IsFresh(t, c) ==> t.cur == MAIN || c == t.cur
    case DoResumeStack(id) => id in t.stacks ==> t.cur == MAIN || Top(t.stacks[id]) == t.cur
    case _ => true
  }

  lemma StepKeepsContexts(t: Thread, l: Label)
    requires Inv(t) && LinksOk(t) && ContextsOk(t) && Allowed(t, l) && FromMain(t, l)
    ensures ContextsOk(Apply(t, l))
  {
    hide Resume, StartOn, Yield, Finish, OneExecing, StacksOk, StatesOk, LinksOk, ContextsOk;
    match l {
      case DoResume(c) =>
        if IsFresh(t, c) || OnTop(t, c) { ResumeContextsIff(t, c); } else { KnownIfNumbered(t, c); GoneIs(t, c); }
      case DoResumeNew(c) => NewStackKeeps(t, c);
      case DoYield => YieldKeeps(t);
      case DoFinish(state) => FinishContexts(t, state);
      case DoResumeStack(id) =>
        if id in t.stacks {
          TopOfStack(t, id);
          ResumeContextsIff(t, Top(t.stacks[id]));
        } else {
          MainExecs(t);
        }
    }
  }

  lemma KnownIfNumbered(t: Thread, c: nat)
    requires Of(t.cos, c).stackId > 0
    ensures c in t.cos
  {
  }

  lemma TopOfStack(t: Thread, id: nat)
    requires Inv(t) && id in t.stacks
    ensures OnTop(t, Top(t.stacks[id])) && Top(t.stacks[id]) != MAIN && !IsFresh(t, Top(t.stacks[id]))
  {
    assert Top(t.stacks[id]) == t.stacks[id][|t.stacks[id]| - 1];
  }

  lemma MainExecs(t: Thread)
    requires Inv(t)
    ensures Of(t.cos, MAIN).state == EXECING <==> t.cur == MAIN
  {
  }

  // ---------------------------------------------------------------- the log and the links

  /** How a step moves the stacks, whatever it was: nothing, a new element on one, or the top off one. */
  ghost predicate Moved(t: Thread, t': Thread) {
    || (t'.stacks == t.stacks && t'.log == t.log && forall c :: c in t.cos ==> Of(t'.cos, c).link == Of(t.cos, c).link)
    || (exists id, c :: Grew(t, t', id, c))
    || (exists id, c :: Shrank(t, t', id, c))
  }

  predicate Grew(t: Thread, t': Thread, id: nat, c: nat) {
    && c != MAIN && IsFresh(t, c) && Of(t'.cos, c).stackId == id > 0
    && t'.stacks == t.stacks[id := StackAt(t.stacks, id) + [c]]
    && t'.log == t.log + [Started(id, c)]
    && Of(t'.cos, c).link == Top(StackAt(t.stacks, id))
    && forall d :: d in t.cos && d != c ==> Of(t'.cos, d).link == Of(t.cos, d).link
  }

  predicate Shrank(t: Thread, t': Thread, id: nat, c: nat) {
    && id in t.stacks && t.stacks[id] != [] && c == Top(t.stacks[id])
    && (var rest := t.stacks[id][..|t.stacks[id]| - 1];
        t'.stacks == if rest == [] then t.stacks - {id} else t.stacks[id := rest])
    && t'.log == t.log + [Finished(id, c)]
    && forall d :: d in t.cos ==> Of(t'.cos, d).link == Of(t.cos, d).link
  }

  lemma ResumeMoves(t: Thread, c: nat)
    requires Inv(t) && Allowed(t, DoResume(c))
    ensures Moved(t, Resume(t, c))
  {
    if IsFresh(t, c) {
      if t.cur == MAIN {
        NewStackMoves(t, c);
      } else {
        PushKeeps(t, c);
        assert Grew(t, Resume(t, c), Of(t.cos, t.cur).stackId, c);
      }
    } else if OnTop(t, c) {
      TopState(t, c);
      TopIs(t, c);
    } else {
      KnownIfNumbered(t, c);
      GoneIs(t, c);
    }
  }

  lemma NewStackMoves(t: Thread, c: nat)
    requires Inv(t) && IsFresh(t, c)
    ensures Moved(t, StartOn(t, c, t.cur))
  {
    assert t.lastStackId + 1 !in t.stacks && [] + [c] == [c];
    assert forall d :: d in t.cos && d != c ==> Of(StartOn(t, c, t.cur).cos, d).link == Of(t.cos, d).link;
    assert Grew(t, StartOn(t, c, t.cur), t.lastStackId + 1, c);
  }

  lemma FinishLog(t: Thread, state: State)
    ensures Finish(t, state).log == t.log + [Finished(Of(t.cos, t.cur).stackId, t.cur)]
  {
  }

  lemma FinishMoves(t: Thread, state: State)
    requires Inv(t) && t.cur != MAIN && state in {TERMINAL, EXCEPT}
    ensures Moved(t, Finish(t, state))
  {
    hide OneExecing, StacksOk, StatesOk, Inv, OnTop, Finish;
    FinishIs(t, state);
    FinishLog(t, state);
    assert Shrank(t, Finish(t, state), Of(t.cos, t.cur).stackId, t.cur);
  }

  lemma StepMoves(t: Thread, l: Label)
    requires Inv(t) && Allowed(t, l)
    ensures Moved(t, Apply(t, l))
  {
    match l {
      case DoResume(c) => ResumeMoves(t, c);
      case DoResumeNew(c) =>
        if Of(t.cos, c).stackId == 0 && c != MAIN {
          assert IsFresh(t, c);
          NewStackMoves(t, c);
        }
      case DoYield =>
      case DoFinish(state) => FinishMoves(t, state);
      case DoResumeStack(id) =>
        if id in t.stacks {
          TopOfStack(t, id);
          ResumeMoves(t, Top(t.stacks[id]));
        }
    }
  }

  function Follow(stack: seq<nat>, e: Event, id: nat): seq<nat> {
    if e.stack != id then stack
    else if e.Started? then stack + [e.co]
    else if stack == [] then []
    else stack[..|stack| - 1]
  }

  /** The content of a stack as the log tells it. */
  function Replay(log: seq<Event>, id: nat): seq<nat> {
    if log == [] then [] else Follow(Replay(log[..|log| - 1], id), log[|log| - 1], id)
  }

  /** Whoever finishes is on top, and nobody starts twice. */
  predicate LogOk(log: seq<Event>) {
    && (forall j :: 0 <= j < |log| && log[j].Finished? ==>
                      Replay(log[..j], log[j].stack) != [] && Top(Replay(log[..j], log[j].stack)) == log[j].co)
    && (forall i, j :: 0 <= i < j < |log| && log[i].Started? && log[j].Started? ==> log[i].co != log[j].co)
  }

  ghost predicate LogInv(t: Thread) {
    && LogOk(t.log)
    && (forall s :: StackAt(t.stacks, s) == Replay(t.log, s))
    && (forall j :: 0 <= j < |t.log| && t.log[j].Started? ==> t.log[j].co in t.cos && Of(t.cos, t.log[j].co).stackId > 0)
  }

  /** A stack number, once given, is kept. */
  predicate Kept(t: Thread, t': Thread) {
    forall d :: d in t.cos ==> d in t'.cos && (Of(t.cos, d).stackId > 0 ==> Of(t'.cos, d).stackId == Of(t.cos, d).stackId)
  }

  lemma ResumeKept(t: Thread, c: nat)
    requires Inv(t) && Allowed(t, DoResume(c))
    ensures Kept(t, Resume(t, c))
  {
    if IsFresh(t, c) {
      if t.cur != MAIN { PushKeeps(t, c); }
    } else if OnTop(t, c) {
      TopState(t, c);
      TopIs(t, c);
    } else {
      KnownIfNumbered(t, c);
      GoneIs(t, c);
    }
  }

  lemma OwnKept(t: Thread, c: nat)
    requires Of(t.cos, c).stackId == 0 || c == t.cur
    ensures Kept(t, Yield(t, t.cur)) && Kept(t, ResumeWithNewStack(t, c))
  {
  }

  lemma StepKept(t: Thread, l: Label)
    requires Inv(t) && Allowed(t, l)
    ensures Kept(t, Apply(t, l))
  {
    hide Resume, OneExecing, StacksOk, StatesOk, OnTop, IsFresh, Finish, Yield, StartOn;
    match l {
      case DoResume(c) => ResumeKept(t, c);
      case DoResumeNew(c) => if Of(t.cos, c).stackId == 0 { OwnKept(t, c); }
      case DoYield => OwnKept(t, t.cur);
      case DoFinish(state) => FinishIs(t, state);
      case DoResumeStack(id) =>
        if id in t.stacks {
          TopOfStack(t, id);
          ResumeKept(t, Top(t.stacks[id]));
        }
    }
  }

  lemma LinksMove(t: Thread, t': Thread)
    requires Inv(t) && LinksOk(t) && Moved(t, t')
    ensures LinksOk(t')
  {
    hide LinksOk, Grew, Shrank, OneExecing, StacksOk, StatesOk;
    if exists id, c :: Grew(t, t', id, c) {
      var id, c :| Grew(t, t', id, c);
      GrewLinks(t, t', id, c);
    } else if exists id, c :: Shrank(t, t', id, c) {
      var id, c :| Shrank(t, t', id, c);
      ShrankLinks(t, t', id, c);
    } else {
      SameLinks(t, t');
    }
  }

  lemma SameLinks(t: Thread, t': Thread)
    requires StacksOk(t) && LinksOk(t) && t'.stacks == t.stacks
    requires forall c :: c in t.cos ==> Of(t'.cos, c).link == Of(t.cos, c).link
    ensures LinksOk(t')
  {
  }

  lemma InvStacks(t: Thread)
    requires Inv(t)
    ensures StacksOk(t)
  {
  }

  lemma GrewLinks(t: Thread, t': Thread, id: nat, c: nat)
    requires Inv(t) && LinksOk(t) && Grew(t, t', id, c)
    ensures LinksOk(t')
  {
    hide OneExecing, StatesOk, Inv, IsFresh, Top, Below;
    FreshIsNowhere(t, c);
    InvStacks(t);
    var stack := StackAt(t.stacks, id);
    BelowPushed(stack, c);
    forall s, i | s in t'.stacks && 0 <= i < |t'.stacks[s]|
      ensures Of(t'.cos, t'.stacks[s][i]).link == Below(t'.stacks[s], i)
    {
      if s != id || i < |stack| {
        assert t'.stacks[s][i] == t.stacks[s][i];
      }
    }
  }

  lemma BelowPushed(stack: seq<nat>, c: nat)
    ensures Below(stack + [c], |stack|) == Top(stack)
    ensures forall i :: 0 <= i < |stack| ==> Below(stack + [c], i) == Below(stack, i)
  {
  }

  lemma ShrankLinks(t: Thread, t': Thread, id: nat, c: nat)
    requires StacksOk(t) && LinksOk(t) && Shrank(t, t', id, c)
    ensures LinksOk(t')
  {
    forall s, i | s in t'.stacks && 0 <= i < |t'.stacks[s]|
      ensures Of(t'.cos, t'.stacks[s][i]).link == Below(t'.stacks[s], i)
    {
      assert t'.stacks[s][i] == t.stacks[s][i] && Below(t'.stacks[s], i) == Below(t.stacks[s], i);
    }
  }

  lemma ReplayNext(log: seq<Event>, e: Event, id: nat)
    ensures Replay(log + [e], id) == Follow(Replay(log, id), e, id)
  {
    assert (log + [e])[..|log|] == log;
  }

  lemma LogMoves(t: Thread, t': Thread)
    requires Inv(t) && LogInv(t) && Moved(t, t') && Kept(t, t')
    ensures LogInv(t')
  {
    if exists id, c :: Grew(t, t', id, c) {
      var id, c :| Grew(t, t', id, c);
      GrewLog(t, t', id, c);
    } else if exists id, c :: Shrank(t, t', id, c) {
      var id, c :| Shrank(t, t', id, c);
      ShrankLog(t, t', id, c);
    }
  }

  lemma LogOkNext(log: seq<Event>, e: Event)
    requires LogOk(log)
    requires e.Finished? ==> Replay(log, e.stack) != [] && Top(Replay(log, e.stack)) == e.co
    requires e.Started? ==> forall i :: 0 <= i < |log| && log[i].Started? ==> log[i].co != e.co
    ensures LogOk(log + [e])
  {
    var log' := log + [e];
    forall j | 0 <= j < |log'| && log'[j].Finished?
      ensures Replay(log'[..j], log'[j].stack) != [] && Top(Replay(log'[..j], log'[j].stack)) == log'[j].co
    {
      assert log'[..j] == log[..j];
      assert j == |log| ==> log[..j] == log;
    }
  }

  lemma GrewLog(t: Thread, t': Thread, id: nat, c: nat)
    requires Inv(t) && LogInv(t) && Grew(t, t', id, c) && Kept(t, t')
    ensures LogInv(t')
  {
    hide Inv;
    LogOkNext(t.log, Started(id, c));
    forall s
      ensures StackAt(t'.stacks, s) == Replay(t'.log, s)
    {
      ReplayNext(t.log, Started(id, c), s);
    }
    forall j | 0 <= j < |t'.log| && t'.log[j].Started?
      ensures t'.log[j].co in t'.cos && Of(t'.cos, t'.log[j].co).stackId > 0
    {
      assert j < |t.log| ==> t'.log[j] == t.log[j];
    }
  }

  lemma ShrankLog(t: Thread, t': Thread, id: nat, c: nat)
    requires Inv(t) && LogInv(t) && Shrank(t, t', id, c) && Kept(t, t')
    ensures LogInv(t')
  {
    hide Inv;
    LogOkNext(t.log, Finished(id, c));
    forall s
      ensures StackAt(t'.stacks, s) == Replay(t'.log, s)
    {
      ReplayNext(t.log, Finished(id, c), s);
    }
    forall j | 0 <= j < |t'.log| && t'.log[j].Started?
      ensures t'.log[j].co in t'.cos && Of(t'.cos, t'.log[j].co).stackId > 0
    {
      assert j < |t.log| && t'.log[j] == t.log[j];
    }
  }

  ghost predicate Execution(ls: seq<Label>, ts: seq<Thread>) {
    && |ts| == |ls| + 1 && ts[0] == Start()
    && forall k :: 0 <= k < |ls| ==> Allowed(ts[k], ls[k]) && ts[k + 1] == Apply(ts[k], ls[k])
  }

  /** Over every run of the documented use: the invariant of states and stacks, and the log that explains
      the stacks. */
  lemma {:induction false} ExecutionInv(ls: seq<Label>, ts: seq<Thread>, k: nat)
    requires Execution(ls, ts) && k <= |ls|
    ensures Inv(ts[k]) && LinksOk(ts[k]) && LogInv(ts[k])
  {
    hide Apply, OneExecing, StacksOk, StatesOk, LinksOk, Allowed;
    if k == 0 {
      StartInv();
      StartLinks();
    } else {
      ExecutionInv(ls, ts, k - 1);
      var t, l := ts[k - 1], ls[k - 1];
      StepKeepsInv(t, l);
      StepMoves(t, l);
      StepKept(t, l);
      LinksMove(t, ts[k]);
      LogMoves(t, ts[k]);
    }
  }

  lemma StartLinks()
    ensures LinksOk(Start()) && LogInv(Start())
  {
  }

  /** And where no coroutine resumes the top of another stack, every context stays right: the thread runs
      the current coroutine, and whoever is resumed continues where it left off. */
  lemma {:induction false} ExecutionContexts(ls: seq<Label>, ts: seq<Thread>, k: nat)
    requires Execution(ls, ts) && k <= |ls| && forall j :: 0 <= j < k ==> FromMain(ts[j], ls[j])
    ensures ContextsOk(ts[k])
  {
    if k == 0 {
      StartInv();
    } else {
      ExecutionInv(ls, ts, k - 1);
      ExecutionContexts(ls, ts, k - 1);
      StepKeepsContexts(ts[k - 1], ls[k - 1]);
    }
  }

  // ---------------------------------------------------------------- last started, first finished

  /** From its start on, a coroutine stays on its stack until it finishes. */
  lemma {:induction false} StaysOn(log: seq<Event>, id: nat, a: nat, i: nat, n: nat)
    requires LogOk(log) && i < n <= |log| && log[i] == Started(id, a)
    requires forall m :: i < m < n ==> log[m] != Finished(id, a)
    ensures a in Replay(log[..n], id)
    decreases n
  {
    assert log[..n] == log[..n - 1] + [log[n - 1]];
    ReplayNext(log[..n - 1], log[n - 1], id);
    if n - 1 > i {
      StaysOn(log, id, a, i, n - 1);
      TopStays(Replay(log[..n - 1], id), a);
    }
  }

  lemma TopStays(stack: seq<nat>, a: nat)
    requires a in stack
    ensures Top(stack) == a || a in stack[..|stack| - 1]
  {
    var i :| 0 <= i < |stack| && stack[i] == a;
    assert i < |stack| - 1 ==> stack[..|stack| - 1][i] == a;
  }

  /** Of two coroutines of one stack, the later one is above the earlier one while both are on it. */
  lemma {:induction false} StaysAbove(log: seq<Event>, id: nat, a: nat, b: nat, i: nat, k: nat, n: nat)
    requires LogOk(log) && i < k < n <= |log| && log[i] == Started(id, a) && log[k] == Started(id, b)
    requires forall m :: i < m < n ==> log[m] != Finished(id, a)
    requires forall m :: k < m < n ==> log[m] != Finished(id, b)
    ensures exists x, y :: 0 <= x < y < |Replay(log[..n], id)| && Replay(log[..n], id)[x] == a && Replay(log[..n], id)[y] == b
    decreases n
  {
    var before, e := Replay(log[..n - 1], id), log[n - 1];
    assert log[..n] == log[..n - 1] + [e];
    ReplayNext(log[..n - 1], e, id);
    if n - 1 == k {
      StaysOn(log, id, a, i, k);
      var x :| 0 <= x < |before| && before[x] == a;
      assert Replay(log[..n], id) == before + [b];
      assert (before + [b])[x] == a && (before + [b])[|before|] == b;
    } else {
      StaysAbove(log, id, a, b, i, k, n - 1);
      var x, y :| 0 <= x < y < |before| && before[x] == a && before[y] == b;
      if e.Finished? && e.stack == id {
        assert Top(before) == e.co && e.co != b;
        assert y < |before| - 1;
        assert before[..|before| - 1][x] == a && before[..|before| - 1][y] == b;
      } else if e.Started? && e.stack == id {
        assert (before + [e.co])[x] == a && (before + [e.co])[y] == b;
      }
    }
  }

  /** No coroutine is on its stack twice as long as nobody starts twice. */
  lemma {:induction false} ReplayDistinct(log: seq<Event>, id: nat, n: nat)
    requires LogOk(log) && n <= |log|
    ensures forall x :: 0 <= x < |Replay(log[..n], id)| ==> exists i :: 0 <= i < n && log[i] == Started(id, Replay(log[..n], id)[x])
    ensures forall x, y :: 0 <= x < y < |Replay(log[..n], id)| ==> Replay(log[..n], id)[x] != Replay(log[..n], id)[y]
    decreases n
  {
    if n > 0 {
      assert log[..n] == log[..n - 1] + [log[n - 1]];
      ReplayNext(log[..n - 1], log[n - 1], id);
      ReplayDistinct(log, id, n - 1);
      var before, after := Replay(log[..n - 1], id), Replay(log[..n], id);
      forall x | 0 <= x < |after|
        ensures exists i :: 0 <= i < n && log[i] == Started(id, after[x])
      {
        if x < |before| {
          assert after[x] == before[x];
        } else {
          assert log[n - 1] == Started(id, after[x]);
        }
      }
    } else {
      assert log[..n] == [] && Replay([], id) == [];
      assert |Replay(log[..n], id)| == 0;
    }
  }

  /** Over every run: the coroutines of one stack finish in reverse order of their first resume, across any
      number of yields.  If a started before b on the same stack and finishes at step j after b started,
      then b finished in between. */
  lemma LastStartedFirstFinished(ls: seq<Label>, ts: seq<Thread>, n: nat, id: nat, a: nat, b: nat, i: nat, k: nat, j: nat)
    requires Execution(ls, ts) && n <= |ls|
    requires i < k < j < |ts[n].log|
    requires ts[n].log[i] == Started(id, a) && ts[n].log[k] == Started(id, b) && ts[n].log[j] == Finished(id, a)
    ensures exists m :: k < m < j && ts[n].log[m] == Finished(id, b)
  {
    var log := ts[n].log;
    ExecutionInv(ls, ts, n);
    if forall m :: k < m < j ==> log[m] != Finished(id, b) {
      FinishedOnce(log, id, a, i, j);
      StaysAbove(log, id, a, b, i, k, j);
      var stack := Replay(log[..j], id);
      var x, y :| 0 <= x < y < |stack| && stack[x] == a && stack[y] == b;
      ReplayDistinct(log, id, j);
      assert false;
    }
  }

  /** Between its start and a finish there is no other finish of the same coroutine. */
  lemma FinishedOnce(log: seq<Event>, id: nat, a: nat, i: nat, j: nat)
    requires LogOk(log) && i < j < |log| && log[i] == Started(id, a) && log[j] == Finished(id, a)
    ensures forall m :: i < m < j ==> log[m] != Finished(id, a)
  {
    forall m | i < m < j
      ensures log[m] != Finished(id, a)
    {
      if log[m] == Finished(id, a) {
        GoneForGood(log, id, a, i, m, j);
      }
    }
  }

  lemma {:induction false} GoneForGood(log: seq<Event>, id: nat, a: nat, i: nat, m: nat, n: nat)
    requires LogOk(log) && i < m < n <= |log| && log[i] == Started(id, a) && log[m] == Finished(id, a)
    ensures a !in Replay(log[..n], id)
    decreases n
  {
    assert log[..n] == log[..n - 1] + [log[n - 1]];
    ReplayNext(log[..n - 1], log[n - 1], id);
    if n - 1 == m {
      ReplayDistinct(log, id, m);
    } else {
      GoneForGood(log, id, a, i, m, n - 1);
    }
  }
}
