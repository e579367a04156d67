/** The coroutine objects and thread-locals of src/coroutine.cpp, changed in place; each method is tied to
    the operation of module Coroutines.  Machine contexts are ghost state. */
module CoroutineThread {
  import opened Coroutines

  class Coroutine {
    const id: nat
    var stackId: nat
    var state: State
    var link: Coroutine?

    constructor (id: nat)
      ensures this.id == id && link == null && Fields() == Co(0, INIT, MAIN)
    {
      this.id := id;
      stackId, state, link := 0, INIT, null;
    }

    constructor OfThread()
      ensures id == MAIN && link == null && Fields() == Co(0, EXECING, MAIN)
    {
      id := MAIN;
      stackId, state, link := 0, EXECING, null;
    }

    function Fields(): Co
      reads this, link
    {
      Co(stackId, state, if link == null then MAIN else link.id)
    }
  }

  function Ids(stack: seq<Coroutine>): (ids: seq<nat>)
    ensures |ids| == |stack|
    ensures forall i :: 0 <= i < |ids| ==> ids[i] == stack[i].id
  {
    seq(|stack|, i requires 0 <= i < |stack| => stack[i].id)
  }

  lemma NewStack(stacks: map<nat, seq<nat>>, id: nat, c: nat)
    requires id !in stacks
    ensures stacks[id := StackAt(stacks, id) + [c]] == stacks[id := [c]]
  {
    assert [] + [c] == [c];
  }

  /** The two ways of popping, with the next coroutine. */
  lemma PoppedIs(stacks: map<nat, seq<nat>>, id: nat)
    requires id in stacks && stacks[id] != []
    ensures var stack := stacks[id];
            var rest := stack[..|stack| - 1];
            && (|stack| == 1 <==> rest == [])
            && (|stack| == 1 ==> Top(rest) == MAIN && id !in stacks - {id})
            && (|stack| != 1 ==> stacks[id := rest][id] == rest)
            && StackAt(stacks, id) == stack
  {
  }

  class ThreadLocals {
    const main: Coroutine
    var cur: Coroutine
    var stacks: map<nat, seq<Coroutine>>
    var lastStackId: nat
    ghost var known: map<nat, Coroutine>
    ghost var running: nat
    ghost var saved: map<nat, nat>
    ghost var log: seq<Event>

    ghost predicate Knows(c: Coroutine)
      reads `known
    {
      c.id in known && known[c.id] == c
    }

    ghost predicate Valid()
      reads this
    {
      && Knows(main) && main.id == MAIN && Knows(cur)
      && (forall a :: a in known ==> known[a].id == a)
      && (forall s :: s in stacks ==> stacks[s] != [])
      && (forall s, i :: s in stacks && 0 <= i < |stacks[s]| ==> Knows(stacks[s][i]))
      && (forall s :: s in stacks ==> s <= lastStackId)
    }

    /** A context links to one of the thread's coroutines, if to any. */
    ghost predicate Linked()
      reads `known, known.Values`link
    {
      forall a :: a in known && known[a].link != null ==> Knows(known[a].link)
    }

    ghost function Cos(): map<nat, Co>
      reads `known, known.Values
    {
      map a | a in known :: Co(known[a].stackId, known[a].state, if known[a].link == null then MAIN else known[a].link.id)
    }

    ghost function Stacks(): map<nat, seq<nat>>
      reads `stacks
    {
      map s | s in stacks :: Ids(stacks[s])
    }

    ghost function View(): Thread
      reads this, known.Values
    {
      Thread(Cos(), Stacks(), cur.id, lastStackId, running, saved, log)
    }

    constructor ()
      ensures Valid() && Linked() && View() == Start()
    {
      var co := new Coroutine.OfThread();
      main, cur, stacks, lastStackId := co, co, map[], 0;
      known, running, saved, log := map[MAIN := co], MAIN, map[], [];
    }

    /** A new coroutine object, with a number of its own. */
    method Create(id: nat) returns (c: Coroutine)
      requires Valid() && Linked() && id !in known
      modifies this
      ensures Valid() && Linked() && fresh(c) && known == old(known)[id := c]
      ensures View() == old(View()).(cos := old(View()).cos[id := Co(0, INIT, MAIN)])
    {
      ghost var cos := Cos();
      c := new Coroutine(id);
      known := known[id := c];
      assert Cos() == cos[id := Co(0, INIT, MAIN)];
    }

    lemma OwnAreKnown()
      requires Valid()
      ensures Knows(main) && Knows(cur) && main.id == MAIN && View().cur == cur.id
    {
    }

    /** SetThis. */
    method SetThis(c: Coroutine)
      requires Valid() && Knows(c)
      modifies this`cur
      ensures Valid() && cur == c && View() == old(View()).(cur := c.id)
    {
      hide Cos, Stacks;
      cur := c;
    }

    lemma FieldsAre(c: Coroutine)
      requires Valid() && Knows(c)
      ensures c.id in View().cos && Of(View().cos, c.id) == c.Fields()
    {
    }

    lemma StackIs(id: nat)
      requires Valid()
      ensures id in View().stacks <==> id in stacks
      ensures id in stacks ==> id <= lastStackId
      ensures id in stacks ==> stacks[id] != [] && View().stacks[id] == Ids(stacks[id])
      ensures id in stacks ==> Knows(stacks[id][|stacks[id]| - 1]) && Top(View().stacks[id]) == stacks[id][|stacks[id]| - 1].id
    {
    }

    method SetState(c: Coroutine, state: State)
      requires Valid() && Knows(c)
      modifies c`state
      ensures View() == old(View()).(cos := Coroutines.SetState(old(View()).cos, c.id, state))
    {
      ghost var cos := Cos();
      c.state := state;
      assert Cos() == Coroutines.SetState(cos, c.id, state);
    }

    ghost method SwapContext(into: nat, from: nat)
      modifies this`running, this`saved
      ensures View() == Swap(old(View()), into, from)
      ensures old(Valid()) ==> Valid()
    {
      saved := saved[into := running];
      running := Holder(saved, from);
    }

    method PushOn(id: nat, c: Coroutine)
      requires Valid() && Knows(c) && id <= lastStackId
      modifies this`stacks, this`log
      ensures Valid()
      ensures View() == old(View()).(stacks := old(View()).stacks[id := StackAt(old(View()).stacks, id) + [c.id]],
                                     log := old(View()).log + [Started(id, c.id)])
    {
      ghost var view := View();
      var stack := if id in stacks then stacks[id] else [];
      stacks := stacks[id := stack + [c]];
      log := log + [Started(id, c.id)];
      assert Ids(stack + [c]) == Ids(stack) + [c.id];
      assert Stacks() == view.stacks[id := StackAt(view.stacks, id) + [c.id]];
    }

    method SetFields(c: Coroutine, stackId: nat, state: State, link: Coroutine)
      requires Valid() && Knows(c) && Knows(link)
      modifies c
      ensures Linked() <== old(Linked())
      ensures View() == old(View()).(cos := old(View()).cos[c.id := Co(stackId, state, link.id)]) && c.link == link
    {
      ghost var cos := Cos();
      c.stackId, c.state, c.link := stackId, state, link;
      assert Cos() == cos[c.id := Co(stackId, state, link.id)];
    }

    method StartOn(c: Coroutine, back: Coroutine)
      requires Valid() && Linked() && Knows(c) && Knows(back)
      modifies this, c, back
      ensures Valid() && Linked() && known == old(known)
      ensures View() == Coroutines.StartOn(old(View()), c.id, back.id)
    {
      hide Coroutines.SetState, Holder, Cos, Stacks, StackAt, Ids, Valid;
      OwnAreKnown();
      StackIs(lastStackId + 1);
      NewStack(View().stacks, lastStackId + 1, c.id);
      SetState(back, YIELD);
      SetFields(c, lastStackId + 1, EXECING, main);
      NextStackId();
      PushOn(lastStackId, c);
      SetThis(c);
      SwapContext(back.id, c.id);
    }

    method NextStackId()
      requires Valid()
      modifies this`lastStackId
      ensures Valid() && lastStackId == old(lastStackId) + 1 && View() == old(View()).(lastStackId := lastStackId)
    {
      hide Cos, Stacks;
      lastStackId := lastStackId + 1;
    }

    /** A coroutine put on top of another's stack. */
    method PushAbove(c: Coroutine, id: nat, top: Coroutine)
      requires Valid() && Linked() && Knows(c) && Knows(top) && id in stacks
      modifies this`stacks, this`log, c, top
      ensures Valid() && Linked() && known == old(known) && c.link == top
      ensures View() == Push(old(View()), c.id, id, top.id)
    {
      hide StackAt;
      SetState(top, YIELD);
      ghost var view := View();
      assert Of(view.cos, c.id) == c.Fields();
      SetFields(c, c.stackId, c.state, top);
      PushOn(id, c);
    }

    method SwitchTo(c: Coroutine)
      requires Valid() && Linked() && Knows(c)
      modifies this, main, cur, c
      ensures Valid() && Linked() && known == old(known)
      ensures View() == Coroutines.SwitchTo(old(View()), c.id)
    {
      hide Coroutines.SetState, Holder, Cos, Stacks, Valid;
      OwnAreKnown();
      SetState(c, EXECING);
      FieldsAre(main);
      FieldsAre(c);
      if main.state == EXECING {
        SetState(main, YIELD);
        SetThis(c);
        SwapContext(main.id, c.id);
      } else {
        SetState(cur, YIELD);
        SetThis(c);
        SwapContext(if c.link == null then MAIN else c.link.id, c.id);
      }
    }

    /** c->resume(). */
    method Resume(c: Coroutine)
      requires Valid() && Linked() && Knows(c)
      modifies this, known.Values
      ensures Valid() && Linked() && known == old(known)
      ensures View() == Coroutines.Resume(old(View()), c.id)
    {
      hide Coroutines.SetState, Holder, Coroutines.SwitchTo, Push, Coroutines.StartOn, Cos, Stacks;
      ghost var t := View();
      FieldsAre(c);
      FieldsAre(cur);
      if c.stackId > 0 || (cur.state == EXECING && cur != main) {
        var id := if c.stackId > 0 then c.stackId else cur.stackId;
        SetStackId(c, id);
        StackIs(id);
        if id !in stacks {
          return;
        }
        var top := stacks[id][|stacks[id]| - 1];
        if top != c {
          PushAbove(c, id, top);
        }
        FieldsAre(c);
        if c.state == EXECING || c.state == TERMINAL || c.state == EXCEPT {
          return;
        }
        SwitchTo(c);
      } else {
        StartOn(c, main);
      }
    }

    method SetStackId(c: Coroutine, id: nat)
      requires Valid() && Knows(c)
      modifies c`stackId
      ensures View() == old(View()).(cos := old(View()).cos[c.id := Of(old(View()).cos, c.id).(stackId := id)])
      ensures c.stackId == id
    {
      ghost var cos := Cos();
      c.stackId := id;
      assert Cos() == cos[c.id := Of(cos, c.id).(stackId := id)];
    }

    /** c->resumeWithNewStack(). */
    method ResumeWithNewStack(c: Coroutine)
      requires Valid() && Linked() && Knows(c)
      modifies this, c, cur
      ensures Valid() && Linked() && known == old(known)
      ensures View() == Coroutines.ResumeWithNewStack(old(View()), c.id)
    {
      hide Coroutines.StartOn;
      FieldsAre(c);
      if c.stackId > 0 || c == main {
        return;
      }
      StartOn(c, cur);
    }

    /** c->yield(). */
    method Yield(c: Coroutine)
      requires Valid() && Linked() && Knows(c)
      modifies this, c, main
      ensures Valid() && Linked() && known == old(known)
      ensures View() == Coroutines.Yield(old(View()), c.id)
    {
      hide Coroutines.SetState, Holder, Cos, Stacks;
      FieldsAre(c);
      StackIs(c.stackId);
      if c.stackId !in stacks {
        return;
      }
      if c != stacks[c.stackId][|stacks[c.stackId]| - 1] {
        return;
      }
      if c.state == EXECING {
        SetState(c, YIELD);
      }
      SetState(main, EXECING);
      cur := main;
      SwapContext(c.id, MAIN);
    }

    /** Pops the stack, and drops it when it is empty. */
    method PopFrom(id: nat)
      requires Valid() && id in stacks
      modifies this`stacks, this`log
      ensures Valid()
      ensures var stack := old(View()).stacks[id];
              id in old(View()).stacks && stack != [] &&
              View() == old(View()).(
                stacks := if |stack| == 1 then old(View()).stacks - {id} else old(View()).stacks[id := stack[..|stack| - 1]],
                log := old(View()).log + [Finished(id, Top(stack))])
    {
      ghost var view := View();
      StackIs(id);
      var stack := stacks[id];
      log := log + [Finished(id, stack[|stack| - 1].id)];
      var rest := stack[..|stack| - 1];
      assert Ids(rest) == Ids(stack)[..|stack| - 1];
      stacks := if |rest| == 0 then stacks - {id} else stacks[id := rest];
      assert Stacks() == if |stack| == 1 then view.stacks - {id} else view.stacks[id := Ids(rest)];
    }

    /** The end of MainFunc: the current coroutine is the top of its stack. */
    method MainFuncEnd(state: State)
      requires Valid() && Linked()
      requires cur.stackId in stacks && stacks[cur.stackId][|stacks[cur.stackId]| - 1] == cur
      modifies this, known.Values
      ensures Valid() && Linked() && known == old(known)
      ensures View() == Finish(old(View()), state)
    {
      hide Coroutines.SetState, Holder, Cos, Stacks, Ids, Top, Valid;
      ghost var t := View();
      var id := cur.stackId;
      OwnAreKnown();
      FieldsAre(cur);
      StackIs(id);
      SetState(cur, state);
      PopFrom(id);
      StackIs(id);
      OwnAreKnown();
      PoppedIs(t.stacks, id);
      if id !in stacks {
        SetThis(main);
      } else {
        SetThis(stacks[id][|stacks[id]| - 1]);
      }
      SetState(cur, EXECING);
      SetRunning(cur.id);
    }

    /** setcontext. */
    ghost method SetRunning(c: nat)
      modifies this`running
      ensures View() == old(View()).(running := Holder(old(View()).saved, c))
      ensures old(Valid()) ==> Valid()
    {
      running := Holder(saved, c);
    }

    /** Coroutine::Resume(stackId). */
    method ResumeStack(id: nat)
      requires Valid() && Linked()
      modifies this, known.Values
      ensures Valid() && Linked() && known == old(known)
      ensures View() == Coroutines.ResumeStack(old(View()), id)
    {
      hide Coroutines.SetState, Holder, Cos, Stacks, Coroutines.Resume;
      StackIs(id);
      FieldsAre(main);
      if id !in stacks {
        if main.state == EXECING {
          return;
        }
        SetState(main, EXECING);
        running := Holder(saved, MAIN);
        return;
      }
      Resume(stacks[id][|stacks[id]| - 1]);
    }
  }
}
