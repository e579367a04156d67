/** Timer and TimerManager (src/timer.cpp) as objects that are changed in place; every method is tied to
    the operation of module Timers on the value the objects stand for. */
module TimerManagers {
  import opened Wrappers
  import opened Timers

  class Timer {
    const addr: nat
    const mgr: TimerManager
    const recurring: bool
    var ms: nat
    var next: nat
    var cb: Option<nat>

    constructor (addr: nat, now: nat, ms: nat, cb: Option<nat>, mgr: TimerManager, recurring: bool)
      ensures this.addr == addr && this.mgr == mgr && this.recurring == recurring
      ensures Fields() == Rec(ms, (now + ms) % 0x1_0000_0000_0000_0000, cb, recurring)
    {
      this.addr, this.mgr, this.recurring := addr, mgr, recurring;
      this.ms, this.next, this.cb := ms, Add64(now, ms), cb;
    }

    function Fields(): Rec
      reads this
    {
      Rec(ms, next, cb, recurring)
    }

    method Cancel() returns (done: bool)
      requires mgr.Valid() && mgr.Holds(this)
      modifies mgr, this
      ensures mgr.Valid() && mgr.objects == old(mgr.objects)
      ensures (mgr.View(), done) == Timers.Cancel(old(mgr.View()), addr)
    {
      hide Sorted, Timers.Find;
      ghost var s := mgr.View();
      CancelKeeps(s, addr);
      done := false;
      if cb != None {
        cb := None;
        mgr.Changed(s, this);
        var p := mgr.Find(this);
        if p < |mgr.timers| {
          mgr.Erase(p);
          done := true;
        }
      }
    }

    /** Out of the set at p, new period and deadline, back in. */
    method Rearm(p: nat, now: nat, ms: nat) returns (owed: bool)
      requires mgr.Valid() && mgr.Holds(this) && p < |mgr.timers|
      modifies mgr, this
      ensures mgr.Shape() && mgr.objects == old(mgr.objects)
      ensures (mgr.View(), owed) == Timers.Rearm(old(mgr.View()), addr, p, now, ms)
    {
      mgr.Erase(p);
      ghost var s := mgr.View();
      this.ms, next := ms, Add64(now, ms);
      mgr.Changed(s, this);
      owed := mgr.Insert(this);
    }

    method Refresh(now: nat) returns (ok: bool, owed: bool)
      requires mgr.Valid() && mgr.Holds(this)
      modifies mgr, this
      ensures mgr.Valid() && mgr.objects == old(mgr.objects)
      ensures Outcome(mgr.View(), ok, owed) == Timers.Refresh(old(mgr.View()), addr, now)
    {
      hide Sorted, Timers.Find, Timers.Rearm;
      ghost var s := mgr.View();
      RefreshKeeps(s, addr, now);
      ok, owed := false, false;
      if cb == None { return; }
      var p := mgr.Find(this);
      if p == |mgr.timers| {
        cb := None;
        mgr.Changed(s, this);
        return;
      }
      owed := Rearm(p, now, ms);
      ok := true;
    }

    method Reset(now: nat, ms: nat) returns (ok: bool, owed: bool)
      requires mgr.Valid() && mgr.Holds(this)
      modifies mgr, this
      ensures mgr.Valid() && mgr.objects == old(mgr.objects)
      ensures Outcome(mgr.View(), ok, owed) == Timers.Reset(old(mgr.View()), addr, now, ms)
    {
      ResetKeeps(mgr.View(), addr, now, ms);
      ok, owed := false, false;
      if ms == this.ms { return true, false; }
      if cb == None { return; }
      var p := mgr.Find(this);
      if p == |mgr.timers| { return; }
      owed := Rearm(p, now, ms);
      ok := true;
    }
  }

  class TimerManager {
    /** The std::set of timers, in its order. */
    var timers: seq<Timer>
    /** Every timer object of this manager, by address. */
    ghost var objects: map<nat, Timer>

    ghost predicate Holds(t: Timer)
      reads this
    {
      t.addr in objects && objects[t.addr] == t
    }

    ghost predicate Shape()
      reads this
    {
      && (forall a :: a in objects ==> objects[a].addr == a && objects[a].mgr == this)
      && (forall i :: 0 <= i < |timers| ==> Holds(timers[i]))
    }

    ghost function Recs(): map<nat, Rec>
      reads this, objects.Values
    {
      map a | a in objects :: objects[a].Fields()
    }

    ghost function View(): TimerSet
      reads this, objects.Values
    {
      TimerSet(Recs(), Addresses(timers))
    }

    ghost predicate Valid()
      reads this, objects.Values
    {
      Shape() && Ok(View())
    }

    constructor ()
      ensures Valid() && View() == TimerSet(map[], [])
    {
      timers, objects := [], map[];
    }

    /** How the view changes when the fields of one timer do. */
    ghost method Changed(s: TimerSet, t: Timer)
      requires Shape() && Holds(t)
      requires s.armed == Addresses(timers)
      requires s.recs.Keys == objects.Keys
      requires forall a :: a in objects && a != t.addr ==> s.recs[a] == objects[a].Fields()
      ensures View() == TimerSet(s.recs[t.addr := t.Fields()], s.armed)
    {
      assert Recs() == s.recs[t.addr := t.Fields()];
    }

    method LowerBound(next: nat, addr: nat) returns (p: nat)
      requires Shape()
      ensures Known(Recs(), Addresses(timers))
      ensures p == Timers.LowerBound(Recs(), Addresses(timers), next, addr)
    {
      p := 0;
      while p < |timers| && Before(timers[p].next, timers[p].addr, next, addr)
        invariant p <= |timers|
        invariant forall i :: 0 <= i < p ==> Before(timers[i].next, timers[i].addr, next, addr)
      {
        p := p + 1;
      }
      LowerBoundIs(Recs(), Addresses(timers), next, addr, p);
    }

    method Find(t: Timer) returns (p: nat)
      requires Shape() && Holds(t)
      ensures Known(Recs(), Addresses(timers)) && p == Timers.Find(Recs(), Addresses(timers), t.addr)
    {
      p := LowerBound(t.next, t.addr);
      if p < |timers| && Before(t.next, t.addr, timers[p].next, timers[p].addr) {
        p := |timers|;
      }
    }

    method Erase(p: nat)
      requires Shape() && p < |timers|
      modifies this
      ensures Shape() && objects == old(objects)
      ensures View() == old(View()).(armed := RemoveAt(old(View()).armed, p))
    {
      ghost var armed := Addresses(timers);
      timers := timers[..p] + timers[p + 1..];
      assert Addresses(timers) == RemoveAt(armed, p);
    }

    /** Insertion; the result says whether the timer is now the first. */
    method Insert(t: Timer) returns (first: bool)
      requires Shape() && Holds(t)
      modifies this
      ensures Shape() && objects == old(objects)
      ensures Known(old(Recs()), old(Addresses(timers)))
      ensures View() == old(View()).(armed := Timers.Insert(old(Recs()), old(Addresses(timers)), t.addr))
      ensures first <==> View().armed != [] && View().armed[0] == t.addr
    {
      hide Timers.LowerBound, Known;
      ghost var armed := Addresses(timers);
      var p := LowerBound(t.next, t.addr);
      if p < |timers| && !Before(t.next, t.addr, timers[p].next, timers[p].addr) {
      } else {
        timers := timers[..p] + [t] + timers[p..];
        assert Addresses(timers) == armed[..p] + [t.addr] + armed[p..];
      }
      first := |timers| > 0 && timers[0] == t;
    }

    method AddTimer(addr: nat, now: nat, ms: nat, cb: Option<nat>, recurring: bool) returns (t: Timer, owed: bool)
      requires Valid() && addr !in objects
      modifies this
      ensures Valid() && fresh(t) && objects == old(objects)[addr := t]
      ensures (View(), owed) == Timers.AddTimer(old(View()), addr, now, ms, cb, recurring)
    {
      hide Sorted, Timers.Insert;
      ghost var s := View();
      AddKeeps(s, addr, now, ms, cb, recurring);
      t := new Timer(addr, now, ms, cb, this, recurring);
      objects := objects[addr := t];
      assert Recs() == s.recs[addr := t.Fields()];
      owed := Insert(t);
    }

    /** addCondTimer takes a recurring flag and drops it: the timer it arms is always one-shot. */
    method AddCondTimer(addr: nat, now: nat, ms: nat, cb: nat, recurring: bool) returns (t: Timer, owed: bool)
      requires Valid() && addr !in objects
      modifies this
      ensures Valid() && fresh(t) && objects == old(objects)[addr := t]
      ensures (View(), owed) == Timers.AddTimer(old(View()), addr, now, ms, Some(cb), false)
    {
      t, owed := AddTimer(addr, now, ms, Some(cb), false);
    }

    method CancelAllTimers()
      requires Valid()
      modifies this, objects.Values
      ensures Valid() && objects == old(objects)
      ensures View() == Timers.CancelAll(old(View()))
    {
      hide CancelFirst, CancelAll, Sorted;
      ghost var s, k := View(), 0;
      ViewIsKnown();
      CancelFirstEnds(s);
      while |timers| > 0
        invariant Shape() && objects == old(objects)
        invariant k + |timers| == |s.armed| && View() == CancelFirst(s, k)
        decreases |timers|
      {
        CancelFirstStep(s, k);
        DropFirst();
        k := k + 1;
      }
      CancelAllKeeps(s);
    }

    /** One turn of that loop. */
    method DropFirst()
      requires Shape() && timers != []
      modifies this`timers, timers[0]
      ensures Shape() && |timers| == |old(timers)| - 1
      ensures var s := old(View());
              s.armed != [] && s.armed[0] in s.recs &&
              View() == TimerSet(s.recs[s.armed[0] := s.recs[s.armed[0]].(cb := None)], s.armed[1..])
    {
      ghost var s := View();
      timers[0].cb := None;
      Changed(s, timers[0]);
      timers := timers[1..];
      assert Addresses(timers) == s.armed[1..];
    }

    lemma ViewIsKnown()
      requires Shape()
      ensures Known(View().recs, View().armed)
    {
    }

    lemma FirstIsSoonest()
      requires Valid()
      ensures forall i :: 0 <= i < |timers| ==> timers[0].next <= timers[i].next
    {
      forall i | 0 < i < |timers|
        ensures timers[0].next <= timers[i].next
      {
        assert Less(View().recs, View().armed[0], View().armed[i]);
      }
    }

    method GetNextTime(now: nat) returns (wait: nat)
      requires Valid()
      ensures wait == Timers.GetNextTime(View(), now)
      ensures timers == [] ==> wait == 0xFFFF_FFFF_FFFF_FFFF
      ensures timers != [] ==>
                && (wait == 0 <==> exists i :: 0 <= i < |timers| && timers[i].next <= now)
                && (wait > 0 ==> (exists i :: 0 <= i < |timers| && timers[i].next == now + wait)
                                 && forall i :: 0 <= i < |timers| ==> now + wait <= timers[i].next)
    {
      FirstIsSoonest();
      if |timers| == 0 { return FOREVER; }
      wait := if now >= timers[0].next then 0 else timers[0].next - now;
    }

    /** How many timers, from the front, are due. */
    method DueCount(now: nat, probe: nat) returns (p: nat)
      requires Valid()
      ensures p == Cut(View(), now, probe)
    {
      p := LowerBound(now, probe);
      while p < |timers| && timers[p].next == now
        invariant p <= |timers|
        invariant Cut(View(), now, probe) == SkipTies(View(), now, p)
      {
        p := p + 1;
      }
    }

    /** The callbacks of the timers due, in order. */
    method ListExpiredCbs(now: nat, probe: nat) returns (cbs: seq<Option<nat>>)
      requires Valid()
      modifies this, objects.Values
      ensures Valid() && objects == old(objects)
      ensures var e := Expire(old(View()), now, probe);
              && View() == e.timers
              && cbs == Callbacks(old(Recs()), e.expired)
    {
      hide Sorted, Expire, Cut, Timers.Settle, Timers.LowerBound, SkipTies, Less;
      ghost var s := View();
      ExpireIsExact(s, now, probe);
      cbs := [];
      if |timers| == 0 {
        NothingArmed(s, now, probe);
        return;
      }
      assert |s.armed| == |timers|;
      ExpireCuts(s, now, probe);
      var p := DueCount(now, probe);
      SliceKeepsOk(s, p);
      var expired := timers[..p];
      timers := timers[p..];
      assert Addresses(expired) == s.armed[..p] && Addresses(timers) == s.armed[p..];
      assert View() == s.(armed := s.armed[p..]);
      assert forall i, j :: 0 <= i < j < |expired| ==> s.armed[..p][i] != s.armed[..p][j];
      cbs := Settle(expired, now);
    }

    method SettleOne(t: Timer, now: nat)
      requires Shape() && Holds(t)
      modifies this, t
      ensures Shape() && objects == old(objects) && Known(old(Recs()), old(Addresses(timers)))
      ensures View() == Timers.SettleOne(old(View()), t.addr, now)
    {
      ghost var s := View();
      if t.recurring {
        t.next := Add64(now, t.ms);
        Changed(s, t);
        var _ := Insert(t);
      } else {
        t.cb := None;
        Changed(s, t);
      }
    }

    /** The second half of listExpiredCbs. */
    method Settle(expired: seq<Timer>, now: nat) returns (cbs: seq<Option<nat>>)
      requires Shape() && forall i :: 0 <= i < |expired| ==> Holds(expired[i])
      requires forall i, j :: 0 <= i < j < |expired| ==> expired[i].addr != expired[j].addr
      modifies this, objects.Values
      ensures Shape() && objects == old(objects)
      ensures Known(old(Recs()), old(Addresses(timers))) && Known(old(Recs()), Addresses(expired))
      ensures View() == Timers.Settle(old(View()), Addresses(expired), now)
      ensures cbs == Callbacks(old(Recs()), Addresses(expired))
    {
      hide Timers.SettleOne, Timers.Settle, Ok;
      ghost var s := View();
      ghost var all := Addresses(expired);
      cbs := [];
      var k := 0;
      assert all[0..] == all;
      while k < |expired|
        invariant k <= |expired| && Shape() && objects == old(objects)
        invariant |cbs| == k && forall i :: 0 <= i < k ==> cbs[i] == s.recs[expired[i].addr].cb
        invariant forall i :: k <= i < |expired| ==> expired[i].cb == s.recs[expired[i].addr].cb
        invariant Timers.Settle(View(), all[k..], now) == Timers.Settle(s, all, now)
      {
        SettleNext(View(), all, k, now);
        cbs := cbs + [expired[k].cb];
        SettleOne(expired[k], now);
        k := k + 1;
      }
      SettleNothing(View(), all, now);
    }
  }

  ghost function Addresses(timers: seq<Timer>): (addrs: seq<nat>)
    ensures |addrs| == |timers|
    ensures forall i :: 0 <= i < |addrs| ==> addrs[i] == timers[i].addr
  {
    seq(|timers|, i requires 0 <= i < |timers| => timers[i].addr)
  }

  function Callbacks(recs: map<nat, Rec>, expired: seq<nat>): (cbs: seq<Option<nat>>)
    requires Known(recs, expired)
    ensures |cbs| == |expired|
    ensures forall i :: 0 <= i < |cbs| ==> cbs[i] == recs[expired[i]].cb
  {
    seq(|expired|, i requires 0 <= i < |expired| => recs[expired[i]].cb)
  }
}
