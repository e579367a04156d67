/** The ordered timer set (src/timer.cpp) as a value.

    `recs` holds the fields of every timer object by its address; `armed` is the content of the
    std::set, in iteration order.  Times are unsigned 64-bit milliseconds. */
module Timers {
  import opened Wrappers

  const TWO64: nat := 0x1_0000_0000_0000_0000

  function Add64(a: nat, b: nat): nat {
    (a + b) % TWO64
  }

  /** The sum of two unsigned 64-bit numbers is exact unless it overflows, and then 2^64 short. */
  lemma Add64Is(a: nat, b: nat)
    requires a < 0x1_0000_0000_0000_0000 && b < 0x1_0000_0000_0000_0000
    ensures Add64(a, b) == if a + b < 0x1_0000_0000_0000_0000 then a + b else a + b - 0x1_0000_0000_0000_0000
  {
  }

  datatype Rec = Rec(ms: nat, next: nat, cb: Option<nat>, recurring: bool)

  datatype TimerSet = TimerSet(recs: map<nat, Rec>, armed: seq<nat>)

  /** The comparator: by deadline, ties by address. */
  predicate Before(next1: nat, addr1: nat, next2: nat, addr2: nat) {
    next1 < next2 || (next1 == next2 && addr1 < addr2)
  }

  predicate Less(recs: map<nat, Rec>, a: nat, b: nat)
    requires a in recs && b in recs
  {
    Before(recs[a].next, a, recs[b].next, b)
  }

  predicate Known(recs: map<nat, Rec>, armed: seq<nat>) {
    forall i :: 0 <= i < |armed| ==> armed[i] in recs
  }

  predicate Sorted(recs: map<nat, Rec>, armed: seq<nat>) {
    Known(recs, armed) && forall i, j :: 0 <= i < j < |armed| ==> Less(recs, armed[i], armed[j])
  }

  /** std::set::lower_bound: the first position whose key is not before (next, addr). */
  function LowerBound(recs: map<nat, Rec>, armed: seq<nat>, next: nat, addr: nat): (p: nat)
    requires Known(recs, armed)
    ensures p <= |armed|
    ensures p < |armed| ==> !Before(recs[armed[p]].next, armed[p], next, addr)
    ensures forall i :: 0 <= i < p ==> Before(recs[armed[i]].next, armed[i], next, addr)
  {
    if armed == [] || !Before(recs[armed[0]].next, armed[0], next, addr) then 0
    else 1 + LowerBound(recs, armed[1..], next, addr)
  }

  /** The lower bound is the only position that splits the keys so. */
  lemma {:induction false} LowerBoundIs(recs: map<nat, Rec>, armed: seq<nat>, next: nat, addr: nat, p: nat)
    requires Known(recs, armed) && p <= |armed|
    requires forall i :: 0 <= i < p ==> Before(recs[armed[i]].next, armed[i], next, addr)
    requires p < |armed| ==> !Before(recs[armed[p]].next, armed[p], next, addr)
    ensures LowerBound(recs, armed, next, addr) == p
  {
    if p > 0 {
      LowerBoundIs(recs, armed[1..], next, addr, p - 1);
    }
  }

  /** std::set::insert. */
  function Insert(recs: map<nat, Rec>, armed: seq<nat>, a: nat): seq<nat>
    requires Known(recs, armed) && a in recs
  {
    var p := LowerBound(recs, armed, recs[a].next, a);
    if p < |armed| && !Before(recs[a].next, a, recs[armed[p]].next, armed[p]) then armed
    else armed[..p] + [a] + armed[p..]
  }

  /** std::set::find: the position of an equivalent key, or the end. */
  function Find(recs: map<nat, Rec>, armed: seq<nat>, a: nat): (p: nat)
    requires Known(recs, armed) && a in recs
    ensures p <= |armed|
  {
    var p := LowerBound(recs, armed, recs[a].next, a);
    if p < |armed| && !Before(recs[a].next, a, recs[armed[p]].next, armed[p]) then p else |armed|
  }

  function RemoveAt(armed: seq<nat>, p: nat): seq<nat>
    requires p < |armed|
  {
    armed[..p] + armed[p + 1..]
  }

  ghost predicate Ok(s: TimerSet) {
    Sorted(s.recs, s.armed)
  }

  // ---------------------------------------------------------------- operations

  /** addTimer; the flag says whether onTimerRefresh is owed. */
  function AddTimer(s: TimerSet, a: nat, now: nat, ms: nat, cb: Option<nat>, recurring: bool): (r: (TimerSet, bool))
    requires Ok(s) && a !in s.recs
  {
    var recs := s.recs[a := Rec(ms, Add64(now, ms), cb, recurring)];
    var armed := Insert(recs, s.armed, a);
    (TimerSet(recs, armed), armed != [] && armed[0] == a)
  }

  function Cancel(s: TimerSet, a: nat): (r: (TimerSet, bool))
    requires Ok(s) && a in s.recs
  {
    if s.recs[a].cb == None then (s, false)
    else
      var recs := s.recs[a := s.recs[a].(cb := None)];
      var p := Find(recs, s.armed, a);
      if p < |s.armed| then (TimerSet(recs, RemoveAt(s.armed, p)), true) else (TimerSet(recs, s.armed), false)
  }

  /** The common part of refresh and reset: out of the set, new deadline, back in. */
  function Rearm(s: TimerSet, a: nat, p: nat, now: nat, ms: nat): (r: (TimerSet, bool))
    requires Ok(s) && a in s.recs && p < |s.armed|
  {
    var recs := s.recs[a := s.recs[a].(ms := ms, next := Add64(now, ms))];
    var rest := RemoveAt(s.armed, p);
    var armed := Insert(recs, rest, a);
    (TimerSet(recs, armed), armed != [] && armed[0] == a)
  }

  datatype Outcome = Outcome(timers: TimerSet, ok: bool, owed: bool)

  function Refresh(s: TimerSet, a: nat, now: nat): Outcome
    requires Ok(s) && a in s.recs
  {
    if s.recs[a].cb == None then Outcome(s, false, false)
    else
      var p := Find(s.recs, s.armed, a);
      if p == |s.armed| then Outcome(s.(recs := s.recs[a := s.recs[a].(cb := None)]), false, false)
      else
        var (s', owed) := Rearm(s, a, p, now, s.recs[a].ms);
        Outcome(s', true, owed)
  }

  function Reset(s: TimerSet, a: nat, now: nat, ms: nat): Outcome
    requires Ok(s) && a in s.recs
  {
    if ms == s.recs[a].ms then Outcome(s, true, false)
    else if s.recs[a].cb == None then Outcome(s, false, false)
    else
      var p := Find(s.recs, s.armed, a);
      if p == |s.armed| then Outcome(s, false, false)
      else
        var (s', owed) := Rearm(s, a, p, now, ms);
        Outcome(s', true, owed)
  }

  /** The probe of listExpiredCbs: lower_bound of a key at `now` with an arbitrary address, then on
      over every timer due exactly now. */
  function Cut(s: TimerSet, now: nat, probe: nat): (p: nat)
    requires Ok(s)
    ensures p <= |s.armed|
  {
    SkipTies(s, now, LowerBound(s.recs, s.armed, now, probe))
  }

  function SkipTies(s: TimerSet, now: nat, p: nat): (q: nat)
    requires Ok(s) && p <= |s.armed|
    ensures p <= q <= |s.armed|
    decreases |s.armed| - p
  {
    if p < |s.armed| && s.recs[s.armed[p]].next == now then SkipTies(s, now, p + 1) else p
  }

  /** The loop over the expired timers: a recurring one goes back with a new deadline, a one-shot one
      loses its callback. */
  function SettleOne(s: TimerSet, a: nat, now: nat): (s': TimerSet)
    requires Known(s.recs, s.armed) && a in s.recs
    ensures Known(s'.recs, s'.armed) && s'.recs.Keys == s.recs.Keys
  {
    var rec := s.recs[a];
    if rec.recurring then
      var recs := s.recs[a := rec.(next := Add64(now, rec.ms))];
      TimerSet(recs, Insert(recs, s.armed, a))
    else
      s.(recs := s.recs[a := rec.(cb := None)])
  }

  function Settle(s: TimerSet, expired: seq<nat>, now: nat): TimerSet
    requires Known(s.recs, s.armed) && Known(s.recs, expired)
    decreases expired
  {
    if expired == [] then s
    else Settle(SettleOne(s, expired[0], now), expired[1..], now)
  }

  lemma SettleNext(s: TimerSet, expired: seq<nat>, k: nat, now: nat)
    requires Known(s.recs, s.armed) && Known(s.recs, expired) && k < |expired|
    ensures Settle(s, expired[k..], now) == Settle(SettleOne(s, expired[k], now), expired[k + 1..], now)
  {
    assert expired[k..][1..] == expired[k + 1..];
  }

  lemma SettleNothing(s: TimerSet, expired: seq<nat>, now: nat)
    requires Known(s.recs, s.armed)
    ensures Settle(s, expired[|expired|..], now) == s
  {
  }

  datatype Expiry = Expiry(timers: TimerSet, expired: seq<nat>)

  function Expire(s: TimerSet, now: nat, probe: nat): Expiry
    requires Ok(s)
  {
    var p := Cut(s, now, probe);
    Expiry(Settle(s.(armed := s.armed[p..]), s.armed[..p], now), s.armed[..p])
  }

  /** cancelAllTimers: everything in the set loses its callback and leaves. */
  function CancelAll(s: TimerSet): TimerSet {
    TimerSet(map a | a in s.recs :: if a in s.armed then s.recs[a].(cb := None) else s.recs[a], [])
  }

  const FOREVER: nat := TWO64 - 1

  function GetNextTime(s: TimerSet, now: nat): nat
    requires Ok(s)
  {
    if s.armed == [] then FOREVER
    else if now >= s.recs[s.armed[0]].next then 0
    else s.recs[s.armed[0]].next - now
  }

  // ---------------------------------------------------------------- the order of the set

  lemma FrameSorted(recs: map<nat, Rec>, recs': map<nat, Rec>, armed: seq<nat>)
    requires Sorted(recs, armed)
    requires forall i :: 0 <= i < |armed| ==> armed[i] in recs' && recs'[armed[i]].next == recs[armed[i]].next
    ensures Sorted(recs', armed)
  {
  }

  /** Where an element goes: everything before it is less, everything after it greater. */
  lemma InsertPlace(recs: map<nat, Rec>, armed: seq<nat>, a: nat)
    requires Sorted(recs, armed) && a in recs && a !in armed
    ensures var p := LowerBound(recs, armed, recs[a].next, a);
            && Insert(recs, armed, a) == armed[..p] + [a] + armed[p..]
            && (forall i :: 0 <= i < p ==> Less(recs, armed[i], a))
            && (forall i :: p <= i < |armed| ==> Less(recs, a, armed[i]))
  {
    var p := LowerBound(recs, armed, recs[a].next, a);
    if p < |armed| {
      assert armed[p] in armed;
      forall i | p <= i < |armed|
        ensures Less(recs, a, armed[i])
      {
        assert i > p ==> Less(recs, armed[p], armed[i]);
      }
    }
  }

  lemma JoinKeepsSorted(recs: map<nat, Rec>, armed: seq<nat>, a: nat, p: nat)
    requires Sorted(recs, armed) && a in recs && p <= |armed|
    requires forall i :: 0 <= i < p ==> Less(recs, armed[i], a)
    requires forall i :: p <= i < |armed| ==> Less(recs, a, armed[i])
    ensures Sorted(recs, armed[..p] + [a] + armed[p..])
  {
    hide Less;
    var armed' := armed[..p] + [a] + armed[p..];
    forall i | 0 <= i < |armed'|
      ensures armed'[i] == if i < p then armed[i] else if i == p then a else armed[i - 1]
    {
    }
    assert Known(recs, armed');
    forall i, j | 0 <= i < j < |armed'|
      ensures Less(recs, armed'[i], armed'[j])
    {
      assert i != p && j != p ==> Less(recs, armed[if i < p then i else i - 1], armed[if j < p then j else j - 1]);
    }
  }

  lemma InsertKeepsSorted(recs: map<nat, Rec>, armed: seq<nat>, a: nat)
    requires Sorted(recs, armed) && a in recs && a !in armed
    ensures Sorted(recs, Insert(recs, armed, a))
    ensures multiset(Insert(recs, armed, a)) == multiset(armed) + multiset{a}
    ensures a in Insert(recs, armed, a)
  {
    var p := LowerBound(recs, armed, recs[a].next, a);
    InsertPlace(recs, armed, a);
    JoinKeepsSorted(recs, armed, a, p);
    assert armed == armed[..p] + armed[p..];
    assert (armed[..p] + [a] + armed[p..])[p] == a;
  }

  /** In a sorted set, find finds a member at its place and nothing else. */
  lemma FindFinds(recs: map<nat, Rec>, armed: seq<nat>, a: nat)
    requires Sorted(recs, armed) && a in recs
    ensures Find(recs, armed, a) < |armed| <==> a in armed
    ensures a in armed ==> armed[Find(recs, armed, a)] == a
  {
    var p := LowerBound(recs, armed, recs[a].next, a);
    if a in armed {
      var i :| 0 <= i < |armed| && armed[i] == a;
      assert !(i < p);
      assert p < i ==> Less(recs, armed[p], armed[i]);
      assert p == i;
    }
  }

  lemma SortedIsDistinct(recs: map<nat, Rec>, armed: seq<nat>)
    requires Sorted(recs, armed)
    ensures forall i, j :: 0 <= i < |armed| && 0 <= j < |armed| && i != j ==> armed[i] != armed[j]
  {
    forall i, j | 0 <= i < j < |armed|
      ensures armed[i] != armed[j]
    {
      assert Less(recs, armed[i], armed[j]);
    }
  }

  lemma RemoveKeepsSorted(recs: map<nat, Rec>, armed: seq<nat>, p: nat)
    requires Sorted(recs, armed) && p < |armed|
    ensures Sorted(recs, RemoveAt(armed, p))
    ensures armed[p] !in RemoveAt(armed, p)
    ensures multiset(armed) == multiset(RemoveAt(armed, p)) + multiset{armed[p]}
    ensures forall b :: b in RemoveAt(armed, p) <==> b in armed && b != armed[p]
  {
    var rest := RemoveAt(armed, p);
    SortedIsDistinct(recs, armed);
    assert armed == armed[..p] + [armed[p]] + armed[p + 1..];
    forall i | 0 <= i < |rest|
      ensures rest[i] == armed[if i < p then i else i + 1] && rest[i] != armed[p]
    {
    }
    forall b | b in armed && b != armed[p]
      ensures b in rest
    {
      var i :| 0 <= i < |armed| && armed[i] == b;
      assert rest[if i < p then i else i - 1] == b;
    }
  }

  lemma InsertMembers(recs: map<nat, Rec>, armed: seq<nat>, a: nat)
    requires Sorted(recs, armed) && a in recs && a !in armed
    ensures forall b :: b in Insert(recs, armed, a) <==> b == a || b in armed
  {
    InsertKeepsSorted(recs, armed, a);
    forall b
      ensures b in Insert(recs, armed, a) <==> b == a || b in armed
    {
      assert b in multiset(Insert(recs, armed, a)) <==> b in multiset(armed) + multiset{a};
    }
  }

  lemma ArmedAreKnown(s: TimerSet)
    requires Ok(s)
    ensures forall a :: a in s.armed ==> a in s.recs
  {
  }

  /** getNextTime, over all armed timers: 0 exactly if one is due, else the time to a deadline none comes
      before; the largest number if nothing is armed. */
  lemma GetNextTimeIs(s: TimerSet, now: nat)
    requires Ok(s)
    ensures var wait := GetNextTime(s, now);
            if s.armed == [] then wait == 0xFFFF_FFFF_FFFF_FFFF
            else
              && (wait == 0 <==> exists a :: a in s.armed && s.recs[a].next <= now)
              && (wait > 0 ==> (exists a :: a in s.armed && s.recs[a].next == now + wait)
                               && forall a :: a in s.armed ==> now + wait <= s.recs[a].next)
  {
    if s.armed != [] {
      var first := s.armed[0];
      assert first in s.armed;
      forall a | a in s.armed
        ensures s.recs[first].next <= s.recs[a].next
      {
        var i :| 0 <= i < |s.armed| && s.armed[i] == a;
        if i > 0 { assert Less(s.recs, s.armed[0], s.armed[i]); }
      }
    }
  }

  // ---------------------------------------------------------------- exact expiry

  /** The cut is exact, whatever address the probe object happens to get: before it is precisely what is
      due, after it what is not. */
  lemma {:induction false} CutIsExact(s: TimerSet, now: nat, probe: nat)
    requires Ok(s)
    ensures forall i :: 0 <= i < |s.armed| ==> (i < Cut(s, now, probe) <==> s.recs[s.armed[i]].next <= now)
  {
    var p := LowerBound(s.recs, s.armed, now, probe);
    SkipTiesExact(s, now, p);
    forall i | 0 <= i < p
      ensures s.recs[s.armed[i]].next <= now
    {
      assert Before(s.recs[s.armed[i]].next, s.armed[i], now, probe);
    }
    forall i | p <= i < |s.armed|
      ensures s.recs[s.armed[i]].next >= now
    {
      assert i > p ==> Less(s.recs, s.armed[p], s.armed[i]);
    }
    var q := Cut(s, now, probe);
    forall i | q <= i < |s.armed|
      ensures s.recs[s.armed[i]].next > now
    {
      assert i > q ==> Less(s.recs, s.armed[q], s.armed[i]);
    }
  }

  lemma {:induction false} SkipTiesExact(s: TimerSet, now: nat, p: nat)
    requires Ok(s) && p <= |s.armed|
    ensures var q := SkipTies(s, now, p);
            && (forall i :: p <= i < q ==> s.recs[s.armed[i]].next == now)
            && (q < |s.armed| ==> s.recs[s.armed[q]].next != now)
    decreases |s.armed| - p
  {
    if p < |s.armed| && s.recs[s.armed[p]].next == now {
      SkipTiesExact(s, now, p + 1);
    }
  }

  /** What the settling loop leaves: the set stays strictly sorted, holds the timers that were not due
      plus the recurring ones due, and only those; every timer's fields are accounted for. */
  lemma {:induction false} SettleKeeps(s: TimerSet, expired: seq<nat>, now: nat)
    requires Ok(s) && Known(s.recs, expired)
    requires forall i, j :: 0 <= i < j < |expired| ==> expired[i] != expired[j]
    requires forall i :: 0 <= i < |expired| ==> expired[i] !in s.armed
    ensures var s' := Settle(s, expired, now);
            && Ok(s') && s'.recs.Keys == s.recs.Keys
            && (forall a :: a in s'.armed <==> a in s.armed || (a in expired && s.recs[a].recurring))
            && (forall a :: a in s.recs ==> s'.recs[a] == Settled(s.recs[a], a in expired, now))
    decreases expired
  {
    if expired == [] {
    } else {
      var a, rest := expired[0], expired[1..];
      var rec := s.recs[a];
      assert a !in s.armed && a !in rest;
      var s1 := SettleOne(s, a, now);
      FrameSorted(s.recs, s1.recs, s.armed);
      if rec.recurring {
        InsertKeepsSorted(s1.recs, s.armed, a);
        InsertMembers(s1.recs, s.armed, a);
      }
      forall i | 0 <= i < |rest|
        ensures rest[i] !in s1.armed
      {
        assert rest[i] == expired[i + 1];
      }
      SettleKeeps(s1, rest, now);
      assert forall b :: b in expired <==> b == a || b in rest;
    }
  }

  function Settled(rec: Rec, due: bool, now: nat): Rec {
    if !due then rec
    else if rec.recurring then rec.(next := Add64(now, rec.ms))
    else rec.(cb := None)
  }

  /** The cut splits the members into the due and the rest, which share nothing. */
  lemma CutSplits(s: TimerSet, now: nat, probe: nat)
    requires Ok(s)
    ensures var p := Cut(s, now, probe);
            && (forall a :: a in s.armed[..p] <==> a in s.armed && s.recs[a].next <= now)
            && (forall a :: a in s.armed[p..] <==> a in s.armed && s.recs[a].next > now)
  {
    hide Cut, Less;
    var p := Cut(s, now, probe);
    CutIsExact(s, now, probe);
    var due, later := s.armed[..p], s.armed[p..];
    forall a | a in s.armed
      ensures s.recs[a].next <= now ==> a in due
      ensures s.recs[a].next > now ==> a in later
    {
      var i :| 0 <= i < |s.armed| && s.armed[i] == a;
      assert i < p ==> due[i] == a;
      assert i >= p ==> later[i - p] == a;
    }
    forall a | a in due
      ensures a in s.armed && s.recs[a].next <= now
    {
      var j :| 0 <= j < |due| && due[j] == a;
      assert s.armed[j] == a;
    }
    forall a | a in later
      ensures a in s.armed && s.recs[a].next > now
    {
      var j :| 0 <= j < |later| && later[j] == a;
      assert s.armed[p + j] == a;
    }
  }

  lemma SliceKeepsOk(s: TimerSet, p: nat)
    requires Ok(s) && p <= |s.armed|
    ensures Ok(s.(armed := s.armed[p..])) && Known(s.recs, s.armed[..p])
    ensures forall i, j :: 0 <= i < j < p ==> s.armed[..p][i] != s.armed[..p][j]
  {
    SortedIsDistinct(s.recs, s.armed);
  }

  /** listExpiredCbs hands out, in set order, exactly the timers due; the rest stay, the recurring ones
      due go back with a deadline counted from now, the one-shot ones due lose their callback. */
  lemma ExpireIsExact(s: TimerSet, now: nat, probe: nat)
    requires Ok(s)
    ensures var e := Expire(s, now, probe);
            && Ok(e.timers) && e.timers.recs.Keys == s.recs.Keys
            && e.expired <= s.armed
            && (forall a :: a in e.expired <==> a in s.armed && s.recs[a].next <= now)
            && (forall a :: a in e.timers.armed <==> a in s.armed && (s.recs[a].next > now || s.recs[a].recurring))
            && (forall a :: a in s.recs ==> e.timers.recs[a] == Settled(s.recs[a], a in e.expired, now))
  {
    hide Cut, Less, Sorted, Settle, Settled;
    var p := Cut(s, now, probe);
    CutSplits(s, now, probe);
    SliceKeepsOk(s, p);
    forall i | 0 <= i < p
      ensures s.armed[..p][i] !in s.armed[p..]
    {
      assert s.armed[..p][i] in s.armed[..p];
    }
    SettleKeeps(s.(armed := s.armed[p..]), s.armed[..p], now);
  }

  lemma NothingArmed(s: TimerSet, now: nat, probe: nat)
    requires Ok(s) && s.armed == []
    ensures Expire(s, now, probe) == Expiry(s, [])
  {
  }

  /** The two halves of listExpiredCbs. */
  lemma ExpireCuts(s: TimerSet, now: nat, probe: nat)
    requires Ok(s) && s.armed != []
    ensures var p := Cut(s, now, probe);
            && Ok(s.(armed := s.armed[p..])) && Known(s.recs, s.armed[..p])
            && Expire(s, now, probe) == Expiry(Settle(s.(armed := s.armed[p..]), s.armed[..p], now), s.armed[..p])
  {
    hide Sorted, Settle, LowerBound, SkipTies, Less;
    SliceKeepsOk(s, Cut(s, now, probe));
  }

  /** Two probes, any two addresses: the same timers, the same set afterwards. */
  lemma ProbeIsIrrelevant(s: TimerSet, now: nat, probe1: nat, probe2: nat)
    requires Ok(s)
    ensures Expire(s, now, probe1) == Expire(s, now, probe2)
  {
    CutIsExact(s, now, probe1);
    CutIsExact(s, now, probe2);
    var p1, p2 := Cut(s, now, probe1), Cut(s, now, probe2);
    var least := if p1 < p2 then p1 else p2;
    assert least < |s.armed| ==> s.armed[least] in s.recs;
  }

  // ---------------------------------------------------------------- the other operations

  lemma AddKeeps(s: TimerSet, a: nat, now: nat, ms: nat, cb: Option<nat>, recurring: bool)
    requires Ok(s) && a !in s.recs
    ensures var (s', owed) := AddTimer(s, a, now, ms, cb, recurring);
            && Ok(s') && s'.recs == s.recs[a := Rec(ms, Add64(now, ms), cb, recurring)]
            && (forall b :: b in s'.armed <==> b == a || b in s.armed)
            && (owed <==> forall b :: b in s.armed ==> Less(s'.recs, a, b))
  {
    var recs := s.recs[a := Rec(ms, Add64(now, ms), cb, recurring)];
    assert a !in s.armed;
    FrameSorted(s.recs, recs, s.armed);
    InsertKeepsSorted(recs, s.armed, a);
    InsertMembers(recs, s.armed, a);
    FirstIffLeast(recs, s.armed, a);
  }

  lemma FirstIffLeast(recs: map<nat, Rec>, armed: seq<nat>, a: nat)
    requires Sorted(recs, armed) && a in recs && a !in armed
    ensures Insert(recs, armed, a) != []
    ensures Insert(recs, armed, a)[0] == a <==> forall b :: b in armed ==> Less(recs, a, b)
  {
    InsertKeepsSorted(recs, armed, a);
    InsertMembers(recs, armed, a);
    var armed' := Insert(recs, armed, a);
    if armed'[0] == a {
      forall b | b in armed
        ensures Less(recs, a, b)
      {
        assert b in armed';
        var i :| 0 <= i < |armed'| && armed'[i] == b;
        assert Less(recs, armed'[0], armed'[i]);
      }
    } else {
      assert armed'[0] in armed';
      var i :| 0 <= i < |armed'| && armed'[i] == a;
      assert Less(recs, armed'[0], armed'[i]);
    }
  }

  lemma CancelKeeps(s: TimerSet, a: nat)
    requires Ok(s) && a in s.recs
    ensures var (s', done) := Cancel(s, a);
            && Ok(s') && s'.recs == s.recs[a := s.recs[a].(cb := None)]
            && (done <==> s.recs[a].cb.Some? && a in s.armed)
            && (forall b :: b in s'.armed <==> b in s.armed && !(b == a && done))
  {
    if s.recs[a].cb.Some? {
      var recs := s.recs[a := s.recs[a].(cb := None)];
      FrameSorted(s.recs, recs, s.armed);
      FindFinds(recs, s.armed, a);
      if a in s.armed { RemoveKeepsSorted(recs, s.armed, Find(recs, s.armed, a)); }
    } else {
      assert s.recs[a := s.recs[a].(cb := None)] == s.recs;
    }
  }

  /** The first `k` timers cancelled and gone. */
  function CancelFirst(s: TimerSet, k: nat): TimerSet
    requires k <= |s.armed|
  {
    TimerSet(map a | a in s.recs :: if a in s.armed[..k] then s.recs[a].(cb := None) else s.recs[a], s.armed[k..])
  }

  lemma CancelFirstStep(s: TimerSet, k: nat)
    requires Known(s.recs, s.armed) && k < |s.armed|
    ensures var t, a := CancelFirst(s, k), s.armed[k];
            && t.armed != [] && t.armed[0] == a && a in t.recs
            && CancelFirst(s, k + 1) == TimerSet(t.recs[a := t.recs[a].(cb := None)], t.armed[1..])
  {
    assert s.armed[..k + 1] == s.armed[..k] + [s.armed[k]];
  }

  /** None cancelled, and all. */
  lemma CancelFirstEnds(s: TimerSet)
    requires Known(s.recs, s.armed)
    ensures CancelFirst(s, 0) == s && CancelFirst(s, |s.armed|) == CancelAll(s)
  {
    assert s.armed[..|s.armed|] == s.armed;
  }

  lemma CancelAllKeeps(s: TimerSet)
    requires Ok(s)
    ensures Ok(CancelAll(s))
  {
  }

  lemma RearmKeeps(s: TimerSet, a: nat, now: nat, ms: nat)
    requires Ok(s) && a in s.recs && a in s.armed
    ensures Find(s.recs, s.armed, a) < |s.armed|
    ensures var (s', owed) := Rearm(s, a, Find(s.recs, s.armed, a), now, ms);
            && Ok(s') && s'.recs == s.recs[a := s.recs[a].(ms := ms, next := Add64(now, ms))]
            && (forall b :: b in s'.armed <==> b in s.armed)
            && (owed <==> forall b :: b in s.armed && b != a ==> Less(s'.recs, a, b))
  {
    FindFinds(s.recs, s.armed, a);
    var p := Find(s.recs, s.armed, a);
    RemoveKeepsSorted(s.recs, s.armed, p);
    var rest := RemoveAt(s.armed, p);
    var recs := s.recs[a := s.recs[a].(ms := ms, next := Add64(now, ms))];
    forall i | 0 <= i < |rest|
      ensures rest[i] != a
    {
      assert rest[i] in rest;
    }
    FrameSorted(s.recs, recs, rest);
    InsertKeepsSorted(recs, rest, a);
    InsertMembers(recs, rest, a);
    FirstIffLeast(recs, rest, a);
  }

  lemma RefreshKeeps(s: TimerSet, a: nat, now: nat)
    requires Ok(s) && a in s.recs
    ensures var o := Refresh(s, a, now);
            && Ok(o.timers) && (o.ok <==> s.recs[a].cb.Some? && a in s.armed)
            && (forall b :: b in o.timers.armed <==> b in s.armed)
            && o.timers.recs == s.recs[a := if o.ok then s.recs[a].(next := Add64(now, s.recs[a].ms)) else s.recs[a].(cb := None)]
            && (o.owed <==> o.ok && forall b :: b in s.armed && b != a ==> Less(o.timers.recs, a, b))
  {
    FindFinds(s.recs, s.armed, a);
    if s.recs[a].cb.Some? && a in s.armed {
      RearmKeeps(s, a, now, s.recs[a].ms);
    } else {
      FrameSorted(s.recs, s.recs[a := s.recs[a].(cb := None)], s.armed);
      assert s.recs[a].cb == None ==> s.recs[a := s.recs[a].(cb := None)] == s.recs;
    }
  }

  lemma ResetKeeps(s: TimerSet, a: nat, now: nat, ms: nat)
    requires Ok(s) && a in s.recs
    ensures var o := Reset(s, a, now, ms);
            && Ok(o.timers)
            && (o.ok <==> ms == s.recs[a].ms || (s.recs[a].cb.Some? && a in s.armed))
            && (forall b :: b in o.timers.armed <==> b in s.armed)
            && o.timers.recs == s.recs[a := if o.ok && ms != s.recs[a].ms then s.recs[a].(ms := ms, next := Add64(now, ms))
                                         else s.recs[a]]
            && (o.owed <==> o.ok && ms != s.recs[a].ms && forall b :: b in s.armed && b != a ==> Less(o.timers.recs, a, b))
  {
    FindFinds(s.recs, s.armed, a);
    if ms != s.recs[a].ms && s.recs[a].cb.Some? && a in s.armed {
      RearmKeeps(s, a, now, ms);
    } else {
      assert s.recs[a := s.recs[a]] == s.recs;
    }
  }
}
