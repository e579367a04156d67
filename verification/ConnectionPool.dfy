/** The HTTP connection pool (HttpConnectionPool in src/http/http_connection.cpp): its accounting under
    any interleaving of callers, and its two methods as code. */
module ConnectionPool {
  import opened Wrappers

  datatype Conn = Conn(created: nat, request: nat)

  /** Where a connection is.  Held: with a caller inside getConnection or ReleasePtr, and counted in
      m_total; New: constructed but not yet counted. */
  datatype Place = Idle | Out | Held(tid: nat) | New(tid: nat) | Gone

  /** A caller between two lock-protected or atomic steps. */
  datatype Flight = Scanned(invalid: seq<nat>, got: Option<nat>) | NeedNew | Created(c: nat) | Dying(c: nat) | Returning(c: nat)

  datatype Pool = Pool(conns: map<nat, Conn>, idle: seq<nat>, total: int, maxAlive: nat, maxRequest: nat,
                       flights: map<nat, Flight>, place: map<nat, Place>, served: map<nat, nat>)

  /** What the scan drops: a connection that is closed, or past its age. */
  predicate Stale(conn: Conn, up: bool, now: nat, maxAlive: nat) {
    !up || conn.created + maxAlive < now
  }

  function ConnOf(conns: map<nat, Conn>, c: nat): Conn {
    if c in conns then conns[c] else Conn(0, 0)
  }

  /** How many idle connections the scan drops: all up to the first one it can use. */
  function Dropped(idle: seq<nat>, conns: map<nat, Conn>, up: nat -> bool, now: nat, maxAlive: nat): (n: nat)
    ensures n <= |idle|
    ensures forall i :: 0 <= i < n ==> Stale(ConnOf(conns, idle[i]), up(idle[i]), now, maxAlive)
    ensures n < |idle| ==> !Stale(ConnOf(conns, idle[n]), up(idle[n]), now, maxAlive)
  {
    if idle == [] || !Stale(ConnOf(conns, idle[0]), up(idle[0]), now, maxAlive) then 0
    else 1 + Dropped(idle[1..], conns, up, now, maxAlive)
  }

  // ---------------------------------------------------------------- steps of concurrent callers

  datatype Label =
    | Scan(tid: nat, now: nat, up: nat -> bool)       // the locked loop of getConnection
    | Settle(tid: nat)                                // m_total -= dropped; hand out or go on
    | Fail(tid: nat)                                  // lookup, socket or connect failed
    | Construct(tid: nat, c: nat, now: nat)           // new HttpConnection
    | Count(tid: nat)                                 // ++m_total, handed out
    | Release(tid: nat, c: nat, now: nat, alive: bool) // ReleasePtr up to its decision
    | Uncount(tid: nat)                               // deleted, --m_total
    | PushBack(tid: nat)                              // back into the list

  predicate Enabled(p: Pool, l: Label) {
    match l
    case Scan(tid, _, _) => tid !in p.flights
    case Settle(tid) => tid in p.flights && p.flights[tid].Scanned?
    case Fail(tid) => tid in p.flights && p.flights[tid].NeedNew?
    case Construct(tid, c, _) => tid in p.flights && p.flights[tid].NeedNew? && c !in p.place
    case Count(tid) => tid in p.flights && p.flights[tid].Created?
    case Release(tid, c, _, _) => tid !in p.flights && c in p.place && p.place[c] == Out
    case Uncount(tid) => tid in p.flights && p.flights[tid].Dying?
    case PushBack(tid) => tid in p.flights && p.flights[tid].Returning?
  }

  function PlaceAll(place: map<nat, Place>, cs: seq<nat>, where: Place): map<nat, Place> {
    map c | c in place.Keys + (set x | x in cs) :: if c in cs then where else place[c]
  }

  function ServedBy(served: map<nat, nat>, c: nat): nat {
    if c in served then served[c] else 0
  }

  function Apply(p: Pool, l: Label): Pool
    requires Enabled(p, l)
  {
    match l
    case Scan(tid, now, up) =>
      var n := Dropped(p.idle, p.conns, up, now, p.maxAlive);
      var taken := if n < |p.idle| then n + 1 else n;
      p.(idle := p.idle[taken..], place := PlaceAll(p.place, p.idle[..taken], Held(tid)),
         flights := p.flights[tid := Scanned(p.idle[..n], if n < |p.idle| then Some(p.idle[n]) else None)])
    case Settle(tid) =>
      var Scanned(invalid, got) := p.flights[tid];
      var place := PlaceAll(p.place, invalid, Gone);
      if got.Some? then
        p.(total := p.total - |invalid|, place := place[got.value := Out], flights := p.flights - {tid},
           served := p.served[got.value := ServedBy(p.served, got.value) + 1])
      else
        p.(total := p.total - |invalid|, place := place, flights := p.flights[tid := NeedNew])
    case Fail(tid) => p.(flights := p.flights - {tid})
    case Construct(tid, c, now) =>
      p.(conns := p.conns[c := Conn(now, 0)], place := p.place[c := New(tid)], flights := p.flights[tid := Created(c)],
         served := p.served[c := 0])
    case Count(tid) =>
      var c := p.flights[tid].c;
      p.(total := p.total + 1, place := p.place[c := Out], flights := p.flights - {tid},
         served := p.served[c := ServedBy(p.served, c) + 1])
    case Release(tid, c, now, alive) =>
      var conn := ConnOf(p.conns, c).(request := ConnOf(p.conns, c).request + 1);
      p.(conns := p.conns[c := conn], place := p.place[c := Held(tid)],
         flights := p.flights[tid := if Finished(conn, alive, now, p.maxAlive, p.maxRequest) then Dying(c) else Returning(c)])
    case Uncount(tid) =>
      var c := p.flights[tid].c;
      p.(total := p.total - 1, place := p.place[c := Gone], flights := p.flights - {tid})
    case PushBack(tid) =>
      var c := p.flights[tid].c;
      p.(idle := p.idle + [c], place := p.place[c := Idle], flights := p.flights - {tid})
  }

  /** What ReleasePtr does not put back: closed, at or past its age, or out of requests. */
  predicate Finished(conn: Conn, up: bool, now: nat, maxAlive: nat, maxRequest: nat) {
    !up || conn.created + maxAlive <= now || conn.request >= maxRequest
  }

  // ---------------------------------------------------------------- the invariant

  function Counted(place: map<nat, Place>): set<nat> {
    set c | c in place && (place[c].Idle? || place[c].Out? || place[c].Held?)
  }

  function HandedOut(place: map<nat, Place>): set<nat> {
    set c | c in place && place[c].Out?
  }

  /** The list holds each idle connection once, and nothing else. */
  ghost predicate ListOk(p: Pool) {
    && (forall i, j :: 0 <= i < j < |p.idle| ==> p.idle[i] != p.idle[j])
    && (forall c :: c in p.idle <==> c in p.place && p.place[c] == Idle)
  }

  predicate HeldBy(p: Pool, tid: nat, c: nat) {
    c in p.place && p.place[c] == Held(tid)
  }

  /** A caller's connections are its own. */
  predicate FlightOk(p: Pool, tid: nat)
    requires tid in p.flights
  {
    match p.flights[tid]
    case Scanned(invalid, got) =>
      && (forall i, j :: 0 <= i < j < |invalid| ==> invalid[i] != invalid[j])
      && (forall i :: 0 <= i < |invalid| ==> HeldBy(p, tid, invalid[i]))
      && (got.Some? ==> HeldBy(p, tid, got.value) && got.value !in invalid
                        && ConnOf(p.conns, got.value).request < p.maxRequest)
    case NeedNew => true
    case Created(c) => c in p.place && p.place[c] == New(tid)
    case Dying(c) => HeldBy(p, tid, c)
    case Returning(c) => HeldBy(p, tid, c) && ConnOf(p.conns, c).request < p.maxRequest
  }

  /** Checkouts so far: the releases, and one more while it is out. */
  predicate ServiceOk(p: Pool, c: nat)
    requires c in p.place
  {
    var request, served := ConnOf(p.conns, c).request, ServedBy(p.served, c);
    && served == request + (if p.place[c].Out? then 1 else 0)
    && (p.place[c].Idle? ==> request < p.maxRequest)
    && (p.place[c].New? ==> request == 0)
    && served <= (if p.maxRequest > 1 then p.maxRequest else 1)
  }

  predicate Mentions(f: Flight, c: nat) {
    match f
    case Scanned(invalid, got) => c in invalid || got == Some(c)
    case NeedNew => false
    case Created(d) => d == c
    case Dying(d) => d == c
    case Returning(d) => d == c
  }

  /** Whatever is not idle, out or gone is in some caller's hands. */
  ghost predicate NoneLost(p: Pool) {
    forall c :: c in p.place && (p.place[c].Held? || p.place[c].New?) ==>
                  p.place[c].tid in p.flights && Mentions(p.flights[p.place[c].tid], c)
  }

  ghost predicate PoolInv(p: Pool) {
    && p.total == |Counted(p.place)|
    && ListOk(p)
    && NoneLost(p)
    && (forall tid :: tid in p.flights ==> FlightOk(p, tid))
    && (forall c :: c in p.place ==> ServiceOk(p, c))
  }

  function Start(maxAlive: nat, maxRequest: nat): Pool {
    Pool(map[], [], 0, maxAlive, maxRequest, map[], map[], map[])
  }

  lemma StartInv(maxAlive: nat, maxRequest: nat)
    ensures PoolInv(Start(maxAlive, maxRequest))
  {
    assert Counted(map[]) == {};
  }

  // ---------------------------------------------------------------- every step keeps it

  lemma PlaceAllIs(place: map<nat, Place>, cs: seq<nat>, where: Place)
    ensures forall c :: c in PlaceAll(place, cs, where) <==> c in place || c in cs
    ensures forall c :: c in cs ==> PlaceAll(place, cs, where)[c] == where
    ensures forall c :: c in place && c !in cs ==> PlaceAll(place, cs, where)[c] == place[c]
  {
  }

  lemma ScanTakes(p: Pool, n: nat)
    requires ListOk(p) && n <= |p.idle|
    ensures forall c :: c in p.idle <==> c in p.idle[..n] || c in p.idle[n..]
    ensures forall c :: c in p.idle[..n] ==> c !in p.idle[n..]
  {
    assert p.idle == p.idle[..n] + p.idle[n..];
    forall c | c in p.idle[..n]
      ensures c !in p.idle[n..]
    {
      var i :| 0 <= i < n && p.idle[..n][i] == c;
      assert forall j :: 0 <= j < |p.idle| - n ==> p.idle[n..][j] == p.idle[n + j];
    }
  }

  /** A step of one caller leaves the other callers' connections alone. */
  ghost predicate OnlyBy(p: Pool, p': Pool, tid: nat) {
    && p'.maxRequest == p.maxRequest && p'.maxAlive == p.maxAlive
    && (forall t :: t != tid ==> (t in p'.flights <==> t in p.flights))
    && (forall t :: t != tid && t in p.flights ==> p'.flights[t] == p.flights[t])
    && (forall c :: c in p.place && (p.place[c].Held? || p.place[c].New?) && p.place[c].tid != tid ==>
                      c in p'.place && p'.place[c] == p.place[c] && ConnOf(p'.conns, c) == ConnOf(p.conns, c))
    && (forall c :: c in p'.place && (p'.place[c].Held? || p'.place[c].New?) && p'.place[c].tid != tid ==>
                      c in p.place && p.place[c] == p'.place[c])
  }

  lemma OthersKeep(p: Pool, p': Pool, tid: nat, t: nat)
    requires PoolInv(p) && OnlyBy(p, p', tid) && t != tid && t in p'.flights
    ensures FlightOk(p', t)
  {
    hide ServiceOk, ListOk, Counted;
    assert FlightOk(p, t);
  }

  lemma NoneLostKeeps(p: Pool, p': Pool, tid: nat)
    requires NoneLost(p) && OnlyBy(p, p', tid)
    requires forall c :: c in p'.place && (p'.place[c] == Held(tid) || p'.place[c] == New(tid)) ==>
                           tid in p'.flights && Mentions(p'.flights[tid], c)
    ensures NoneLost(p')
  {
    hide Mentions;
  }

  /** The parts of the invariant after a step of one caller. */
  lemma Assemble(p: Pool, p': Pool, tid: nat)
    requires PoolInv(p) && OnlyBy(p, p', tid)
    requires p'.total == |Counted(p'.place)| && ListOk(p')
    requires tid in p'.flights ==> FlightOk(p', tid)
    requires forall c :: c in p'.place && (p'.place[c] == Held(tid) || p'.place[c] == New(tid)) ==>
                           tid in p'.flights && Mentions(p'.flights[tid], c)
    requires forall c :: c in p'.place ==> ServiceOk(p', c)
    ensures PoolInv(p')
  {
    hide ServiceOk, ListOk, Counted, FlightOk, OnlyBy, NoneLost, Mentions;
    forall t | t in p'.flights
      ensures FlightOk(p', t)
    {
      if t != tid { OthersKeep(p, p', tid, t); }
    }
    NoneLostKeeps(p, p', tid);
  }

  /** The effect of a scan, in terms of the connections it takes off the list. */
  ghost predicate Took(p: Pool, p': Pool, tid: nat, held: seq<nat>, n: nat) {
    && n <= |held| <= n + 1
    && p' == p.(idle := p'.idle, place := p'.place,
                flights := p.flights[tid := Scanned(held[..n], if n < |held| then Some(held[n]) else None)])
    && p.idle == held + p'.idle
    && (forall c :: c in p'.place <==> c in p.place)
    && (forall c :: c in held ==> c in p.place && p.place[c] == Idle && c !in p'.idle)
    && (forall c :: c in held ==> p'.place[c] == Held(tid))
    && (forall c :: c in p.place && c !in held ==> p'.place[c] == p.place[c])
    && (forall i, j :: 0 <= i < j < |held| ==> held[i] != held[j])
  }

  lemma ScanTook(p: Pool, l: Label) returns (held: seq<nat>, n: nat)
    requires PoolInv(p) && l.Scan? && Enabled(p, l)
    ensures Took(p, Apply(p, l), l.tid, held, n)
    ensures l.tid !in p.flights
  {
    hide FlightOk, NoneLost, ServiceOk, Counted, PlaceAll, Dropped, Stale;
    n := Dropped(p.idle, p.conns, l.up, l.now, p.maxAlive);
    var taken := if n < |p.idle| then n + 1 else n;
    held := p.idle[..taken];
    ScanTakes(p, taken);
    PlaceAllIs(p.place, held, Held(l.tid));
    assert held[..n] == p.idle[..n];
    assert p.idle == held + p.idle[taken..];
    assert forall i :: 0 <= i < |held| ==> held[i] == p.idle[i];
  }

  lemma TookList(p: Pool, p': Pool, tid: nat, held: seq<nat>, n: nat)
    requires ListOk(p) && Took(p, p', tid, held, n)
    ensures ListOk(p')
  {
    assert forall i :: 0 <= i < |p'.idle| ==> p'.idle[i] == p.idle[|held| + i];
    forall c
      ensures c in p'.idle <==> c in p'.place && p'.place[c] == Idle
    {
      assert c in p.idle <==> c in held || c in p'.idle;
    }
  }

  lemma TookRest(p: Pool, p': Pool, tid: nat, held: seq<nat>, n: nat)
    requires PoolInv(p) && Took(p, p', tid, held, n) && tid !in p.flights
    ensures Counted(p'.place) == Counted(p.place) && OnlyBy(p, p', tid)
    ensures forall c :: c in p'.place ==> ServiceOk(p', c)
    ensures forall c :: c in p'.place && (p'.place[c] == Held(tid) || p'.place[c] == New(tid)) ==> c in held
  {
    hide FlightOk, ListOk;
    forall c | c in p'.place
      ensures ServiceOk(p', c)
    {
      assert c in p.place && ServiceOk(p, c);
    }
  }

  lemma TookFlight(p: Pool, p': Pool, tid: nat, held: seq<nat>, n: nat)
    requires PoolInv(p) && Took(p, p', tid, held, n)
    ensures FlightOk(p', tid)
    ensures forall c :: c in held ==> Mentions(p'.flights[tid], c)
  {
    hide NoneLost, ListOk, Counted, FlightOk;
    assert forall i :: 0 <= i < |held| ==> held[i] in held;
    assert n < |held| ==> ServiceOk(p, held[n]);
    assert forall i :: 0 <= i < n ==> held[..n][i] == held[i];
    ScannedOk(p', tid);
    assert n < |held| ==> held == held[..n] + [held[n]];
    assert n == |held| ==> held == held[..n];
  }

  lemma ScannedOk(p: Pool, tid: nat)
    requires tid in p.flights && p.flights[tid].Scanned?
    requires var Scanned(invalid, got) := p.flights[tid];
             && (forall i, j :: 0 <= i < j < |invalid| ==> invalid[i] != invalid[j])
             && (forall i :: 0 <= i < |invalid| ==> HeldBy(p, tid, invalid[i]))
             && (got.Some? ==> HeldBy(p, tid, got.value) && got.value !in invalid
                               && ConnOf(p.conns, got.value).request < p.maxRequest)
    ensures FlightOk(p, tid)
  {
  }

  lemma ScanKeeps(p: Pool, l: Label)
    requires PoolInv(p) && l.Scan? && Enabled(p, l)
    ensures PoolInv(Apply(p, l))
  {
    hide Apply, FlightOk, ServiceOk, NoneLost, OnlyBy, Mentions, ListOk, Counted, Enabled;
    var held, n := ScanTook(p, l);
    TookList(p, Apply(p, l), l.tid, held, n);
    TookRest(p, Apply(p, l), l.tid, held, n);
    TookFlight(p, Apply(p, l), l.tid, held, n);
    Assemble(p, Apply(p, l), l.tid);
  }

  lemma SettleList(p: Pool, l: Label)
    requires PoolInv(p) && l.Settle? && Enabled(p, l)
    ensures ListOk(Apply(p, l))
  {
    hide NoneLost, ServiceOk, Counted;
    PlaceAllIs(p.place, p.flights[l.tid].invalid, Gone);
    assert FlightOk(p, l.tid);
    var Scanned(invalid, got) := p.flights[l.tid];
    assert forall i :: 0 <= i < |invalid| ==> p.place[invalid[i]] == Held(l.tid);
    assert forall c :: c in invalid ==> c in p.place && p.place[c] == Held(l.tid);
  }

  lemma SettleCount(p: Pool, l: Label)
    requires PoolInv(p) && l.Settle? && Enabled(p, l)
    ensures Apply(p, l).total == |Counted(Apply(p, l).place)|
  {
    hide NoneLost, ServiceOk, ListOk, PlaceAll;
    var Scanned(invalid, got) := p.flights[l.tid];
    assert FlightOk(p, l.tid);
    var place := PlaceAll(p.place, invalid, Gone);
    var place' := if got.Some? then place[got.value := Out] else place;
    assert Apply(p, l).place == place' && Apply(p, l).total == p.total - |invalid|;
    GoneSize(p.place, place', invalid, got);
  }

  /** Connections that leave the count, and one that stays in it. */
  lemma GoneSize(place: map<nat, Place>, place': map<nat, Place>, invalid: seq<nat>, got: Option<nat>)
    requires place' == if got.Some? then PlaceAll(place, invalid, Gone)[got.value := Out] else PlaceAll(place, invalid, Gone)
    requires forall i, j :: 0 <= i < j < |invalid| ==> invalid[i] != invalid[j]
    requires forall i :: 0 <= i < |invalid| ==> invalid[i] in place && place[invalid[i]].Held?
    requires got.Some? ==> got.value in place && place[got.value].Held? && got.value !in invalid
    ensures |Counted(place')| == |Counted(place)| - |invalid|
  {
    hide PlaceAll, Counted;
    var gone := set c | c in invalid;
    GoneSet(place, place', invalid, got, gone);
    DistinctSize(invalid, gone);
  }

  lemma GoneSet(place: map<nat, Place>, place': map<nat, Place>, invalid: seq<nat>, got: Option<nat>, gone: set<nat>)
    requires place' == if got.Some? then PlaceAll(place, invalid, Gone)[got.value := Out] else PlaceAll(place, invalid, Gone)
    requires gone == set c | c in invalid
    requires forall i :: 0 <= i < |invalid| ==> invalid[i] in place && place[invalid[i]].Held?
    requires got.Some? ==> got.value in place && place[got.value].Held? && got.value !in invalid
    ensures gone <= Counted(place) && Counted(place') == Counted(place) - gone
  {
    hide PlaceAll;
    PlaceAllIs(place, invalid, Gone);
  }

  lemma SettleOthers(p: Pool, l: Label)
    requires PoolInv(p) && l.Settle? && Enabled(p, l)
    ensures var p' := Apply(p, l);
            && OnlyBy(p, p', l.tid) && (l.tid in p'.flights ==> FlightOk(p', l.tid))
            && forall c :: c in p'.place ==> p'.place[c] != Held(l.tid) && p'.place[c] != New(l.tid)
  {
    hide ServiceOk, ListOk, Counted;
    var Scanned(invalid, got) := p.flights[l.tid];
    PlaceAllIs(p.place, invalid, Gone);
    assert FlightOk(p, l.tid);
  }

  lemma SettleKeeps(p: Pool, l: Label)
    requires PoolInv(p) && l.Settle? && Enabled(p, l)
    ensures PoolInv(Apply(p, l))
  {
    hide Apply, FlightOk, ServiceOk, NoneLost, OnlyBy, Mentions, ListOk, Counted;
    SettleList(p, l);
    SettleCount(p, l);
    SettleOthers(p, l);
    SettleService(p, l);
    Assemble(p, Apply(p, l), l.tid);
  }

  lemma SettleService(p: Pool, l: Label)
    requires PoolInv(p) && l.Settle? && Enabled(p, l)
    ensures forall c :: c in Apply(p, l).place ==> ServiceOk(Apply(p, l), c)
  {
    hide NoneLost, ListOk, Counted;
    var Scanned(invalid, got) := p.flights[l.tid];
    PlaceAllIs(p.place, invalid, Gone);
    assert FlightOk(p, l.tid);
    forall c | c in Apply(p, l).place
      ensures ServiceOk(Apply(p, l), c)
    {
      assert c in p.place && ServiceOk(p, c);
    }
  }

  lemma {:induction false} DistinctSize(s: seq<nat>, t: set<nat>)
    requires (forall i, j :: 0 <= i < j < |s| ==> s[i] != s[j]) && t == set c | c in s
    ensures |t| == |s|
  {
    if s != [] {
      var rest := set c | c in s[1..];
      DistinctSize(s[1..], rest);
      assert s == [s[0]] + s[1..];
      assert t == rest + {s[0]};
      assert s[0] !in rest;
    }
  }

  /** The steps that touch one connection, or none. */
  lemma OneOthers(p: Pool, l: Label)
    requires PoolInv(p) && Enabled(p, l) && !l.Scan? && !l.Settle?
    ensures OnlyBy(p, Apply(p, l), l.tid)
  {
    hide ServiceOk, Counted, ListOk, OnlyBy, Finished;
    assert l.tid in p.flights ==> FlightOk(p, l.tid);
    var p' := Apply(p, l);
    match l {
      case Fail(tid) => OnlyOne(p, p', tid, 0);
      case Construct(tid, c, now) => OnlyOne(p, p', tid, c);
      case Count(tid) => OnlyOne(p, p', tid, p.flights[tid].c);
      case Release(tid, c, now, alive) => OnlyOne(p, p', tid, c);
      case Uncount(tid) => OnlyOne(p, p', tid, p.flights[tid].c);
      case PushBack(tid) => OnlyOne(p, p', tid, p.flights[tid].c);
    }
  }

  predicate Other(place: map<nat, Place>, c: nat, tid: nat) {
    c in place && (place[c].Held? || place[c].New?) && place[c].tid != tid
  }

  /** Only connection `c`, which is no other caller's, and the caller's own flight change. */
  lemma OnlyOne(p: Pool, p': Pool, tid: nat, c: nat)
    requires p'.maxRequest == p.maxRequest && p'.maxAlive == p.maxAlive
    requires p'.flights - {tid} == p.flights - {tid}
    requires p'.place - {c} == p.place - {c} && p'.conns - {c} == p.conns - {c}
    requires (!Other(p.place, c, tid) && !Other(p'.place, c, tid)) || (p'.place == p.place && p'.conns == p.conns)
    ensures OnlyBy(p, p', tid)
  {
    forall t | t != tid
      ensures t in p'.flights <==> t in p.flights
      ensures t in p.flights ==> p'.flights[t] == p.flights[t]
    {
      assert t in p'.flights <==> t in p'.flights - {tid};
    }
    forall d | d != c
      ensures d in p'.place <==> d in p.place
      ensures d in p.place ==> p'.place[d] == p.place[d]
      ensures ConnOf(p'.conns, d) == ConnOf(p.conns, d)
    {
      assert d in p'.place <==> d in p'.place - {c};
      assert d in p'.conns <==> d in p'.conns - {c};
    }
  }

  lemma OneList(p: Pool, l: Label)
    requires PoolInv(p) && Enabled(p, l) && !l.Scan? && !l.Settle?
    ensures ListOk(Apply(p, l))
  {
    hide ServiceOk, Counted, NoneLost;
    assert l.tid in p.flights ==> FlightOk(p, l.tid);
    var p' := Apply(p, l);
    if l.PushBack? {
      var c := p.flights[l.tid].c;
      assert c !in p.idle;
      assert forall d :: d in p'.idle <==> d in p.idle || d == c;
      assert forall i :: 0 <= i < |p.idle| ==> p'.idle[i] == p.idle[i] && p.idle[i] in p.idle;
    } else {
      assert p'.idle == p.idle;
    }
  }

  lemma OneCount(p: Pool, l: Label)
    requires PoolInv(p) && Enabled(p, l) && !l.Scan? && !l.Settle?
    ensures Apply(p, l).total == |Counted(Apply(p, l).place)|
  {
    hide ServiceOk, ListOk, NoneLost, Counted, Finished;
    assert l.tid in p.flights ==> FlightOk(p, l.tid);
    match l {
      case Fail(tid) =>
      case Construct(tid, c, now) => CountedPut(p.place, c, New(tid));
      case Count(tid) => CountedPut(p.place, p.flights[tid].c, Out);
      case Release(tid, c, now, alive) => CountedPut(p.place, c, Held(tid));
      case Uncount(tid) => CountedPut(p.place, p.flights[tid].c, Gone);
      case PushBack(tid) => CountedPut(p.place, p.flights[tid].c, Idle);
    }
  }

  predicate Counts(where: Place) {
    where.Idle? || where.Out? || where.Held?
  }

  /** One connection goes somewhere else. */
  lemma CountedPut(place: map<nat, Place>, c: nat, where: Place)
    ensures |Counted(place[c := where])|
            == |Counted(place)| - (if c in place && Counts(place[c]) then 1 else 0) + if Counts(where) then 1 else 0
  {
    var rest := Counted(place) - {c};
    assert Counted(place[c := where]) == if Counts(where) then rest + {c} else rest;
    assert c in place && Counts(place[c]) ==> Counted(place) == rest + {c};
    assert !(c in place && Counts(place[c])) ==> Counted(place) == rest;
  }

  lemma OneService(p: Pool, l: Label)
    requires PoolInv(p) && Enabled(p, l) && !l.Scan? && !l.Settle?
    ensures forall c :: c in Apply(p, l).place ==> ServiceOk(Apply(p, l), c)
  {
    hide ListOk, NoneLost, Counted;
    assert l.tid in p.flights ==> FlightOk(p, l.tid);
    forall c | c in Apply(p, l).place
      ensures ServiceOk(Apply(p, l), c)
    {
      assert c in p.place ==> ServiceOk(p, c);
    }
  }

  lemma OneFlight(p: Pool, l: Label)
    requires PoolInv(p) && Enabled(p, l) && !l.Scan? && !l.Settle?
    ensures var p' := Apply(p, l);
            && (l.tid in p'.flights ==> FlightOk(p', l.tid))
            && forall c :: c in p'.place && (p'.place[c] == Held(l.tid) || p'.place[c] == New(l.tid)) ==>
                             l.tid in p'.flights && Mentions(p'.flights[l.tid], c)
  {
    hide ServiceOk, ListOk, Counted;
    assert l.tid in p.flights ==> FlightOk(p, l.tid);
  }

  lemma StepKeeps(p: Pool, l: Label)
    requires PoolInv(p) && Enabled(p, l)
    ensures PoolInv(Apply(p, l))
  {
    hide *;
    if l.Scan? {
      ScanKeeps(p, l);
    } else if l.Settle? {
      SettleKeeps(p, l);
    } else {
      OneOthers(p, l);
      OneList(p, l);
      OneCount(p, l);
      OneService(p, l);
      OneFlight(p, l);
      Assemble(p, Apply(p, l), l.tid);
    }
  }

  ghost predicate Execution(ls: seq<Label>, ps: seq<Pool>) {
    && |ps| == |ls| + 1 && ps[0] == Start(ps[0].maxAlive, ps[0].maxRequest)
    && forall k :: 0 <= k < |ls| ==> Enabled(ps[k], ls[k]) && ps[k + 1] == Apply(ps[k], ls[k])
  }

  lemma {:induction false} ExecutionInv(ls: seq<Label>, ps: seq<Pool>, k: nat)
    requires Execution(ls, ps) && k <= |ls|
    ensures PoolInv(ps[k])
  {
    hide Apply, PoolInv;
    if k == 0 {
      StartInv(ps[0].maxAlive, ps[0].maxRequest);
    } else {
      ExecutionInv(ls, ps, k - 1);
      StepKeeps(ps[k - 1], ls[k - 1]);
    }
  }

  /** Over every run: whenever no caller is inside getConnection or ReleasePtr, m_total is the number of
      idle connections plus the number handed out. */
  lemma TotalBalances(ls: seq<Label>, ps: seq<Pool>, k: nat)
    requires Execution(ls, ps) && k <= |ls| && ps[k].flights == map[]
    ensures ps[k].total == |ps[k].idle| + |HandedOut(ps[k].place)|
  {
    hide ServiceOk;
    ExecutionInv(ls, ps, k);
    var p := ps[k];
    var idle, out := (set c | c in p.idle), HandedOut(p.place);
    DistinctSize(p.idle, idle);
    assert Counted(p.place) == idle + out && idle * out == {};
    assert |idle + out| == |idle| + |out|;
  }

  /** Over every run: no connection is handed out more often than the request limit allows, or once; an
      idle one is in the list once and is never also handed out. */
  lemma ServiceIsBounded(ls: seq<Label>, ps: seq<Pool>, k: nat, c: nat)
    requires Execution(ls, ps) && k <= |ls| && c in ps[k].place
    ensures ServedBy(ps[k].served, c) <= if ps[k].maxRequest > 1 then ps[k].maxRequest else 1
    ensures c in ps[k].idle ==> ps[k].place[c] == Idle && ConnOf(ps[k].conns, c).request < ps[k].maxRequest
    ensures multiset(ps[k].idle)[c] <= 1
  {
    ExecutionInv(ls, ps, k);
    assert ServiceOk(ps[k], c);
    AtMostOnce(ps[k].idle, c);
  }

  lemma {:induction false} AtMostOnce(s: seq<nat>, c: nat)
    requires forall i, j :: 0 <= i < j < |s| ==> s[i] != s[j]
    ensures multiset(s)[c] <= 1
  {
    if s != [] {
      AtMostOnce(s[1..], c);
      assert s == [s[0]] + s[1..];
      assert s[0] !in s[1..];
    }
  }

  /** What a scan finds was open and not past its age when looked at, and everything in front of it was
      not: the first usable one of the list is reused. */
  lemma ReusedIsUsable(p: Pool, tid: nat, now: nat, up: nat -> bool)
    requires Enabled(p, Scan(tid, now, up))
    ensures var Scanned(invalid, got) := Apply(p, Scan(tid, now, up)).flights[tid];
            && (got.Some? ==> !Stale(ConnOf(p.conns, got.value), up(got.value), now, p.maxAlive)
                              && invalid + [got.value] <= p.idle)
            && (got.None? ==> invalid == p.idle)
            && (forall i :: 0 <= i < |invalid| ==> Stale(ConnOf(p.conns, invalid[i]), up(invalid[i]), now, p.maxAlive))
  {
    var n := Dropped(p.idle, p.conns, up, now, p.maxAlive);
    assert n < |p.idle| ==> p.idle[..n] + [p.idle[n]] == p.idle[..n + 1];
  }

  /** The two age tests differ at the boundary: a connection exactly as old as allowed is reused when it
      is idle, and closed when it is released. */
  lemma AgeBoundary(conn: Conn, now: nat, maxAlive: nat, maxRequest: nat)
    requires conn.request < maxRequest
    ensures (!Stale(conn, true, now, maxAlive) && Finished(conn, true, now, maxAlive, maxRequest)) <==> now == conn.created + maxAlive
  {
  }

  // ---------------------------------------------------------------- what each step brings about

  /** The locked scan takes the connections in front that are closed or too old, and the first other one, off
      the list; they are the caller's until it is through with them. */
  lemma ScanIs(p: Pool, tid: nat, now: nat, up: nat -> bool, n: nat)
    requires PoolInv(p) && Enabled(p, Scan(tid, now, up)) && n <= |p.idle|
    requires forall i :: 0 <= i < n ==> !up(p.idle[i]) || ConnOf(p.conns, p.idle[i]).created + p.maxAlive < now
    requires n < |p.idle| ==> up(p.idle[n]) && now <= ConnOf(p.conns, p.idle[n]).created + p.maxAlive
    ensures var p', taken := Apply(p, Scan(tid, now, up)), if n < |p.idle| then n + 1 else n;
            && p' == p.(idle := p.idle[taken..], place := p'.place,
                        flights := p.flights[tid := Scanned(p.idle[..n], if n < |p.idle| then Some(p.idle[n]) else None)])
            && (forall c :: c in p'.place <==> c in p.place)
            && (forall c :: c in p.place ==> p'.place[c] == if c in p.idle[..taken] then Held(tid) else p.place[c])
  {
    var m := Dropped(p.idle, p.conns, up, now, p.maxAlive);
    assert m == n;
    var taken := if n < |p.idle| then n + 1 else n;
    PlaceAllIs(p.place, p.idle[..taken], Held(tid));
    ScanTakes(p, taken);
  }

  /** The connections passed over are deleted and no longer counted; the one found is handed out, else the
      caller goes on to make one, gives up, or counts and hands out what it made. */
  lemma CheckoutIs(p: Pool, tid: nat, c: nat, now: nat)
    requires PoolInv(p)
    ensures Enabled(p, Settle(tid)) ==>
              var p', Scanned(invalid, got) := Apply(p, Settle(tid)), p.flights[tid];
              && p' == p.(total := p.total - |invalid|, place := p'.place, served := p'.served,
                          flights := if got.Some? then p.flights - {tid} else p.flights[tid := NeedNew])
              && (forall d :: d in p'.place <==> d in p.place)
              && (forall d :: d in p.place ==> p'.place[d] == if got == Some(d) then Out else if d in invalid then Gone else p.place[d])
              && p'.served == if got.Some? then p.served[got.value := ServedBy(p.served, got.value) + 1] else p.served
    ensures Enabled(p, Fail(tid)) ==> Apply(p, Fail(tid)) == p.(flights := p.flights - {tid})
    ensures Enabled(p, Construct(tid, c, now)) ==>
              Apply(p, Construct(tid, c, now))
              == p.(conns := p.conns[c := Conn(now, 0)], place := p.place[c := New(tid)], flights := p.flights[tid := Created(c)],
                    served := p.served[c := 0])
    ensures Enabled(p, Count(tid)) ==>
              var d := p.flights[tid].c;
              Apply(p, Count(tid)) == p.(total := p.total + 1, place := p.place[d := Out], flights := p.flights - {tid},
                                         served := p.served[d := ServedBy(p.served, d) + 1])
  {
    hide ListOk, NoneLost, ServiceOk;
    if Enabled(p, Settle(tid)) {
      var Scanned(invalid, got) := p.flights[tid];
      assert FlightOk(p, tid);
      PlaceAllIs(p.place, invalid, Gone);
    }
  }

  /** A connection returned has served one request more; it goes back to the end of the list exactly if it is
      still open, younger than allowed and below the request limit, else it is deleted and no longer counted. */
  lemma ReturnIs(p: Pool, tid: nat, c: nat, now: nat, alive: bool)
    ensures Enabled(p, Release(tid, c, now, alive)) ==>
              var conn := ConnOf(p.conns, c);
              var back := alive && now < conn.created + p.maxAlive && conn.request + 1 < p.maxRequest;
              Apply(p, Release(tid, c, now, alive))
              == p.(conns := p.conns[c := Conn(conn.created, conn.request + 1)], place := p.place[c := Held(tid)],
                    flights := p.flights[tid := if back then Returning(c) else Dying(c)])
    ensures Enabled(p, PushBack(tid)) ==>
              var d := p.flights[tid].c;
              Apply(p, PushBack(tid)) == p.(idle := p.idle + [d], place := p.place[d := Idle], flights := p.flights - {tid})
    ensures Enabled(p, Uncount(tid)) ==>
              var d := p.flights[tid].c;
              Apply(p, Uncount(tid)) == p.(total := p.total - 1, place := p.place[d := Gone], flights := p.flights - {tid})
  {
  }

  /** No caller waits for another: whoever is inside can take its next step, and whoever is not can come in. */
  lemma NobodyWaits(p: Pool, tid: nat)
    ensures exists l: Label :: l.tid == tid && Enabled(p, l)
  {
    var l :=
      if tid !in p.flights then Scan(tid, 0, c => true)
      else match p.flights[tid]
        case Scanned(_, _) => Settle(tid)
        case NeedNew => Fail(tid)
        case Created(_) => Count(tid)
        case Dying(_) => Uncount(tid)
        case Returning(_) => PushBack(tid);
    assert l.tid == tid && Enabled(p, l);
  }

  // ---------------------------------------------------------------- the two methods, one caller at a time

  class HttpConnection {
    const created: nat
    var request: nat

    constructor (now: nat)
      ensures created == now && request == 0
    {
      created, request := now, 0;
    }
  }

  /** How many connections at the front of the list cannot be used. */
  function Drops(conns: seq<HttpConnection>, up: HttpConnection -> bool, now: nat, maxAlive: nat): (n: nat)
    ensures n <= |conns|
    ensures forall i :: 0 <= i < n ==> !up(conns[i]) || conns[i].created + maxAlive < now
    ensures n < |conns| ==> up(conns[n]) && now <= conns[n].created + maxAlive
  {
    if conns == [] || (up(conns[0]) && now <= conns[0].created + maxAlive) then 0
    else 1 + Drops(conns[1..], up, now, maxAlive)
  }

  lemma {:induction false} DropsIs(conns: seq<HttpConnection>, up: HttpConnection -> bool, now: nat, maxAlive: nat, n: nat)
    requires n <= |conns| && forall i :: 0 <= i < n ==> !up(conns[i]) || conns[i].created + maxAlive < now
    requires n < |conns| ==> up(conns[n]) && now <= conns[n].created + maxAlive
    ensures Drops(conns, up, now, maxAlive) == n
  {
    if n > 0 { DropsIs(conns[1..], up, now, maxAlive, n - 1); }
  }

  class HttpConnectionPool {
    const maxAlive: nat
    const maxRequest: nat
    var conns: seq<HttpConnection>
    var total: int
    ghost var out: set<HttpConnection>  // handed out and not released

    ghost predicate Valid()
      reads this, conns
    {
      && total == |conns| + |out|
      && (forall i, j :: 0 <= i < j < |conns| ==> conns[i] != conns[j])
      && (forall i :: 0 <= i < |conns| ==> conns[i] !in out && conns[i].request < maxRequest)
    }

    constructor (maxAlive: nat, maxRequest: nat)
      ensures Valid() && conns == [] && out == {} && this.maxAlive == maxAlive && this.maxRequest == maxRequest
    {
      this.maxAlive, this.maxRequest := maxAlive, maxRequest;
      conns, total, out := [], 0, {};
    }

    /** getConnection: the first usable idle connection, else a new one, else none; what is passed over is
        deleted and no longer counted. */
    method GetConnection(now: nat, up: HttpConnection -> bool, reachable: bool, later: nat) returns (ptr: HttpConnection?)
      requires Valid()
      modifies this
      ensures Valid()
      ensures var n := Drops(old(conns), up, now, maxAlive);
              if n < |old(conns)| then
                ptr == old(conns)[n] && conns == old(conns)[n + 1..] && total == old(total) - n && out == old(out) + {ptr}
              else
                && conns == [] && total == old(total) - n + (if reachable then 1 else 0)
                && (ptr == null <==> !reachable)
                && (reachable ==> fresh(ptr) && ptr.created == later && ptr.request == 0 && out == old(out) + {ptr})
                && (!reachable ==> out == old(out))
    {
      var invalidConns;
      ptr, invalidConns := ScanIdle(now, up);
      total := total - invalidConns;
      if ptr == null {
        if !reachable {
          return;
        }
        ptr := new HttpConnection(later);
        total := total + 1;
      }
      out := out + {ptr};
    }

    /** The locked loop: the first usable idle connection, and how many are passed over. */
    method ScanIdle(now: nat, up: HttpConnection -> bool) returns (ptr: HttpConnection?, invalidConns: nat)
      modifies this`conns
      ensures invalidConns == Drops(old(conns), up, now, maxAlive)
      ensures if invalidConns < |old(conns)| then ptr == old(conns)[invalidConns] && conns == old(conns)[invalidConns + 1..]
              else ptr == null && conns == []
    {
      hide Drops;
      ptr, invalidConns := null, 0;
      ghost var was := conns;
      while |conns| > 0
        invariant invalidConns <= |was| && conns == was[invalidConns..]
        invariant forall i :: 0 <= i < invalidConns ==> !up(was[i]) || was[i].created + maxAlive < now
        invariant ptr == null
        decreases |conns|
      {
        var conn := conns[0];
        assert conn == was[invalidConns];
        conns := conns[1..];
        if !up(conn) {
          invalidConns := invalidConns + 1;
          continue;
        }
        if conn.created + maxAlive < now {
          invalidConns := invalidConns + 1;
          continue;
        }
        ptr := conn;
        break;
      }
      DropsIs(was, up, now, maxAlive, invalidConns);
    }

    /** ReleasePtr: counts the request; back into the list, or deleted. */
    method ReleasePtr(ptr: HttpConnection, now: nat, up: bool)
      requires Valid() && ptr in out
      modifies this, ptr
      ensures Valid() && out == old(out) - {ptr} && ptr.request == old(ptr.request) + 1
      ensures if up && now < ptr.created + maxAlive && ptr.request < maxRequest
              then conns == old(conns) + [ptr] && total == old(total)
              else conns == old(conns) && total == old(total) - 1
    {
      ptr.request := ptr.request + 1;
      out := out - {ptr};
      if !up || ptr.created + maxAlive <= now || ptr.request >= maxRequest {
        total := total - 1;
        return;
      }
      conns := conns + [ptr];
    }
  }
}
