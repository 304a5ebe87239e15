/** Bounded pool of shared HTTP clients with use counts and eviction of the least recently used
    idle client.  Every operation holds the pool's lock from start to end, closing included, so
    an operation is one atomic step.  Closing a client does not fail here. */
module HttpClientPool {

  const DEFAULT_MAX_CLIENTS := 64

  datatype Key = Key(purpose: string, baseUrl: string)

  /** `client` names the client object, in order of creation. */
  datatype Entry = Entry(key: Key, client: nat, lastUsed: int, inUse: nat)

  /** `entries` is the dictionary in insertion order; `closedClients` is a history variable. */
  datatype Pool = Pool(
    maxClients: int, entries: seq<Entry>,
    created: nat, closed: nat, rejections: nat, closedClients: set<nat>)

  /** `max_clients or default`. */
  function Empty(maxClients: int): Pool {
    Pool(if maxClients == 0 then DEFAULT_MAX_CLIENTS else maxClients, [], 0, 0, 0, {})
  }

  function IndexOf(es: seq<Entry>, key: Key): (i: nat)
    ensures i <= |es|
    ensures i < |es| ==> es[i].key == key
    ensures forall j :: 0 <= j < i ==> es[j].key != key
  {
    if es == [] || es[0].key == key then 0 else 1 + IndexOf(es[1..], key)
  }

  /** The oldest of the least recently used idle entries; `|es|` if every entry is in use. */
  function LruIdle(es: seq<Entry>): (i: nat)
    ensures i <= |es|
    ensures i < |es| ==> es[i].inUse == 0
    ensures i < |es| ==> forall j :: 0 <= j < |es| && es[j].inUse == 0 ==>
              es[i].lastUsed < es[j].lastUsed || (es[i].lastUsed == es[j].lastUsed && i <= j)
    ensures i == |es| ==> forall j :: 0 <= j < |es| ==> es[j].inUse > 0
  {
    if es == [] then 0 else
    var n := |es| - 1;
    var i := LruIdle(es[..n]);
    if i == n then (if es[n].inUse == 0 then n else n + 1)
    else if es[n].inUse == 0 && es[n].lastUsed < es[i].lastUsed then n else i
  }

  function Drop(es: seq<Entry>, i: nat): seq<Entry>
    requires i < |es|
  {
    es[..i] + es[i + 1..]
  }

  function Evicted(p: Pool, i: nat): Pool
    requires i < |p.entries|
  {
    p.(entries := Drop(p.entries, i), closed := p.closed + 1,
       closedClients := p.closedClients + {p.entries[i].client})
  }

  /** The eviction loop of `acquire`: make room for one more entry, or find everything in use. */
  function MakeRoom(p: Pool): Pool
    decreases |p.entries|
  {
    var i := LruIdle(p.entries);
    if |p.entries| < p.maxClients || i == |p.entries| then p else MakeRoom(Evicted(p, i))
  }

  function Added(p: Pool, key: Key, now: int): Pool {
    p.(entries := p.entries + [Entry(key, p.created, now, 1)], created := p.created + 1)
  }

  /** The entry that serves the caller is the last one, or the one already there. */
  function Acquire(p: Pool, key: Key, now: int): Pool {
    var i := IndexOf(p.entries, key);
    if i < |p.entries| then
      p.(entries := p.entries[i := p.entries[i].(inUse := p.entries[i].inUse + 1, lastUsed := now)])
    else
      var roomy := MakeRoom(p);
      if |roomy.entries| >= p.maxClients then roomy.(rejections := roomy.rejections + 1)
      else Added(roomy, key, now)
  }

  function Release(p: Pool, key: Key, now: int): Pool {
    var i := IndexOf(p.entries, key);
    if i == |p.entries| then p else
    var e := p.entries[i];
    p.(entries := p.entries[i := e.(inUse := if e.inUse > 0 then e.inUse - 1 else 0, lastUsed := now)])
  }

  ghost function Clients(es: seq<Entry>): set<nat> { set e | e in es :: e.client }

  ghost function Close(p: Pool): Pool {
    p.(entries := [], closed := p.closed + |p.entries|, closedClients := p.closedClients + Clients(p.entries))
  }

  // ---------------------------------------------------------------- runs

  datatype Lease = Lease(key: Key, client: nat)

  /** The pool and the leases that are out. */
  datatype State = State(pool: Pool, leases: multiset<Lease>)

  datatype Event =
    | Take(key: Key, now: int)
    | Give(lease: Lease, now: int)
    | CloseAll

  predicate Served(p: Pool, key: Key) { IndexOf(p.entries, key) < |p.entries| }

  function LeaseOf(p: Pool, key: Key): Lease
    requires Served(p, key)
  {
    Lease(key, p.entries[IndexOf(p.entries, key)].client)
  }

  /** A lease is given back once, by its holder. */
  ghost function Step(s: State, e: Event): State {
    match e
    case Take(key, now) =>
      var p := Acquire(s.pool, key, now);
      State(p, if Served(p, key) then s.leases + multiset{LeaseOf(p, key)} else s.leases)
    case Give(lease, now) =>
      if lease in s.leases then State(Release(s.pool, lease.key, now), s.leases - multiset{lease}) else s
    case CloseAll => State(Close(s.pool), s.leases)
  }

  ghost function Run(maxClients: int, events: seq<Event>): State {
    if events == [] then State(Empty(maxClients), multiset{})
    else Step(Run(maxClients, events[..|events| - 1]), events[|events| - 1])
  }

  /** The pool is shut down only while no lease is out. */
  ghost predicate Calm(maxClients: int, events: seq<Event>) {
    events == [] ||
    var before := events[..|events| - 1];
    Calm(maxClients, before) &&
    (events[|events| - 1].CloseAll? ==> Run(maxClients, before).leases == multiset{})
  }

  ghost predicate KeysDistinct(es: seq<Entry>) {
    forall i, j :: 0 <= i < j < |es| ==> es[i].key != es[j].key
  }

  ghost predicate ClientsDistinct(es: seq<Entry>) {
    forall i, j :: 0 <= i < j < |es| ==> es[i].client != es[j].client
  }

  function LeaseFor(e: Entry): Lease { Lease(e.key, e.client) }

  ghost predicate OnEntry(es: seq<Entry>, l: Lease) {
    exists i :: 0 <= i < |es| && LeaseFor(es[i]) == l
  }

  /** Use counts are the leases out, and every lease is on a live entry. */
  ghost predicate Counted(es: seq<Entry>, leases: multiset<Lease>) {
    && (forall i :: 0 <= i < |es| ==> es[i].inUse == leases[LeaseFor(es[i])])
    && (forall l :: l in leases ==> OnEntry(es, l))
  }

  /** Live clients are open, each entry has its own, and the counters add up. */
  ghost predicate PoolOk(p: Pool) {
    && KeysDistinct(p.entries) && ClientsDistinct(p.entries)
    && p.created - p.closed == |p.entries|
    && (|p.entries| == 0 || |p.entries| <= p.maxClients)
    && (forall i :: 0 <= i < |p.entries| ==> p.entries[i].client < p.created && p.entries[i].client !in p.closedClients)
    && (forall c :: c in p.closedClients ==> c < p.created)
  }

  ghost predicate Inv(s: State) { PoolOk(s.pool) && Counted(s.pool.entries, s.leases) }

  lemma EvictedOk(p: Pool, i: nat)
    requires PoolOk(p) && i < |p.entries|
    ensures PoolOk(Evicted(p, i))
  {
    var es := Evicted(p, i).entries;
    assert forall j :: 0 <= j < |es| ==> es[j] == p.entries[if j < i then j else j + 1];
  }

  lemma EvictedCounted(es: seq<Entry>, leases: multiset<Lease>, i: nat)
    requires Counted(es, leases) && i < |es| && es[i].inUse == 0
    ensures Counted(Drop(es, i), leases)
  {
    var rest := Drop(es, i);
    assert forall j :: 0 <= j < |rest| ==> rest[j] == es[if j < i then j else j + 1];
    forall l | l in leases ensures OnEntry(rest, l) {
      var j :| 0 <= j < |es| && LeaseFor(es[j]) == l;
      assert LeaseFor(rest[if j < i then j else j - 1]) == l;
    }
  }

  ghost predicate AllInUse(es: seq<Entry>) { forall i :: 0 <= i < |es| ==> es[i].inUse > 0 }

  lemma {:induction false} MakeRoomKeeps(p: Pool, leases: multiset<Lease>)
    requires PoolOk(p) && Counted(p.entries, leases)
    ensures var q := MakeRoom(p);
            && PoolOk(q) && Counted(q.entries, leases)
            && q.maxClients == p.maxClients && q.created == p.created && q.rejections == p.rejections
            && (|q.entries| < p.maxClients || AllInUse(q.entries))
    decreases |p.entries|
  {
    var i := LruIdle(p.entries);
    if !(|p.entries| < p.maxClients || i == |p.entries|) {
      EvictedOk(p, i);
      EvictedCounted(p.entries, leases, i);
      MakeRoomKeeps(Evicted(p, i), leases);
    }
  }

  lemma {:induction false} MakeRoomUnserved(p: Pool, key: Key)
    requires !Served(p, key)
    ensures !Served(MakeRoom(p), key)
    decreases |p.entries|
  {
    var i := LruIdle(p.entries);
    if !(|p.entries| < p.maxClients || i == |p.entries|) {
      EvictedUnserved(p, i, key);
      MakeRoomUnserved(Evicted(p, i), key);
    }
  }

  lemma EvictedUnserved(p: Pool, i: nat, key: Key)
    requires !Served(p, key) && i < |p.entries|
    ensures !Served(Evicted(p, i), key)
  {
    var es := Evicted(p, i).entries;
    assert forall j :: 0 <= j < |es| ==> es[j] == p.entries[if j < i then j else j + 1];
  }

  lemma CountedAt(es: seq<Entry>, leases: multiset<Lease>, i: nat, now: int, delta: int)
    requires KeysDistinct(es) && Counted(es, leases) && i < |es|
    requires delta == 1 || (delta == -1 && es[i].inUse > 0)
    ensures var l := LeaseFor(es[i]);
            Counted(es[i := es[i].(inUse := es[i].inUse + delta, lastUsed := now)],
                    if delta == 1 then leases + multiset{l} else leases - multiset{l})
  {
    var l := LeaseFor(es[i]);
    var es' := es[i := es[i].(inUse := es[i].inUse + delta, lastUsed := now)];
    assert forall j :: 0 <= j < |es| ==> LeaseFor(es'[j]) == LeaseFor(es[j]);
    forall m | m in (if delta == 1 then leases + multiset{l} else leases - multiset{l}) ensures OnEntry(es', m) {
      if m == l {
        assert LeaseFor(es'[i]) == m;
      } else {
        assert OnEntry(es, m);
        var j :| 0 <= j < |es| && LeaseFor(es[j]) == m;
        assert LeaseFor(es'[j]) == m;
      }
    }
  }

  lemma TouchedOk(p: Pool, i: nat, inUse: nat, now: int)
    requires PoolOk(p) && i < |p.entries|
    ensures PoolOk(p.(entries := p.entries[i := p.entries[i].(inUse := inUse, lastUsed := now)]))
  {}

  lemma AddedCounted(es: seq<Entry>, leases: multiset<Lease>, e: Entry)
    requires Counted(es, leases) && e.inUse == 1 && !OnEntry(es, LeaseFor(e))
    ensures Counted(es + [e], leases + multiset{LeaseFor(e)})
  {
    var es', l := es + [e], LeaseFor(e);
    assert l !in leases;
    forall m | m in leases + multiset{l} ensures OnEntry(es', m) {
      if m == l {
        assert LeaseFor(es'[|es|]) == m;
      } else {
        assert OnEntry(es, m);
        var j :| 0 <= j < |es| && LeaseFor(es[j]) == m;
        assert LeaseFor(es'[j]) == m;
      }
    }
    forall j | 0 <= j < |es| ensures LeaseFor(es[j]) != l {}
  }

  lemma AddedServed(p: Pool, key: Key, now: int)
    requires !Served(p, key)
    ensures var q := Added(p, key, now); Served(q, key) && LeaseOf(q, key) == Lease(key, p.created)
  {
    var es := Added(p, key, now).entries;
    assert es[|p.entries|].key == key;
    assert forall j :: 0 <= j < |p.entries| ==> es[j] == p.entries[j];
  }

  lemma AddedKeeps(p: Pool, leases: multiset<Lease>, key: Key, now: int)
    requires PoolOk(p) && Counted(p.entries, leases) && !Served(p, key) && |p.entries| < p.maxClients
    ensures var q := Added(p, key, now); PoolOk(q) && Counted(q.entries, leases + multiset{Lease(key, p.created)})
  {
    AddedCounted(p.entries, leases, Entry(key, p.created, now, 1));
  }

  lemma TakeKeeps(s: State, key: Key, now: int)
    requires Inv(s)
    ensures Inv(Step(s, Take(key, now)))
  {
    var p := s.pool;
    var i := IndexOf(p.entries, key);
    if i < |p.entries| {
      TouchedOk(p, i, p.entries[i].inUse + 1, now);
      CountedAt(p.entries, s.leases, i, now, 1);
      SharedServed(p, key, now);
    } else {
      MakeRoomKeeps(p, s.leases);
      MakeRoomUnserved(p, key);
      var roomy := MakeRoom(p);
      if |roomy.entries| < p.maxClients {
        AddedKeeps(roomy, s.leases, key, now);
        AddedServed(roomy, key, now);
      }
    }
  }

  lemma SharedServed(p: Pool, key: Key, now: int)
    requires Served(p, key)
    ensures Served(Acquire(p, key, now), key) && LeaseOf(Acquire(p, key, now), key) == LeaseOf(p, key)
  {
    var i, es := IndexOf(p.entries, key), Acquire(p, key, now).entries;
    assert forall j :: 0 <= j < |es| ==> es[j].key == p.entries[j].key;
    assert IndexOf(es, key) == i;
  }

  lemma HeldLease(s: State, lease: Lease)
    requires Inv(s) && lease in s.leases
    ensures Served(s.pool, lease.key) && LeaseOf(s.pool, lease.key) == lease
    ensures s.pool.entries[IndexOf(s.pool.entries, lease.key)].inUse > 0
  {
    assert OnEntry(s.pool.entries, lease);
    var j :| 0 <= j < |s.pool.entries| && LeaseFor(s.pool.entries[j]) == lease;
    assert IndexOf(s.pool.entries, lease.key) == j;
  }

  lemma GiveKeeps(s: State, lease: Lease, now: int)
    requires Inv(s)
    ensures Inv(Step(s, Give(lease, now)))
  {
    if lease in s.leases {
      HeldLease(s, lease);
      var j := IndexOf(s.pool.entries, lease.key);
      var e := s.pool.entries[j];
      assert Release(s.pool, lease.key, now) ==
             s.pool.(entries := s.pool.entries[j := e.(inUse := e.inUse - 1, lastUsed := now)]);
      TouchedOk(s.pool, j, e.inUse - 1, now);
      CountedAt(s.pool.entries, s.leases, j, now, -1);
    }
  }

  lemma ClosedClientsKnown(s: State)
    requires Inv(s)
    ensures forall c :: c in Clients(s.pool.entries) ==> c < s.pool.created
  {
    forall e | e in s.pool.entries ensures e.client < s.pool.created {
      var j :| 0 <= j < |s.pool.entries| && s.pool.entries[j] == e;
    }
  }

  lemma {:induction false} RunKeeps(maxClients: int, events: seq<Event>)
    requires Calm(maxClients, events)
    ensures Inv(Run(maxClients, events))
  {
    if events != [] {
      var before := events[..|events| - 1];
      RunKeeps(maxClients, before);
      var s := Run(maxClients, before);
      match events[|events| - 1]
      case Take(key, now) => TakeKeeps(s, key, now);
      case Give(lease, now) => GiveKeeps(s, lease, now);
      case CloseAll => ClosedClientsKnown(s);
    }
  }

  lemma {:induction false} MakeRoomBound(p: Pool)
    ensures MakeRoom(p).maxClients == p.maxClients
    decreases |p.entries|
  {
    var i := LruIdle(p.entries);
    if !(|p.entries| < p.maxClients || i == |p.entries|) { MakeRoomBound(Evicted(p, i)); }
  }

  lemma StepBound(s: State, e: Event)
    ensures Step(s, e).pool.maxClients == s.pool.maxClients
  {
    if e.Take? { MakeRoomBound(s.pool); }
  }

  lemma {:induction false} BoundFixed(maxClients: int, events: seq<Event>)
    ensures Run(maxClients, events).pool.maxClients == if maxClients == 0 then 64 else maxClients
  {
    if events != [] {
      BoundFixed(maxClients, events[..|events| - 1]);
      StepBound(Run(maxClients, events[..|events| - 1]), events[|events| - 1]);
    }
  }

  /** In every calm run: each entry's count is its leases out, no leased client was ever closed,
      the bound holds, and clients created minus clients closed is the number of entries. */
  lemma PoolAccounts(maxClients: int, events: seq<Event>)
    requires Calm(maxClients, events)
    ensures var s := Run(maxClients, events); var p := s.pool;
            && (forall i :: 0 <= i < |p.entries| ==> p.entries[i].inUse == s.leases[LeaseFor(p.entries[i])])
            && (forall l :: l in s.leases ==> l.client !in p.closedClients && Served(p, l.key) && LeaseOf(p, l.key) == l)
            && (p.entries == [] || |p.entries| <= if maxClients == 0 then 64 else maxClients)
            && p.created == p.closed + |p.entries|
  {
    BoundFixed(maxClients, events);
    RunKeeps(maxClients, events);
    var s := Run(maxClients, events);
    forall l | l in s.leases
      ensures l.client !in s.pool.closedClients && Served(s.pool, l.key) && LeaseOf(s.pool, l.key) == l {
      HeldLease(s, l);
    }
  }

  lemma MakeRoomFails(p: Pool)
    requires PoolOk(p)
    ensures |MakeRoom(p).entries| >= p.maxClients <==> |p.entries| >= p.maxClients && AllInUse(p.entries)
  {
    var i := LruIdle(p.entries);
    if |p.entries| >= p.maxClients && i < |p.entries| {
      assert MakeRoom(p) == MakeRoom(Evicted(p, i)) == Evicted(p, i);
    }
  }

  /** What `acquire` does to a pool that adds up. */
  lemma TakeOutcome(s: State, key: Key, now: int)
    requires Inv(s)
    ensures var p := Acquire(s.pool, key, now);
            && (!Served(p, key) <==>
                  !Served(s.pool, key) && |s.pool.entries| >= s.pool.maxClients && AllInUse(s.pool.entries))
            && p.rejections == s.pool.rejections + (if Served(p, key) then 0 else 1)
            && (Served(s.pool, key) ==> LeaseOf(p, key) == LeaseOf(s.pool, key))
  {
    if Served(s.pool, key) {
      SharedServed(s.pool, key, now);
    } else {
      MakeRoomKeeps(s.pool, s.leases);
      MakeRoomFails(s.pool);
      MakeRoomUnserved(s.pool, key);
      if |MakeRoom(s.pool).entries| < s.pool.maxClients { AddedServed(MakeRoom(s.pool), key, now); }
    }
  }

  /** `acquire` refuses exactly when the key has no entry, the pool is full and every entry is
      leased; otherwise the caller gets an open client, shared if the key was already there. */
  lemma RejectedExactlyWhenAllLeased(maxClients: int, events: seq<Event>, key: Key, now: int)
    requires Calm(maxClients, events)
    ensures var s := Run(maxClients, events); var s' := Step(s, Take(key, now));
            && (!Served(s'.pool, key) <==>
                  && !Served(s.pool, key) && |s.pool.entries| >= s.pool.maxClients
                  && forall i :: 0 <= i < |s.pool.entries| ==> LeaseFor(s.pool.entries[i]) in s.leases)
            && s'.pool.rejections == s.pool.rejections + (if Served(s'.pool, key) then 0 else 1)
            && (Served(s.pool, key) ==> LeaseOf(s'.pool, key) == LeaseOf(s.pool, key))
            && (Served(s'.pool, key) ==> LeaseOf(s'.pool, key).client !in s'.pool.closedClients)
  {
    RunKeeps(maxClients, events);
    var s := Run(maxClients, events);
    TakeKeeps(s, key, now);
    TakeOutcome(s, key, now);
  }

  // Calmness is needed: `release` works by key, so a lease taken before a shutdown can give back
  // the use of a client created after it.

  lemma TakeFromEmpty(s: State, key: Key, now: int)
    requires s.pool.entries == [] && s.pool.maxClients >= 1
    ensures Step(s, Take(key, now)) ==
              State(Added(s.pool, key, now), s.leases + multiset{Lease(key, s.pool.created)})
  {
    assert MakeRoom(s.pool) == s.pool;
    assert Acquire(s.pool, key, now) == Added(s.pool, key, now);
    AddedServed(s.pool, key, now);
  }

  lemma ShutdownWhileLeasedBreaksCounts(maxClients: int, key: Key)
    requires maxClients >= 1
    ensures var s := Step(Step(Step(Step(Run(maxClients, []), Take(key, 0)), CloseAll), Take(key, 1)), Give(Lease(key, 0), 2));
            && Lease(key, 1) in s.leases && Served(s.pool, key) && LeaseOf(s.pool, key) == Lease(key, 1)
            && s.pool.entries[IndexOf(s.pool.entries, key)].inUse == 0
  {
    TakeFromEmpty(Run(maxClients, []), key, 0);
    var closed := Step(Step(Run(maxClients, []), Take(key, 0)), CloseAll);
    TakeFromEmpty(closed, key, 1);
    var s3 := Step(closed, Take(key, 1));
    assert s3.pool.entries == [Entry(key, 1, 1, 1)];
    var s := Step(s3, Give(Lease(key, 0), 2));
    assert s.pool.entries == [Entry(key, 1, 2, 0)];
  }

  /** Use counts are the leases out, and no leased client is closed. */
  ghost predicate Accounted(s: State) {
    && (forall i :: 0 <= i < |s.pool.entries| ==> s.pool.entries[i].inUse == s.leases[LeaseFor(s.pool.entries[i])])
    && (forall l :: l in s.leases ==> l.client !in s.pool.closedClients)
  }

  ghost predicate AlwaysAccounted(maxClients: int, events: seq<Event>) {
    forall k :: 0 <= k <= |events| ==> Accounted(Run(maxClients, events[..k]))
  }

  lemma AlwaysAccountedStep(maxClients: int, events: seq<Event>)
    requires events != []
    ensures AlwaysAccounted(maxClients, events) <==>
            AlwaysAccounted(maxClients, events[..|events| - 1]) && Accounted(Run(maxClients, events))
  {
    var before := events[..|events| - 1];
    assert events[..|events|] == events;
    forall k | 0 <= k <= |before| ensures before[..k] == events[..k] {}
  }

  lemma ShutdownClosesLeased(s: State)
    requires Inv(s) && s.leases != multiset{}
    ensures !Accounted(Step(s, CloseAll))
  {
    var l :| l in s.leases;
    HeldLease(s, l);
    var e := s.pool.entries[IndexOf(s.pool.entries, l.key)];
    assert e in s.pool.entries && e.client == l.client;
    assert l.client in Clients(s.pool.entries);
  }

  /** The accounts hold at every moment of a run exactly when the pool is never shut down while a
      lease is out. */
  lemma {:induction false} AccountedExactlyWhenCalm(maxClients: int, events: seq<Event>)
    ensures AlwaysAccounted(maxClients, events) <==> Calm(maxClients, events)
  {
    if events == [] {
      assert events[..0] == [];
    } else {
      var before, last := events[..|events| - 1], events[|events| - 1];
      AccountedExactlyWhenCalm(maxClients, before);
      AlwaysAccountedStep(maxClients, events);
      if Calm(maxClients, events) {
        PoolAccounts(maxClients, events);
      } else if Calm(maxClients, before) {
        RunKeeps(maxClients, before);
        ShutdownClosesLeased(Run(maxClients, before));
      }
    }
  }

  // ---------------------------------------------------------------- objects

  class PooledClient {
    const client: nat
    var lastUsedAt: int
    var inUse: nat

    constructor (client: nat, now: int, inUse: nat)
      ensures this.client == client && lastUsedAt == now && this.inUse == inUse
    {
      this.client, this.lastUsedAt, this.inUse := client, now, inUse;
    }
  }

  class ExternalHttpClientPool {
    const maxClients: int
    var keys: seq<Key>
    var slots: seq<PooledClient>
    var clientsCreated: nat
    var clientsClosed: nat
    var capacityRejections: nat
    ghost var closedClients: set<nat>

    ghost predicate Valid()
      reads this
    {
      |keys| == |slots| && forall i, j :: 0 <= i < j < |slots| ==> slots[i] != slots[j]
    }

    ghost function EntryAt(i: nat): Entry
      requires Valid() && i < |keys|
      reads this, slots
    {
      Entry(keys[i], slots[i].client, slots[i].lastUsedAt, slots[i].inUse)
    }

    ghost function Entries(): seq<Entry>
      requires Valid()
      reads this, slots
    {
      seq(|keys|, i requires 0 <= i < |keys| reads this, slots requires Valid() => EntryAt(i))
    }

    ghost function Abs(): Pool
      requires Valid()
      reads this, slots
    {
      Pool(maxClients, Entries(), clientsCreated, clientsClosed, capacityRejections, closedClients)
    }

    constructor (maxClients: int)
      ensures Valid() && Abs() == Empty(maxClients)
    {
      this.maxClients := if maxClients == 0 then DEFAULT_MAX_CLIENTS else maxClients;
      keys, slots := [], [];
      clientsCreated, clientsClosed, capacityRejections, closedClients := 0, 0, 0, {};
    }

    method Find(key: Key) returns (i: nat)
      requires Valid()
      ensures i == IndexOf(Entries(), key)
    {
      i := 0;
      while i < |keys| && keys[i] != key
        invariant i <= |keys| && forall j :: 0 <= j < i ==> keys[j] != key
      {
        i := i + 1;
      }
      assert forall j :: 0 <= j < |keys| ==> Entries()[j].key == keys[j];
    }

    method LeastRecentlyUsedIdle() returns (best: nat)
      requires Valid()
      ensures best == LruIdle(Entries())
    {
      best := |slots|;
      var i := 0;
      while i < |slots|
        invariant i <= |slots|
        invariant var b := LruIdle(Entries()[..i]); best == if b == i then |slots| else b
      {
        assert Entries()[..i + 1][..i] == Entries()[..i];
        assert Entries()[..i + 1][i] == EntryAt(i);
        if slots[i].inUse == 0 && (best == |slots| || slots[i].lastUsedAt < slots[best].lastUsedAt) {
          best := i;
        }
        i := i + 1;
      }
      assert Entries()[..i] == Entries();
    }

    method EvictIdleLru() returns (evicted: bool)
      requires Valid()
      modifies this
      ensures Valid() && (forall c :: c in slots ==> c in old(slots))
      ensures var p := old(Abs()); var i := LruIdle(p.entries);
              evicted == (i < |p.entries|) && Abs() == if evicted then Evicted(p, i) else p
    {
      var i := LeastRecentlyUsedIdle();
      evicted := i < |slots|;
      if evicted {
        RemoveAt(i);
      }
    }

    method RemoveAt(i: nat)
      requires Valid() && i < |slots|
      modifies this
      ensures Valid() && (forall c :: c in slots ==> c in old(slots))
      ensures Abs() == Evicted(old(Abs()), i)
    {
      closedClients := closedClients + {slots[i].client};
      keys, slots := keys[..i] + keys[i + 1..], slots[..i] + slots[i + 1..];
      clientsClosed := clientsClosed + 1;
      assert Entries() == Drop(old(Entries()), i);
    }

    method Append(key: Key, now: int) returns (client: nat)
      requires Valid()
      modifies this
      ensures Valid() && |slots| == |old(slots)| + 1 && fresh(slots[|old(slots)|]) && old(slots) == slots[..|old(slots)|]
      ensures client == old(clientsCreated) && Abs() == Added(old(Abs()), key, now)
    {
      client := clientsCreated;
      var slot := new PooledClient(client, now, 1);
      keys, slots := keys + [key], slots + [slot];
      clientsCreated := clientsCreated + 1;
      assert Entries() == old(Added(Abs(), key, now)).entries;
    }

    method Touch(i: nat, inUse: nat, now: int)
      requires Valid() && i < |slots|
      modifies slots
      ensures Valid()
      ensures Abs() == old(Abs()).(entries := old(Entries())[i := old(EntryAt(i)).(inUse := inUse, lastUsed := now)])
    {
      slots[i].inUse := inUse;
      slots[i].lastUsedAt := now;
      assert Entries() == old(Entries())[i := old(EntryAt(i)).(inUse := inUse, lastUsed := now)];
    }

    /** The eviction loop; false where it finds nothing idle to evict. */
    method MakeSpace() returns (ok: bool)
      requires Valid()
      modifies this
      ensures Valid() && (forall c :: c in slots ==> c in old(slots))
      ensures Abs() == MakeRoom(old(Abs())) && ok == (|Entries()| < maxClients)
    {
      ok := true;
      while ok && |slots| >= maxClients
        invariant Valid() && (forall c :: c in slots ==> c in old(slots))
        invariant MakeRoom(Abs()) == MakeRoom(old(Abs()))
        invariant !ok ==> |slots| >= maxClients && LruIdle(Entries()) == |slots|
        decreases |slots|, ok
      {
        ok := EvictIdleLru();
      }
    }

    method Share(i: nat, now: int) returns (client: nat)
      requires Valid() && i < |slots| && i == IndexOf(Entries(), keys[i])
      modifies slots
      ensures Valid() && Abs() == Acquire(old(Abs()), keys[i], now)
      ensures Served(Abs(), keys[i]) && client == LeaseOf(Abs(), keys[i]).client
    {
      ghost var before := Abs();
      Touch(i, slots[i].inUse + 1, now);
      SharedServed(before, keys[i], now);
      client := slots[i].client;
    }

    method Create(key: Key, now: int) returns (ok: bool, client: nat)
      requires Valid() && !Served(Abs(), key)
      modifies this
      ensures Valid() && Abs() == Acquire(old(Abs()), key, now)
      ensures ok == Served(Abs(), key) && (ok ==> client == LeaseOf(Abs(), key).client)
    {
      client := 0;
      MakeRoomUnserved(Abs(), key);
      ok := MakeSpace();
      if ok {
        ghost var roomy := Abs();
        client := Append(key, now);
        AddedServed(roomy, key, now);
      } else {
        capacityRejections := capacityRejections + 1;
      }
    }

    /** `ok` is false where the source raises for exhausted capacity. */
    method AcquireClient(purpose: string, baseUrl: string, now: int) returns (ok: bool, client: nat)
      requires Valid()
      modifies this, slots
      ensures Valid()
      ensures Abs() == Acquire(old(Abs()), Key(purpose, baseUrl), now)
      ensures ok == Served(Abs(), Key(purpose, baseUrl))
      ensures ok ==> client == LeaseOf(Abs(), Key(purpose, baseUrl)).client
    {
      var i := Find(Key(purpose, baseUrl));
      if i < |keys| {
        ok := true;
        client := Share(i, now);
      } else {
        ok, client := Create(Key(purpose, baseUrl), now);
      }
    }

    method ReleaseClient(key: Key, now: int)
      requires Valid()
      modifies slots
      ensures Valid() && Abs() == Release(old(Abs()), key, now)
    {
      var i := Find(key);
      if i == |keys| {
        return;
      }
      Touch(i, if slots[i].inUse > 0 then slots[i].inUse - 1 else 0, now);
    }

    method Aclose()
      requires Valid()
      modifies this
      ensures Valid() && Abs() == Close(old(Abs()))
    {
      closedClients := closedClients + Clients(Entries());
      clientsClosed := clientsClosed + |slots|;
      keys, slots := [], [];
    }
  }
}
