/** What "least recently used" means in the client pool, in terms of the leases taken and given back:
    the pool knows for each client when its key was last leased or released, and evicts the idle
    client for which that was longest ago, and only when it must.
 */
module HttpClientPoolRecency {
  import opened Wrappers
  import opened HttpClientPool

  /** When a lease of `key` was last taken or given back in the run. */
  ghost function LastUse(maxClients: int, events: seq<Event>, key: Key): Option<int> {
    if events == [] then None else
    var before, e := events[..|events| - 1], events[|events| - 1];
    match e
    case Take(k, now) =>
      if k == key && Served(Run(maxClients, events).pool, key) then Some(now) else LastUse(maxClients, before, key)
    case Give(lease, now) =>
      if lease.key == key && lease in Run(maxClients, before).leases then Some(now) else LastUse(maxClients, before, key)
    case CloseAll => LastUse(maxClients, before, key)
  }

  ghost predicate UseKnown(maxClients: int, events: seq<Event>, e: Entry) {
    LastUse(maxClients, events, e.key) == Some(e.lastUsed)
  }

  ghost predicate UsesKnown(maxClients: int, events: seq<Event>, es: seq<Entry>) {
    forall i :: 0 <= i < |es| ==> UseKnown(maxClients, events, es[i])
  }

  // ---------------------------------------------------------------- one acquisition

  /** What `acquire` leaves of the entries: all of them, or all but the first idle one of those used
      longest ago. */
  function Kept(p: Pool, key: Key): seq<Entry> {
    var i := LruIdle(p.entries);
    if Served(p, key) || |p.entries| < p.maxClients || i == |p.entries| then p.entries else Drop(p.entries, i)
  }

  lemma MakeRoomKept(p: Pool, key: Key)
    requires PoolOk(p) && !Served(p, key)
    ensures MakeRoom(p).entries == Kept(p, key) && MakeRoom(p).created == p.created
  {
    var i := LruIdle(p.entries);
    if |p.entries| >= p.maxClients && i < |p.entries| {
      assert MakeRoom(p) == MakeRoom(Evicted(p, i)) == Evicted(p, i);
    }
  }

  lemma AcquireEntries(p: Pool, key: Key, now: int)
    requires PoolOk(p)
    ensures var es, i := Acquire(p, key, now).entries, IndexOf(p.entries, key);
            if Served(p, key) then es == p.entries[i := p.entries[i].(inUse := p.entries[i].inUse + 1, lastUsed := now)]
            else if |Kept(p, key)| < p.maxClients then es == Kept(p, key) + [Entry(key, p.created, now, 1)]
            else es == Kept(p, key)
  {
    if !Served(p, key) { MakeRoomKept(p, key); }
  }

  lemma ServedIsEntry(p: Pool, key: Key)
    ensures Served(p, key) <==> exists e :: e in p.entries && e.key == key
  {
    if Served(p, key) { assert p.entries[IndexOf(p.entries, key)] in p.entries; }
  }

  /** An entry after an acquisition: that of the key, used now, or one that was there. */
  lemma EntryAfter(p: Pool, key: Key, now: int, e: Entry)
    requires PoolOk(p) && e in Acquire(p, key, now).entries
    ensures if e.key == key then Served(Acquire(p, key, now), key) && e.lastUsed == now else e in p.entries
  {
    AcquireEntries(p, key, now);
    ServedIsEntry(Acquire(p, key, now), e.key);
    if Served(p, key) {
      var j :| 0 <= j < |p.entries| && Acquire(p, key, now).entries[j] == e;
      assert p.entries[j].key == e.key && p.entries[j] in p.entries;
    } else {
      ServedIsEntry(p, key);
      assert e in Kept(p, key) ==> e in p.entries;
    }
  }

  // ---------------------------------------------------------------- every run

  lemma TakeKnown(maxClients: int, events: seq<Event>, key: Key, now: int)
    requires Inv(Run(maxClients, events)) && UsesKnown(maxClients, events, Run(maxClients, events).pool.entries)
    ensures var more := events + [Take(key, now)]; UsesKnown(maxClients, more, Run(maxClients, more).pool.entries)
  {
    var p, more := Run(maxClients, events).pool, events + [Take(key, now)];
    assert more[..|events|] == events;
    var q := Acquire(p, key, now);
    assert Run(maxClients, more).pool == q;
    forall j | 0 <= j < |q.entries| ensures UseKnown(maxClients, more, q.entries[j]) {
      EntryAfter(p, key, now, q.entries[j]);
      if q.entries[j].key != key {
        var k :| 0 <= k < |p.entries| && p.entries[k] == q.entries[j];
        assert UseKnown(maxClients, events, p.entries[k]);
      }
    }
  }

  lemma GiveKnown(maxClients: int, events: seq<Event>, lease: Lease, now: int)
    requires Inv(Run(maxClients, events)) && UsesKnown(maxClients, events, Run(maxClients, events).pool.entries)
    ensures var more := events + [Give(lease, now)]; UsesKnown(maxClients, more, Run(maxClients, more).pool.entries)
  {
    var s, more := Run(maxClients, events), events + [Give(lease, now)];
    assert more[..|events|] == events;
    if lease in s.leases { HeldLease(s, lease); }
    var es := Run(maxClients, more).pool.entries;
    forall j | 0 <= j < |es| ensures UseKnown(maxClients, more, es[j]) {
      assert UseKnown(maxClients, events, s.pool.entries[j]);
    }
  }

  /** In every calm run the pool knows of each client when its key was last leased or given back. */
  lemma {:induction false} LastUsedIsLastUse(maxClients: int, events: seq<Event>)
    requires Calm(maxClients, events)
    ensures UsesKnown(maxClients, events, Run(maxClients, events).pool.entries)
  {
    if events != [] {
      var before, last := events[..|events| - 1], events[|events| - 1];
      assert events == before + [last];
      LastUsedIsLastUse(maxClients, before);
      RunKeeps(maxClients, before);
      match last
      case Take(key, now) => TakeKnown(maxClients, before, key, now);
      case Give(lease, now) => GiveKnown(maxClients, before, lease, now);
      case CloseAll =>
    }
  }

  lemma StillServed(p: Pool, key: Key, now: int, other: Key)
    requires PoolOk(p) && Served(p, other) && (exists e :: e in Kept(p, key) && e.key == other)
    ensures Served(Acquire(p, key, now), other)
  {
    AcquireEntries(p, key, now);
    var q := Acquire(p, key, now);
    var e :| e in Kept(p, key) && e.key == other;
    ServedIsEntry(q, other);
    if Served(p, key) {
      var j :| 0 <= j < |p.entries| && p.entries[j] == e;
      assert q.entries[j].key == other && q.entries[j] in q.entries;
    } else {
      assert e in q.entries;
    }
  }

  lemma DroppedOnly(es: seq<Entry>, i: nat, e: Entry)
    requires i < |es| && e in es && e != es[i]
    ensures e in Drop(es, i)
  {
    assert es == es[..i] + [es[i]] + es[i + 1..];
  }

  /** Which entry goes. */
  lemma Victim(p: Pool, key: Key, now: int, gone: Key) returns (i: nat)
    requires PoolOk(p) && Served(p, gone) && !Served(Acquire(p, key, now), gone)
    ensures i < |p.entries| && p.entries[i].key == gone && i == LruIdle(p.entries) && Kept(p, key) == Drop(p.entries, i)
    ensures !Served(p, key) && |p.entries| == p.maxClients && Served(Acquire(p, key, now), key)
  {
    i := LruIdle(p.entries);
    ServedIsEntry(p, gone);
    var e :| e in p.entries && e.key == gone;
    if e in Kept(p, key) { StillServed(p, key, now, gone); }
    if i < |p.entries| && e != p.entries[i] { DroppedOnly(p.entries, i, e); }
    AcquireEntries(p, key, now);
    var q := Acquire(p, key, now);
    assert q.entries[|q.entries| - 1] in q.entries;
    ServedIsEntry(q, key);
  }

  lemma OthersServed(p: Pool, key: Key, now: int, gone: Key, other: Key)
    requires PoolOk(p) && Served(p, gone) && !Served(Acquire(p, key, now), gone)
    requires Served(p, other) && other != gone
    ensures Served(Acquire(p, key, now), other)
  {
    var i := Victim(p, key, now, gone);
    var e := p.entries[IndexOf(p.entries, other)];
    DroppedOnly(p.entries, i, e);
    StillServed(p, key, now, other);
  }

  /** Every idle entry was used since. */
  lemma IdleUsedSince(maxClients: int, events: seq<Event>, key: Key, now: int, gone: Key, idle: Key)
    requires var s := Run(maxClients, events);
             && Inv(s) && UsesKnown(maxClients, events, s.pool.entries)
             && Served(s.pool, gone) && !Served(Acquire(s.pool, key, now), gone)
             && Served(s.pool, idle) && LeaseOf(s.pool, idle) !in s.leases
    ensures UsedBefore(LastUse(maxClients, events, gone), LastUse(maxClients, events, idle))
  {
    var s := Run(maxClients, events);
    var i := Victim(s.pool, key, now, gone);
    var j := IndexOf(s.pool.entries, idle);
    assert UseKnown(maxClients, events, s.pool.entries[i]) && UseKnown(maxClients, events, s.pool.entries[j]);
    assert LeaseFor(s.pool.entries[j]) == LeaseOf(s.pool, idle);
  }

  predicate UsedBefore(t: Option<int>, u: Option<int>) { t.Some? && u.Some? && t.value <= u.value }

  /** `acquire` lets an entry go only for a key that has none, in a full pool; then exactly one goes,
      it has no lease out, and no idle entry that stays was last used before it. */
  lemma EvictsLeastRecentlyUsed(maxClients: int, events: seq<Event>, key: Key, now: int, gone: Key)
    requires Calm(maxClients, events)
    requires Served(Run(maxClients, events).pool, gone) && !Served(Acquire(Run(maxClients, events).pool, key, now), gone)
    ensures var s := Run(maxClients, events); var q := Acquire(s.pool, key, now);
            && !Served(s.pool, key) && |s.pool.entries| == s.pool.maxClients && Served(q, key)
            && (forall l :: l in s.leases ==> l.key != gone)
            && (forall other :: Served(s.pool, other) && other != gone ==> Served(q, other))
            && forall idle :: Served(s.pool, idle) && LeaseOf(s.pool, idle) !in s.leases ==>
                 UsedBefore(LastUse(maxClients, events, gone), LastUse(maxClients, events, idle))
  {
    var s := Run(maxClients, events);
    RunKeeps(maxClients, events);
    LastUsedIsLastUse(maxClients, events);
    var i := Victim(s.pool, key, now, gone);
    forall l | l in s.leases ensures l.key != gone {
      HeldLease(s, l);
      VictimIndex(s.pool, i);
    }
    forall other | Served(s.pool, other) && other != gone ensures Served(Acquire(s.pool, key, now), other) {
      OthersServed(s.pool, key, now, gone, other);
    }
    forall idle | Served(s.pool, idle) && LeaseOf(s.pool, idle) !in s.leases
      ensures UsedBefore(LastUse(maxClients, events, gone), LastUse(maxClients, events, idle))
    {
      IdleUsedSince(maxClients, events, key, now, gone, idle);
    }
  }

  lemma VictimIndex(p: Pool, i: nat)
    requires PoolOk(p) && i < |p.entries|
    ensures IndexOf(p.entries, p.entries[i].key) == i
  {}
}
