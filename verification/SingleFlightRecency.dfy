/** What "least recently used" means in the lock table, in terms of the calls made: the table is in
    the order of the last call for each key, and eviction takes the idle keys called longest ago.
 */
module SingleFlightRecency {
  import opened SingleFlight

  /** The position of the last call for `key` in the run, -1 if there is none. */
  function LastCall(maxKeys: int, events: seq<Event>, key: string): int {
    if events == [] then -1 else
    var before, e := events[..|events| - 1], events[|events| - 1];
    if e.Enter? && e.key == key && e.task !in Run(maxKeys, before).tasks then |before|
    else LastCall(maxKeys, before, key)
  }

  lemma {:induction false} LastCallBounds(maxKeys: int, events: seq<Event>, key: string)
    ensures -1 <= LastCall(maxKeys, events, key) < |events| || events == []
    ensures LastCall(maxKeys, events, key) < |events|
  {
    if events != [] { LastCallBounds(maxKeys, events[..|events| - 1], key); }
  }

  /** `rank` increases along the table. */
  ghost predicate Ranked(table: seq<Slot>, rank: string -> int) {
    forall i, j :: 0 <= i < j < |table| ==> rank(table[i].key) < rank(table[j].key)
  }

  lemma RankedSame(table: seq<Slot>, rank: string -> int, rank': string -> int)
    requires Ranked(table, rank) && forall s :: s in table ==> rank'(s.key) == rank(s.key)
    ensures Ranked(table, rank')
  {
    forall i, j | 0 <= i < j < |table| ensures rank'(table[i].key) < rank'(table[j].key) {
      assert table[i] in table && table[j] in table;
    }
  }

  ghost predicate HasKey(table: seq<Slot>, key: string) { exists s :: s in table && s.key == key }

  lemma RemovedRanked(table: seq<Slot>, i: nat, rank: string -> int)
    requires i < |table| && Ranked(table, rank)
    ensures Ranked(table[..i] + table[i + 1..], rank)
  {
    var shorter := table[..i] + table[i + 1..];
    forall a, b | 0 <= a < b < |shorter| ensures rank(shorter[a].key) < rank(shorter[b].key) {
      assert shorter[a] == table[if a < i then a else a + 1] && shorter[b] == table[if b < i then b else b + 1];
    }
  }

  lemma FirstIsLowest(table: seq<Slot>, locks: seq<Lock>, i: nat, b: Slot, rank: string -> int)
    requires Ranked(table, rank) && i == FirstUnlocked(table, locks) < |table|
    requires b in table[..i] + table[i + 1..] && !IsLocked(locks, b)
    ensures rank(table[i].key) < rank(b.key)
  {
    assert b !in table[..i];
    var j :| 0 <= j < |table[i + 1..]| && table[i + 1..][j] == b;
    assert b == table[i + 1 + j];
  }

  /** What is kept was in the table, and what was dropped was idle and ranks below every idle lock
      that is kept. */
  ghost predicate OldestDropped(table: seq<Slot>, kept: seq<Slot>, locks: seq<Lock>, rank: string -> int) {
    && (forall s :: s in kept ==> s in table)
    && forall a, b :: a in table && a !in kept && b in kept && !IsLocked(locks, b) ==>
         !IsLocked(locks, a) && rank(a.key) < rank(b.key)
  }

  lemma DropFirst(table: seq<Slot>, i: nat, kept: seq<Slot>, locks: seq<Lock>, rank: string -> int)
    requires Ranked(table, rank) && i == FirstUnlocked(table, locks) < |table|
    requires OldestDropped(table[..i] + table[i + 1..], kept, locks, rank)
    ensures OldestDropped(table, kept, locks, rank)
  {
    forall a, b | a in table && a !in kept && b in kept && !IsLocked(locks, b)
      ensures !IsLocked(locks, a) && rank(a.key) < rank(b.key)
    {
      if a == table[i] { FirstIsLowest(table, locks, i, b, rank); } else { StaysIn(table, i, a); }
    }
  }

  lemma {:induction false} EvictRanked(table: seq<Slot>, locks: seq<Lock>, bound: int, rank: string -> int)
    requires Ranked(table, rank)
    ensures Ranked(Evict(table, locks, bound), rank)
    ensures OldestDropped(table, Evict(table, locks, bound), locks, rank)
    decreases |table|
  {
    var i := FirstUnlocked(table, locks);
    if |table| > bound && i < |table| {
      var shorter := table[..i] + table[i + 1..];
      RemovedRanked(table, i, rank);
      EvictRanked(shorter, locks, bound, rank);
      DropFirst(table, i, Evict(shorter, locks, bound), locks, rank);
    }
  }

  lemma StaysIn(table: seq<Slot>, i: nat, a: Slot)
    requires i < |table| && a in table && a != table[i]
    ensures a in table[..i] + table[i + 1..]
  {
    assert table == table[..i] + [table[i]] + table[i + 1..];
  }

  // ---------------------------------------------------------------- one step

  function Latest(rank: string -> int, key: string, n: int): string -> int { k => if k == key then n else rank(k) }

  /** The key that was looked up is now the most recent one. */
  lemma TouchRanked(s: State, key: string, rank: string -> int, n: int)
    requires TableOk(s) && Ranked(s.table, rank) && forall slot :: slot in s.table ==> rank(slot.key) < n
    ensures Ranked(Touch(s, key).table, Latest(rank, key, n))
  {
    var i, moved := IndexOf(s.table, key), Touch(s, key).table;
    if i < |s.table| { MoveToEndKeeps(s.table, i); }
    var others := if i < |s.table| then s.table[..i] + s.table[i + 1..] else s.table;
    if i < |s.table| { RemovedRanked(s.table, i, rank); }
    assert |moved| == |others| + 1 && moved[..|others|] == others && moved[|others|].key == key;
    assert KeysDistinct(moved) by { TouchTable(s, key); }
    forall a, b | 0 <= a < b < |moved| ensures Latest(rank, key, n)(moved[a].key) < Latest(rank, key, n)(moved[b].key) {
      assert moved[a] == others[a] && others[a] in s.table && moved[a].key != moved[|others|].key;
      if b < |others| { assert moved[b] == others[b] && moved[b].key != moved[|others|].key; }
    }
  }

  /** The table as eviction finds it, and the locks it looks at. */
  function Looked(s: State, e: Event): State {
    if e.Enter? && e.task !in s.tasks then Touch(s, e.key) else s
  }

  /** What an event does to the table: only an entering or a leaving caller evicts. */
  lemma StepTable(s: State, e: Event)
    requires Inv(s)
    ensures var found := Looked(s, e); var s' := Step(s, e);
            && TableOk(found) && s'.maxKeys == s.maxKeys
            && (s'.table == found.table || s'.table == Evict(found.table, found.locks, s.maxKeys))
            && (forall slot :: slot in found.table && slot.lock < |s.locks| ==> slot in s.table)
            && (forall slot :: slot in found.table ==> (IsLocked(found.locks, slot) <==> IsLocked(s.locks, slot)))
  {
    if e.Enter? && e.task !in s.tasks {
      TouchTable(s, e.key);
      var i := IndexOf(s.table, e.key);
      if i < |s.table| { MoveToEndKeeps(s.table, i); }
    }
  }

  function Calls(maxKeys: int, events: seq<Event>): string -> int { key => LastCall(maxKeys, events, key) }

  lemma CallsNow(maxKeys: int, events: seq<Event>, e: Event)
    ensures var s := Run(maxKeys, events); var before, after := Calls(maxKeys, events), Calls(maxKeys, events + [e]);
            forall key :: after(key) == if e.Enter? && e.task !in s.tasks && key == e.key then |events| else before(key)
  {
    assert (events + [e])[..|events|] == events;
  }

  ghost predicate InCallOrder(maxKeys: int, events: seq<Event>) {
    Ranked(Run(maxKeys, events).table, Calls(maxKeys, events))
  }

  lemma LookedInCallOrder(maxKeys: int, events: seq<Event>, e: Event)
    requires InCallOrder(maxKeys, events)
    ensures Ranked(Looked(Run(maxKeys, events), e).table, Calls(maxKeys, events + [e]))
  {
    var s, before, after := Run(maxKeys, events), Calls(maxKeys, events), Calls(maxKeys, events + [e]);
    RunKeeps(maxKeys, events);
    CallsNow(maxKeys, events, e);
    if e.Enter? && e.task !in s.tasks {
      forall slot | slot in s.table ensures before(slot.key) < |events| { LastCallBounds(maxKeys, events, slot.key); }
      TouchRanked(s, e.key, before, |events|);
      RankedSame(Looked(s, e).table, Latest(before, e.key, |events|), after);
    } else {
      RankedSame(s.table, before, after);
    }
  }

  // ---------------------------------------------------------------- every run

  /** In every run the table is in the order of the last call for each key. */
  lemma {:induction false} TableInCallOrder(maxKeys: int, events: seq<Event>)
    ensures InCallOrder(maxKeys, events)
  {
    if events != [] {
      var before, e := events[..|events| - 1], events[|events| - 1];
      assert events == before + [e];
      TableInCallOrder(maxKeys, before);
      LookedInCallOrder(maxKeys, before, e);
      RunKeeps(maxKeys, before);
      var s := Run(maxKeys, before);
      StepTable(s, e);
      EvictRanked(Looked(s, e).table, Looked(s, e).locks, s.maxKeys, Calls(maxKeys, events));
    }
  }

  /** `key` was in the table, or was put there by this event, and is gone after it. */
  ghost predicate Evicted(s: State, s': State, e: Event, key: string) {
    && (HasKey(s.table, key) || (e.Enter? && e.task !in s.tasks && e.key == key))
    && !HasKey(s'.table, key)
  }

  /** A key that an event evicts was idle, and its last call is older than that of every idle key
      that stays. */
  lemma EvictsLeastRecent(maxKeys: int, events: seq<Event>, e: Event, key: string)
    requires Evicted(Run(maxKeys, events), Run(maxKeys, events + [e]), e, key)
    ensures var s, s' := Run(maxKeys, events), Run(maxKeys, events + [e]);
            && (forall slot :: slot in s.table && slot.key == key ==> !IsLocked(s.locks, slot))
            && forall kept :: kept in s'.table && !IsLocked(s.locks, kept) ==>
                 LastCall(maxKeys, events + [e], key) < LastCall(maxKeys, events + [e], kept.key)
  {
    var s, s', rank := Run(maxKeys, events), Run(maxKeys, events + [e]), Calls(maxKeys, events + [e]);
    TableInCallOrder(maxKeys, events);
    LookedInCallOrder(maxKeys, events, e);
    RunKeeps(maxKeys, events);
    RunThen(maxKeys, events, e);
    StepTable(s, e);
    var found := Looked(s, e);
    EvictRanked(found.table, found.locks, s.maxKeys, rank);
    EvictOutcome(found.table, found.locks, s.maxKeys);
    LookedHasKey(s, e, key);
    var gone :| gone in found.table && gone.key == key;
    assert gone !in s'.table;
    forall slot | slot in s.table && slot.key == key ensures !IsLocked(s.locks, slot) {
      LookedKeeps(s, e, slot);
    }
  }

  lemma LookedKeeps(s: State, e: Event, slot: Slot)
    requires Inv(s) && slot in s.table
    ensures slot in Looked(s, e).table
  {
    if e.Enter? { TouchTable(s, e.key); }
  }

  lemma LookedHasKey(s: State, e: Event, key: string)
    requires Inv(s) && (HasKey(s.table, key) || (e.Enter? && e.task !in s.tasks && e.key == key))
    ensures HasKey(Looked(s, e).table, key)
  {
    if e.Enter? { TouchTable(s, e.key); }
    if HasKey(s.table, key) {
      var slot :| slot in s.table && slot.key == key;
      LookedKeeps(s, e, slot);
    }
  }

  // ---------------------------------------------------------------- first come, first served

  /** The position of the last call that `task` made, -1 if there is none. */
  function Came(maxKeys: int, events: seq<Event>, task: Task): int {
    if events == [] then -1 else
    var before, e := events[..|events| - 1], events[|events| - 1];
    if e.Enter? && e.task == task && task !in Run(maxKeys, before).tasks then |before| else Came(maxKeys, before, task)
  }

  lemma {:induction false} CameBounds(maxKeys: int, events: seq<Event>, task: Task)
    ensures Came(maxKeys, events, task) < |events|
  {
    if events != [] { CameBounds(maxKeys, events[..|events| - 1], task); }
  }

  function Arrivals(maxKeys: int, events: seq<Event>): Task -> int { (task: Task) => Came(maxKeys, events, task) }

  ghost predicate Arrived(waiters: seq<Task>, came: Task -> int) {
    forall i, j :: 0 <= i < j < |waiters| ==> came(waiters[i]) < came(waiters[j])
  }

  ghost predicate QueuesInOrder(locks: seq<Lock>, came: Task -> int) {
    forall l :: 0 <= l < |locks| ==> Arrived(locks[l].waiters, came)
  }

  lemma {:induction false} WithoutArrived(waiters: seq<Task>, t: Task, came: Task -> int)
    requires Arrived(waiters, came)
    ensures Arrived(Without(waiters, t), came)
  {
    if waiters != [] {
      WithoutArrived(waiters[1..], t, came);
      forall u | u in waiters[1..] ensures came(waiters[0]) < came(u) {
        var j :| 0 <= j < |waiters[1..]| && waiters[1..][j] == u;
        assert waiters[j + 1] == u;
      }
    }
  }

  /** What an event does to one queue: a caller joins at the end, the head leaves, or somebody gives
      up. */
  ghost predicate QueueMoved(was: seq<Task>, now: seq<Task>, e: Event) {
    || now == was
    || (e.Enter? && now == was + [e.task])
    || (e.Resume? && was != [] && now == was[1..])
    || (e.Cancel? && now == Without(was, e.task))
  }

  lemma EnterQueue(s: State, task: Task, key: string, l: nat)
    requires Inv(s) && task !in s.tasks && l < |EnterLocks(s, task, key)|
    ensures EnterLocks(s, task, key) == Step(s, Enter(task, key)).locks
    ensures var was, now := if l < |s.locks| then s.locks[l].waiters else [], EnterLocks(s, task, key)[l].waiters;
            now == was || now == was + [task]
  {
    TouchTable(s, key);
  }

  /** The locks after a call came in: eviction does not change them. */
  function EnterLocks(s: State, task: Task, key: string): seq<Lock>
    requires Enabled(s, Enter(task, key))
  {
    Lockable(Touch(s, key), task, LockOf(s, key)).locks
  }

  lemma StepQueue(s: State, e: Event, l: nat)
    requires Inv(s) && l < |Step(s, e).locks|
    ensures QueueMoved(if l < |s.locks| then s.locks[l].waiters else [], Step(s, e).locks[l].waiters, e)
    ensures e.Enter? && e.task in s.tasks ==> Step(s, e) == s
  {
    if e.Enter? {
      if e.task !in s.tasks {
        TouchTable(s, e.key);
        EnterQueue(s, e.task, e.key, l);
      }
    }
  }

  lemma QueuedAreCallers(s: State, l: nat, t: Task)
    requires Inv(s) && l < |s.locks| && t in s.locks[l].waiters
    ensures t in s.tasks
  {
    assert LockOk(s.locks[l], l, s.tasks);
  }

  lemma MovedArrived(was: seq<Task>, now: seq<Task>, e: Event, came: Task -> int, came': Task -> int)
    requires Arrived(was, came) && QueueMoved(was, now, e)
    requires forall t :: t in was ==> came'(t) == came(t)
    requires e.Enter? && now != was ==> forall t :: t in was ==> came(t) < came'(e.task)
    ensures Arrived(now, came')
  {
    assert Arrived(was, came') by {
      forall i, j | 0 <= i < j < |was| ensures came'(was[i]) < came'(was[j]) { assert was[i] in was && was[j] in was; }
    }
    if e.Cancel? { WithoutArrived(was, e.task, came'); }
  }

  lemma QueueStaysInOrder(maxKeys: int, events: seq<Event>, e: Event, l: nat)
    requires QueuesInOrder(Run(maxKeys, events).locks, Arrivals(maxKeys, events))
    requires l < |Run(maxKeys, events + [e]).locks|
    ensures Arrived(Run(maxKeys, events + [e]).locks[l].waiters, Arrivals(maxKeys, events + [e]))
  {
    var s := Run(maxKeys, events);
    RunKeeps(maxKeys, events);
    RunThen(maxKeys, events, e);
    assert (events + [e])[..|events|] == events;
    StepQueue(s, e, l);
    var was := if l < |s.locks| then s.locks[l].waiters else [];
    forall t | t in was ensures Came(maxKeys, events, t) < |events| && t in s.tasks {
      CameBounds(maxKeys, events, t);
      QueuedAreCallers(s, l, t);
    }
    MovedArrived(was, Step(s, e).locks[l].waiters, e, Arrivals(maxKeys, events), Arrivals(maxKeys, events + [e]));
  }

  /** In every run the callers queue for a lock in the order in which they came. */
  lemma {:induction false} QueuesInCallOrder(maxKeys: int, events: seq<Event>)
    ensures QueuesInOrder(Run(maxKeys, events).locks, Arrivals(maxKeys, events))
  {
    if events != [] {
      var before, e := events[..|events| - 1], events[|events| - 1];
      assert events == before + [e];
      QueuesInCallOrder(maxKeys, before);
      forall l | 0 <= l < |Run(maxKeys, events).locks|
        ensures Arrived(Run(maxKeys, events).locks[l].waiters, Arrivals(maxKeys, events))
      {
        QueueStaysInOrder(maxKeys, before, e, l);
      }
    }
  }

  /** A waiter takes its lock only before all those who queue for the same lock and came later. */
  lemma FirstComeFirstServed(maxKeys: int, events: seq<Event>, t: Task, u: Task)
    requires var s := Run(maxKeys, events);
             && Enabled(s, Resume(t)) && u != t && u in s.tasks && s.tasks[u] == Queued(s.tasks[t].lock)
    ensures Came(maxKeys, events, t) < Came(maxKeys, events, u)
  {
    var s := Run(maxKeys, events);
    RunKeeps(maxKeys, events);
    QueuesInCallOrder(maxKeys, events);
    var lock := s.tasks[t].lock;
    assert LockOk(s.locks[lock], lock, s.tasks) && Arrived(s.locks[lock].waiters, Arrivals(maxKeys, events));
    var j :| 0 <= j < |s.locks[lock].waiters| && s.locks[lock].waiters[j] == u;
  }
}
