/** Process-local coalescing of cache fills (`AsyncSingleFlight`).

    A caller of `run` looks up or creates the lock of its key, touches it, evicts idle
    locks beyond the bound and then takes the lock or queues behind it.  No statement on
    that path suspends, because the guard is never held across a suspension, so it is one
    atomic segment; the other segments are a woken waiter taking the lock, a loader that
    ended (normally or not) leaving, and a cancelled waiter leaving.

    A lock that has been released with a waiter queued is unlocked until that waiter runs,
    and eviction looks only at `locked`.  `orphaned` is a history variable: the keys whose
    lock was evicted while some caller still referred to it.  `seen` collects the keys used.
 */
module SingleFlight {
  type Task = nat

  /** An asyncio lock: `woken` says that the first waiter has been woken and not yet run.
      `key` records the key it was created for. */
  datatype Lock = Lock(key: string, locked: bool, waiters: seq<Task>, woken: bool)

  datatype Slot = Slot(key: string, lock: nat)

  datatype Phase = Queued(lock: nat) | Loading(lock: nat)

  /** `table` is the ordered dictionary, least recently used first; `locks` is every lock
      object ever created, named by its index. */
  datatype State = State(
    maxKeys: int,
    table: seq<Slot>,
    locks: seq<Lock>,
    tasks: map<Task, Phase>,
    orphaned: set<string>,
    seen: set<string>)

  datatype Event =
    | Enter(task: Task, key: string)
    | Resume(task: Task)
    | Leave(task: Task)
    | Cancel(task: Task)

  function Init(maxKeys: int): State {
    State(if maxKeys < 1 then 1 else maxKeys, [], [], map[], {}, {})
  }

  // ---------------------------------------------------------------- eviction

  predicate IsLocked(locks: seq<Lock>, slot: Slot) {
    slot.lock < |locks| && locks[slot.lock].locked
  }

  function FirstUnlocked(table: seq<Slot>, locks: seq<Lock>): (i: nat)
    ensures i <= |table|
    ensures forall j :: 0 <= j < i ==> IsLocked(locks, table[j])
    ensures i < |table| ==> !IsLocked(locks, table[i])
  {
    if table == [] || !IsLocked(locks, table[0]) then 0 else 1 + FirstUnlocked(table[1..], locks)
  }

  /** What the eviction loop leaves: rescan for the oldest idle lock after every removal. */
  function Evict(table: seq<Slot>, locks: seq<Lock>, bound: int): seq<Slot>
    decreases |table|
  {
    var i := FirstUnlocked(table, locks);
    if |table| <= bound || i == |table| then table else Evict(table[..i] + table[i + 1..], locks, bound)
  }

  /** The same thing as one pass: drop the first `n` idle locks, keep everything else in order. */
  function DropIdle(table: seq<Slot>, locks: seq<Lock>, n: int): seq<Slot> {
    if table == [] then []
    else if n > 0 && !IsLocked(locks, table[0]) then DropIdle(table[1..], locks, n - 1)
    else [table[0]] + DropIdle(table[1..], locks, n)
  }

  lemma {:induction false} DropIdleSkipsFirst(table: seq<Slot>, locks: seq<Lock>, n: int)
    requires n > 0 && FirstUnlocked(table, locks) < |table|
    ensures var i := FirstUnlocked(table, locks);
            DropIdle(table, locks, n) == DropIdle(table[..i] + table[i + 1..], locks, n - 1)
  {
    var i := FirstUnlocked(table, locks);
    if i == 0 {
      assert table[..0] + table[1..] == table[1..];
    } else {
      DropIdleSkipsFirst(table[1..], locks, n);
      var shorter := table[..i] + table[i + 1..];
      assert shorter[1..] == table[1..][..i - 1] + table[1..][i..];
      assert shorter[0] == table[0];
    }
  }

  lemma {:induction false} DropIdleKeepsHeld(table: seq<Slot>, locks: seq<Lock>, n: int)
    requires n <= 0 || FirstUnlocked(table, locks) == |table|
    ensures DropIdle(table, locks, n) == table
  {
    if table != [] {
      DropIdleKeepsHeld(table[1..], locks, n);
    }
  }

  /** The repeated rescan removes exactly the oldest idle locks, as many as the excess asks
      for, and keeps the survivors in their order. */
  lemma {:induction false} EvictIsOnePass(table: seq<Slot>, locks: seq<Lock>, bound: int)
    ensures Evict(table, locks, bound) == DropIdle(table, locks, |table| - bound)
    decreases |table|
  {
    var i := FirstUnlocked(table, locks);
    if |table| <= bound || i == |table| {
      DropIdleKeepsHeld(table, locks, |table| - bound);
    } else {
      EvictIsOnePass(table[..i] + table[i + 1..], locks, bound);
      DropIdleSkipsFirst(table, locks, |table| - bound);
    }
  }

  ghost predicate KeysDistinct(table: seq<Slot>) {
    forall i, j :: 0 <= i < j < |table| ==> table[i].key != table[j].key
  }

  /** When the loop stops the table is within the bound or every lock left is held, it never
      went below the bound, and only idle locks are gone. */
  lemma {:induction false} EvictOutcome(table: seq<Slot>, locks: seq<Lock>, bound: int)
    requires KeysDistinct(table)
    ensures var kept := Evict(table, locks, bound);
            && (|kept| <= bound || forall s :: s in kept ==> IsLocked(locks, s))
            && (|table| >= bound ==> |kept| >= bound)
            && KeysDistinct(kept)
            && (forall s :: s in kept ==> s in table)
            && (forall s :: s in table && s !in kept ==> !IsLocked(locks, s))
    decreases |table|
  {
    var i := FirstUnlocked(table, locks);
    if |table| > bound && i < |table| {
      var shorter := table[..i] + table[i + 1..];
      assert forall s :: s in table <==> s in shorter || s == table[i];
      EvictOutcome(shorter, locks, bound);
    }
  }

  // ---------------------------------------------------------------- transitions

  function IndexOf(table: seq<Slot>, key: string): (i: nat)
    ensures i <= |table|
    ensures i < |table| ==> table[i].key == key
    ensures i == |table| ==> forall s :: s in table ==> s.key != key
  {
    if table == [] || table[0].key == key then 0 else 1 + IndexOf(table[1..], key)
  }

  predicate Referenced(tasks: map<Task, Phase>, lock: nat) {
    exists t :: t in tasks && tasks[t].lock == lock
  }

  /** Bound the table; a key whose evicted lock is still referenced becomes orphaned. */
  function Bounded(s: State): State {
    var kept := Evict(s.table, s.locks, s.maxKeys);
    s.(table := kept,
       orphaned := s.orphaned +
         set slot | slot in s.table && slot !in kept && Referenced(s.tasks, slot.lock) :: slot.key)
  }

  function MoveToEnd(table: seq<Slot>, i: nat): seq<Slot>
    requires i < |table|
  {
    table[..i] + table[i + 1..] + [table[i]]
  }

  /** Look up or create the lock of `key` and move it to the recent end. */
  function Touch(s: State, key: string): State {
    var i := IndexOf(s.table, key);
    if i < |s.table| then
      s.(table := MoveToEnd(s.table, i), seen := s.seen + {key})
    else
      s.(table := s.table + [Slot(key, |s.locks|)],
         locks := s.locks + [Lock(key, false, [], false)],
         seen := s.seen + {key})
  }

  predicate Free(l: Lock) { !l.locked && l.waiters == [] }

  /** Take `lock` if it is free and nobody queues for it, else join the queue. */
  function Lockable(s: State, task: Task, lock: nat): State
    requires lock < |s.locks|
  {
    var l := s.locks[lock];
    if Free(l) then s.(locks := s.locks[lock := l.(locked := true)])
    else s.(locks := s.locks[lock := l.(waiters := l.waiters + [task])])
  }

  function LockOf(s: State, key: string): nat {
    var i := IndexOf(s.table, key);
    if i < |s.table| then s.table[i].lock else |s.locks|
  }

  /** Leave the lock free and wake the first waiter. */
  function Unlocked(l: Lock): Lock {
    l.(locked := false, woken := l.waiters != [])
  }

  predicate Enabled(s: State, e: Event) {
    match e
    case Enter(t, key) => t !in s.tasks && LockOf(s, key) < |Touch(s, key).locks|
    case Resume(t) =>
      && t in s.tasks && s.tasks[t].Queued? && s.tasks[t].lock < |s.locks|
      && var l := s.locks[s.tasks[t].lock]; l.woken && l.waiters != [] && l.waiters[0] == t
    case Leave(t) => t in s.tasks && s.tasks[t].Loading? && s.tasks[t].lock < |s.locks|
    case Cancel(t) => t in s.tasks && s.tasks[t].Queued? && s.tasks[t].lock < |s.locks|
  }

  function Without(ts: seq<Task>, t: Task): (r: seq<Task>)
    ensures forall u :: u in r <==> u in ts && u != t
  {
    if ts == [] then [] else (if ts[0] == t then [] else [ts[0]]) + Without(ts[1..], t)
  }

  function EnterStep(s: State, task: Task, key: string): State
    requires Enabled(s, Enter(task, key))
  {
    var lock := LockOf(s, key);
    var touched := Touch(s, key);
    var phase := if Free(touched.locks[lock]) then Loading(lock) else Queued(lock);
    Lockable(Bounded(touched.(tasks := s.tasks[task := phase])), task, lock)
  }

  function ResumeStep(s: State, task: Task): State
    requires Enabled(s, Resume(task))
  {
    var lock := s.tasks[task].lock;
    var l := s.locks[lock];
    s.(locks := s.locks[lock := l.(locked := true, woken := false, waiters := l.waiters[1..])],
       tasks := s.tasks[task := Loading(lock)])
  }

  function LeaveStep(s: State, task: Task): State
    requires Enabled(s, Leave(task))
  {
    var lock := s.tasks[task].lock;
    Bounded(s).(locks := s.locks[lock := Unlocked(s.locks[lock])], tasks := s.tasks - {task})
  }

  /** A cancelled waiter leaves the queue and, if the lock is free, wakes the next one. */
  function Abandoned(l: Lock, task: Task): Lock {
    var l' := l.(waiters := Without(l.waiters, task));
    if l.locked then l' else Unlocked(l')
  }

  function CancelStep(s: State, task: Task): State
    requires Enabled(s, Cancel(task))
  {
    var lock := s.tasks[task].lock;
    s.(locks := s.locks[lock := Abandoned(s.locks[lock], task)], tasks := s.tasks - {task})
  }

  function Step(s: State, e: Event): State {
    if !Enabled(s, e) then s else
    match e
    case Enter(t, key) => EnterStep(s, t, key)
    case Resume(t) => ResumeStep(s, t)
    case Leave(t) => LeaveStep(s, t)
    case Cancel(t) => CancelStep(s, t)
  }

  function Run(maxKeys: int, events: seq<Event>): State {
    if events == [] then Init(maxKeys)
    else Step(Run(maxKeys, events[..|events| - 1]), events[|events| - 1])
  }

  lemma RunThen(maxKeys: int, events: seq<Event>, e: Event)
    ensures Run(maxKeys, events + [e]) == Step(Run(maxKeys, events), e)
  {
    assert (events + [e])[..|events|] == events;
  }

  lemma RunThenTwo(maxKeys: int, events: seq<Event>, a: Event, b: Event)
    ensures Run(maxKeys, events + [a] + [b]) == Step(Step(Run(maxKeys, events), a), b)
  {
    RunThen(maxKeys, events, a);
    RunThen(maxKeys, events + [a], b);
  }

  // ---------------------------------------------------------------- invariant

  ghost predicate TableOk(s: State) {
    && s.maxKeys >= 1
    && KeysDistinct(s.table)
    && (forall slot :: slot in s.table ==>
          slot.lock < |s.locks| && s.locks[slot.lock].key == slot.key && slot.key in s.seen)
  }

  /** A held lock has exactly one loading caller; its queue is exactly the callers queued on
      it; a free lock with a queue has a woken head, so no wake-up is ever lost. */
  ghost predicate LockOk(l: Lock, id: nat, tasks: map<Task, Phase>) {
    && (l.locked <==> exists t :: t in tasks && tasks[t] == Loading(id))
    && (forall t, u :: t in tasks && u in tasks && tasks[t] == Loading(id) == tasks[u] ==> t == u)
    && (forall t :: t in l.waiters <==> t in tasks && tasks[t] == Queued(id))
    && NoRepeats(l.waiters)
    && (l.woken <==> !l.locked && l.waiters != [])
  }

  ghost predicate NoRepeats(ts: seq<Task>) {
    forall i, j :: 0 <= i < j < |ts| ==> ts[i] != ts[j]
  }

  /** A caller's lock is the table's lock for its key, unless that key was orphaned. */
  ghost predicate TaskOk(s: State, t: Task)
    requires t in s.tasks
  {
    var lock := s.tasks[t].lock;
    && lock < |s.locks|
    && (Slot(s.locks[lock].key, lock) in s.table || s.locks[lock].key in s.orphaned)
  }

  ghost predicate TasksOk(s: State) {
    forall t :: t in s.tasks ==> TaskOk(s, t)
  }

  ghost predicate Inv(s: State) {
    && TableOk(s)
    && LocksOk(s.locks, s.tasks)
    && TasksOk(s)
  }

  ghost predicate LocksOk(locks: seq<Lock>, tasks: map<Task, Phase>) {
    forall l :: 0 <= l < |locks| ==> LockOk(locks[l], l, tasks)
  }

  lemma MoveToEndKeeps(table: seq<Slot>, i: nat)
    requires i < |table| && KeysDistinct(table)
    ensures KeysDistinct(MoveToEnd(table, i))
    ensures forall slot :: slot in MoveToEnd(table, i) <==> slot in table
  {
    var moved := MoveToEnd(table, i);
    assert table == table[..i] + [table[i]] + table[i + 1..];
    forall a, b | 0 <= a < b < |moved| ensures moved[a].key != moved[b].key {
      var from := (x: int) => if x < i then x else if x < |table| - 1 then x + 1 else i;
      assert moved[a] == table[from(a)] && moved[b] == table[from(b)];
    }
  }

  lemma TouchTable(s: State, key: string)
    requires TableOk(s)
    ensures var s' := Touch(s, key); var lock := LockOf(s, key);
            && TableOk(s') && lock < |s'.locks| && s'.locks[lock].key == key
            && Slot(key, lock) in s'.table && key in s'.seen
            && (forall slot :: slot in s.table ==> slot in s'.table)
            && (s'.locks == s.locks || (lock == |s.locks| && s'.locks == s.locks + [Lock(key, false, [], false)]))
  {
    var i := IndexOf(s.table, key);
    if i < |s.table| {
      assert s.table[i] in s.table && s.table[i] == Slot(key, LockOf(s, key));
      MoveToEndKeeps(s.table, i);
    } else {
      assert Touch(s, key).table[|s.table|] == Slot(key, |s.locks|);
    }
  }

  lemma BoundedKeeps(s: State)
    requires TableOk(s)
    requires TasksOk(s)
    ensures TableOk(Bounded(s))
    ensures TasksOk(Bounded(s))
  {
    EvictOutcome(s.table, s.locks, s.maxKeys);
    var s' := Bounded(s);
    forall t | t in s.tasks ensures TaskOk(s', t) {
      var lock := s.tasks[t].lock;
      var slot := Slot(s.locks[lock].key, lock);
      if slot in s.table && slot !in s'.table {
        assert Referenced(s.tasks, lock);
        assert slot.key in s'.orphaned;
      }
    }
  }

  /** Changing one caller's phase leaves every lock it does not refer to as it was. */
  lemma OtherLock(l: Lock, id: nat, tasks: map<Task, Phase>, tasks': map<Task, Phase>)
    requires LockOk(l, id, tasks)
    requires forall t :: (t in tasks && tasks[t].lock == id) <==> (t in tasks' && tasks'[t].lock == id)
    requires forall t :: t in tasks && tasks[t].lock == id ==> tasks'[t] == tasks[t]
    ensures LockOk(l, id, tasks')
  {
    if l.locked {
      var t :| t in tasks && tasks[t] == Loading(id);
      assert tasks'[t] == Loading(id);
    }
  }

  lemma LockJoined(l: Lock, id: nat, tasks: map<Task, Phase>, task: Task)
    requires LockOk(l, id, tasks) && task !in tasks
    ensures if Free(l) then LockOk(l.(locked := true), id, tasks[task := Loading(id)])
            else LockOk(l.(waiters := l.waiters + [task]), id, tasks[task := Queued(id)])
  {
    if Free(l) {
      assert tasks[task := Loading(id)][task] == Loading(id);
    } else if l.locked {
      var t :| t in tasks && tasks[t] == Loading(id);
      assert tasks[task := Queued(id)][t] == Loading(id);
    }
  }

  lemma NewLockOk(locks: seq<Lock>, tasks: map<Task, Phase>, key: string)
    requires LocksOk(locks, tasks)
    requires forall t :: t in tasks ==> tasks[t].lock < |locks|
    ensures LocksOk(locks + [Lock(key, false, [], false)], tasks)
  {}

  /** A step that touches one lock and the phases of callers on that lock only. */
  lemma OneLockChanged(locks: seq<Lock>, tasks: map<Task, Phase>, id: nat, l: Lock, tasks': map<Task, Phase>)
    requires LocksOk(locks, tasks) && id < |locks| && LockOk(l, id, tasks')
    requires forall t :: t in tasks && tasks[t].lock != id ==> t in tasks' && tasks'[t] == tasks[t]
    requires forall t :: t in tasks' && tasks'[t].lock != id ==> t in tasks && tasks'[t] == tasks[t]
    ensures LocksOk(locks[id := l], tasks')
  {
    var locks' := locks[id := l];
    forall other | 0 <= other < |locks| ensures LockOk(locks'[other], other, tasks') {
      if other != id { OtherLock(locks[other], other, tasks, tasks'); }
    }
  }

  lemma JoinKeepsLocks(s: State, task: Task, lock: nat)
    requires LocksOk(s.locks, s.tasks) && task !in s.tasks && lock < |s.locks|
    ensures var phase := if Free(s.locks[lock]) then Loading(lock) else Queued(lock);
            LocksOk(Lockable(s, task, lock).locks, s.tasks[task := phase])
  {
    LockJoined(s.locks[lock], lock, s.tasks, task);
    var phase := if Free(s.locks[lock]) then Loading(lock) else Queued(lock);
    OneLockChanged(s.locks, s.tasks, lock, Lockable(s, task, lock).locks[lock], s.tasks[task := phase]);
  }

  lemma EnterKeeps(s: State, task: Task, key: string)
    requires Inv(s) && Enabled(s, Enter(task, key))
    ensures Inv(EnterStep(s, task, key))
  {
    TouchTable(s, key);
    var lock := LockOf(s, key);
    var touched := Touch(s, key);
    var phase := if Free(touched.locks[lock]) then Loading(lock) else Queued(lock);
    var entered := touched.(tasks := s.tasks[task := phase]);
    assert TasksOk(s);
    assert LocksOk(touched.locks, touched.tasks) by { NewLockOk(s.locks, s.tasks, key); }
    JoinKeepsLocks(touched, task, lock);
    EnterKeepsTasks(s, task, key, entered);
  }

  /** Changing the state of one lock and the phases of callers that keep their locks. */
  lemma RelockKeeps(s: State, id: nat, l: Lock, tasks': map<Task, Phase>)
    requires TableOk(s) && TasksOk(s) && id < |s.locks| && l.key == s.locks[id].key
    requires forall t :: t in tasks' ==> t in s.tasks && tasks'[t].lock == s.tasks[t].lock
    ensures var s' := s.(locks := s.locks[id := l], tasks := tasks'); TableOk(s') && TasksOk(s')
  {
    var s' := s.(locks := s.locks[id := l], tasks := tasks');
    forall t | t in s'.tasks ensures TaskOk(s', t) { assert TaskOk(s, t); }
  }

  lemma EnteredTasksOk(s: State, task: Task, key: string, phase: Phase)
    requires Inv(s) && phase.lock == LockOf(s, key)
    ensures TableOk(Touch(s, key)) && TasksOk(Touch(s, key).(tasks := s.tasks[task := phase]))
  {
    TouchTable(s, key);
    var entered := Touch(s, key).(tasks := s.tasks[task := phase]);
    forall t | t in entered.tasks ensures TaskOk(entered, t) {
      if t != task { assert TaskOk(s, t); }
    }
  }

  lemma EnterKeepsTasks(s: State, task: Task, key: string, entered: State)
    requires Inv(s) && Enabled(s, Enter(task, key))
    requires var lock := LockOf(s, key); var touched := Touch(s, key);
             entered == touched.(tasks :=
               s.tasks[task := if Free(touched.locks[lock]) then Loading(lock) else Queued(lock)])
    ensures var s' := Lockable(Bounded(entered), task, LockOf(s, key));
            TableOk(s') && TasksOk(s')
  {
    var lock := LockOf(s, key);
    EnteredTasksOk(s, task, key, entered.tasks[task]);
    BoundedKeeps(entered);
    var bounded := Bounded(entered);
    RelockKeeps(bounded, lock, Lockable(bounded, task, lock).locks[lock], bounded.tasks);
  }

  lemma ResumeLock(l: Lock, id: nat, tasks: map<Task, Phase>, task: Task)
    requires LockOk(l, id, tasks) && l.woken && l.waiters != [] && l.waiters[0] == task
    ensures LockOk(l.(locked := true, woken := false, waiters := l.waiters[1..]), id, tasks[task := Loading(id)])
  {
    assert tasks[task := Loading(id)][task] == Loading(id);
  }

  lemma ResumeKeeps(s: State, task: Task)
    requires Inv(s) && Enabled(s, Resume(task))
    ensures Inv(ResumeStep(s, task))
  {
    var s' := ResumeStep(s, task);
    var lock := s.tasks[task].lock;
    ResumeLock(s.locks[lock], lock, s.tasks, task);
    OneLockChanged(s.locks, s.tasks, lock, s'.locks[lock], s'.tasks);
    RelockKeeps(s, lock, s'.locks[lock], s'.tasks);
  }

  lemma LeaveLock(l: Lock, id: nat, tasks: map<Task, Phase>, task: Task)
    requires LockOk(l, id, tasks) && task in tasks && tasks[task] == Loading(id)
    ensures LockOk(Unlocked(l), id, tasks - {task})
  {}

  lemma LeaveKeeps(s: State, task: Task)
    requires Inv(s) && Enabled(s, Leave(task))
    ensures Inv(LeaveStep(s, task))
  {
    var lock := s.tasks[task].lock;
    var l, tasks' := Unlocked(s.locks[lock]), s.tasks - {task};
    LeaveLock(s.locks[lock], lock, s.tasks, task);
    OneLockChanged(s.locks, s.tasks, lock, l, tasks');
    BoundedKeeps(s);
    RelockKeeps(Bounded(s), lock, l, tasks');
  }

  lemma {:induction false} WithoutDistinct(ts: seq<Task>, t: Task)
    requires NoRepeats(ts)
    ensures NoRepeats(Without(ts, t))
  {
    if ts != [] {
      WithoutDistinct(ts[1..], t);
      assert ts[0] !in ts[1..];
    }
  }

  lemma QueueLeft(l: Lock, id: nat, tasks: map<Task, Phase>, task: Task)
    requires LockOk(l, id, tasks) && task in tasks && tasks[task] == Queued(id)
    ensures LockOk(Abandoned(l, task), id, tasks - {task})
  {
    WithoutDistinct(l.waiters, task);
    if l.locked {
      var t :| t in tasks && tasks[t] == Loading(id);
      assert (tasks - {task})[t] == Loading(id);
    }
  }

  lemma CancelKeeps(s: State, task: Task)
    requires Inv(s) && Enabled(s, Cancel(task))
    ensures Inv(CancelStep(s, task))
  {
    var lock := s.tasks[task].lock;
    var l, tasks' := Abandoned(s.locks[lock], task), s.tasks - {task};
    QueueLeft(s.locks[lock], lock, s.tasks, task);
    OneLockChanged(s.locks, s.tasks, lock, l, tasks');
    RelockKeeps(s, lock, l, tasks');
  }

  lemma StepKeeps(s: State, e: Event)
    requires Inv(s)
    ensures Inv(Step(s, e))
    ensures s.orphaned <= Step(s, e).orphaned && s.seen <= Step(s, e).seen
  {
    if Enabled(s, e) {
      match e
      case Enter(t, key) => EnterKeeps(s, t, key);
      case Resume(t) => ResumeKeeps(s, t);
      case Leave(t) => LeaveKeeps(s, t);
      case Cancel(t) => CancelKeeps(s, t);
    }
  }

  lemma {:induction false} RunKeeps(maxKeys: int, events: seq<Event>)
    ensures Inv(Run(maxKeys, events))
  {
    if events != [] {
      RunKeeps(maxKeys, events[..|events| - 1]);
      StepKeeps(Run(maxKeys, events[..|events| - 1]), events[|events| - 1]);
    }
  }

  // ---------------------------------------------------------------- exclusion

  /** `t` is inside the loader for `key`. */
  ghost predicate LoadingKey(s: State, t: Task, key: string) {
    && t in s.tasks && s.tasks[t].Loading?
    && s.tasks[t].lock < |s.locks| && s.locks[s.tasks[t].lock].key == key
  }

  /** Some caller refers to a lock of `key` that is not in the table (any more). */
  ghost predicate Adrift(s: State, key: string) {
    exists t :: t in s.tasks && s.tasks[t].lock < |s.locks| && s.locks[s.tasks[t].lock].key == key &&
      Slot(key, s.tasks[t].lock) !in s.table
  }

  lemma AdriftWasOrphaned(s: State, key: string)
    requires Inv(s) && Adrift(s, key)
    ensures key in s.orphaned
  {
    var t :| t in s.tasks && s.tasks[t].lock < |s.locks| && s.locks[s.tasks[t].lock].key == key &&
             Slot(key, s.tasks[t].lock) !in s.table;
    assert TaskOk(s, t);
  }

  lemma ExclusionInState(s: State, t: Task, u: Task, key: string)
    requires Inv(s) && LoadingKey(s, t, key) && LoadingKey(s, u, key) && !Adrift(s, key)
    ensures t == u
  {
    var a, b := s.tasks[t].lock, s.tasks[u].lock;
    var i :| 0 <= i < |s.table| && s.table[i] == Slot(key, a);
    var j :| 0 <= j < |s.table| && s.table[j] == Slot(key, b);
    assert i == j;
    assert LockOk(s.locks[a], a, s.tasks);
  }

  /** In every run two callers are inside loaders of one key only while one of them refers to a
      lock that was evicted under a caller and is no longer in the table. */
  lemma ExclusionUnlessOrphaned(maxKeys: int, events: seq<Event>, t: Task, u: Task, key: string)
    requires var s := Run(maxKeys, events);
             t != u && LoadingKey(s, t, key) && LoadingKey(s, u, key)
    ensures Adrift(Run(maxKeys, events), key) && key in Run(maxKeys, events).orphaned
  {
    RunKeeps(maxKeys, events);
    var s := Run(maxKeys, events);
    if !Adrift(s, key) {
      ExclusionInState(s, t, u, key);
    }
    AdriftWasOrphaned(s, key);
  }

  /** No lost wake-up: whenever somebody queues for a lock, either one caller holds it or the
      first in the queue has been woken and can take it. */
  lemma QueueIsServed(maxKeys: int, events: seq<Event>, t: Task)
    requires var s := Run(maxKeys, events); t in s.tasks && s.tasks[t].Queued?
    ensures var s := Run(maxKeys, events);
            && s.tasks[t].lock < |s.locks|
            && var l := s.locks[s.tasks[t].lock];
            && l.waiters != []
            && (if l.locked then exists u :: Enabled(s, Leave(u)) && s.tasks[u] == Loading(s.tasks[t].lock)
                else Enabled(s, Resume(l.waiters[0])))
  {
    RunKeeps(maxKeys, events);
    var s := Run(maxKeys, events);
    assert TaskOk(s, t);
    var lock := s.tasks[t].lock;
    var l := s.locks[lock];
    assert LockOk(s.locks[lock], lock, s.tasks);
    assert t in l.waiters;
    if l.locked {
      var u :| u in s.tasks && s.tasks[u] == Loading(lock);
      assert Enabled(s, Leave(u));
    } else {
      assert l.waiters[0] in l.waiters;
    }
  }

  // What one event does to the callers: only its own caller changes, and locks keep their keys.

  ghost predicate SameLockKeys(s: State, s': State) {
    && |s.locks| <= |s'.locks|
    && (forall l :: 0 <= l < |s.locks| ==> s'.locks[l].key == s.locks[l].key)
  }

  lemma BoundedKeepsCallers(s: State)
    ensures Bounded(s).locks == s.locks && Bounded(s).tasks == s.tasks
  {}

  lemma LockableKeepsKeys(s: State, task: Task, lock: nat)
    requires lock < |s.locks|
    ensures var s' := Lockable(s, task, lock); SameLockKeys(s, s') && |s'.locks| == |s.locks| && s'.tasks == s.tasks
  {}

  lemma EnterCallers(s: State, t: Task, key: string)
    requires Inv(s) && t !in s.tasks
    ensures var s' := Step(s, Enter(t, key));
            && SameLockKeys(s, s') && t in s'.tasks && s'.tasks == s.tasks[t := s'.tasks[t]]
            && s'.tasks[t].lock < |s'.locks| && s'.locks[s'.tasks[t].lock].key == key
  {
    TouchTable(s, key);
    var lock, touched := LockOf(s, key), Touch(s, key);
    var phase := if Free(touched.locks[lock]) then Loading(lock) else Queued(lock);
    var entered := touched.(tasks := s.tasks[t := phase]);
    BoundedKeepsCallers(entered);
    LockableKeepsKeys(Bounded(entered), t, lock);
    assert Step(s, Enter(t, key)) == Lockable(Bounded(entered), t, lock);
  }

  lemma ResumeCallers(s: State, t: Task)
    requires Inv(s) && t in s.tasks
    ensures var s' := Step(s, Resume(t));
            && SameLockKeys(s, s') && t in s'.tasks && s'.tasks == s.tasks[t := s'.tasks[t]]
            && s'.tasks[t].lock == s.tasks[t].lock
            && (s.tasks[t].Loading? || Enabled(s, Resume(t)) ==> s'.tasks[t].Loading?)
  {}

  lemma LeaveCallers(s: State, t: Task)
    requires Inv(s) && t in s.tasks && s.tasks[t].Loading?
    ensures var s' := Step(s, Leave(t)); SameLockKeys(s, s') && s'.tasks == s.tasks - {t}
  {
    assert TaskOk(s, t);
  }

  lemma CancelCallers(s: State, t: Task)
    requires Inv(s) && t in s.tasks
    ensures var s' := Step(s, Cancel(t));
            SameLockKeys(s, s') && s'.tasks == if s.tasks[t].Queued? then s.tasks - {t} else s.tasks
  {
    assert TaskOk(s, t);
  }

  ghost predicate OthersSame(s: State, s': State, t: Task) {
    && SameLockKeys(s, s')
    && forall u :: u != t ==> (u in s'.tasks <==> u in s.tasks) && (u in s.tasks ==> s'.tasks[u] == s.tasks[u])
  }

  lemma OnlyOneMoved(s: State, s': State, t: Task)
    requires SameLockKeys(s, s')
    requires s'.tasks == s.tasks || s'.tasks == s.tasks - {t} || (t in s'.tasks && s'.tasks == s.tasks[t := s'.tasks[t]])
    ensures OthersSame(s, s', t)
  {}

  /** Whatever a caller does, the other callers and the keys of the locks stay. */
  lemma OthersUnmoved(s: State, e: Event)
    requires Inv(s) && (e.Enter? <==> e.task !in s.tasks) && (e.Leave? ==> s.tasks[e.task].Loading?)
    ensures OthersSame(s, Step(s, e), e.task)
  {
    match e {
      case Enter(t, key) => EnterCallers(s, t, key);
      case Resume(t) => ResumeCallers(s, t);
      case Leave(t) => LeaveCallers(s, t);
      case Cancel(t) => CancelCallers(s, t);
    }
    OnlyOneMoved(s, Step(s, e), e.task);
  }

  // ---------------------------------------------------------------- the object

  /** The object itself: the table and the lock objects are its fields, the callers' phases
      and the two history variables are ghost.  Each method is one atomic segment of `run`. */
  class AsyncSingleFlight {
    const maxKeys: int
    var table: seq<Slot>
    var locks: seq<Lock>
    ghost var tasks: map<Task, Phase>
    ghost var orphaned: set<string>
    ghost var seen: set<string>

    ghost function Abs(): State
      reads this
    {
      State(maxKeys, table, locks, tasks, orphaned, seen)
    }

    constructor (max_keys: int)
      ensures Abs() == Init(max_keys)
    {
      maxKeys := if max_keys < 1 then 1 else max_keys;
      table, locks := [], [];
      tasks, orphaned, seen := map[], {}, {};
    }

    /** The scan for a victim, in table order. */
    method OldestIdle() returns (victim: nat)
      ensures victim == FirstUnlocked(table, locks)
    {
      victim := 0;
      while victim < |table| && IsLocked(locks, table[victim])
        invariant victim <= |table| && forall j :: 0 <= j < victim ==> IsLocked(locks, table[j])
      {
        victim := victim + 1;
      }
    }

    /** Drop the oldest idle lock until the table is within bounds or nothing is idle. */
    method EvictUnlocked()
      modifies this`table, this`orphaned
      ensures Abs() == Bounded(old(Abs()))
    {
      ghost var before := Abs();
      while |table| > maxKeys
        invariant Evict(table, locks, maxKeys) == Evict(before.table, locks, maxKeys)
        invariant orphaned == before.orphaned
        decreases |table|
      {
        var victim := OldestIdle();
        if victim == |table| {
          break;
        }
        table := table[..victim] + table[victim + 1..];
      }
      assert table == Evict(before.table, locks, maxKeys);
      orphaned := Bounded(before).orphaned;
    }

    /** Everything `run` does up to its first suspension. */
    method Begin(task: Task, key: string) returns (inside: bool)
      requires Enabled(Abs(), Enter(task, key))
      modifies this
      ensures Abs() == Step(old(Abs()), Enter(task, key))
      ensures inside <==> tasks[task].Loading?
    {
      var i := IndexOf(table, key);
      var lock;
      if i < |table| {
        lock := table[i].lock;
        table := table[..i] + table[i + 1..] + [table[i]];
      } else {
        lock := |locks|;
        locks := locks + [Lock(key, false, [], false)];
        table := table + [Slot(key, lock)];
      }
      seen := seen + {key};
      inside := Free(locks[lock]);
      tasks := tasks[task := if inside then Loading(lock) else Queued(lock)];
      EvictUnlocked();
      var l := locks[lock];
      locks := locks[lock := if inside then l.(locked := true) else l.(waiters := l.waiters + [task])];
    }

    /** A woken waiter takes its lock. */
    method Wake(task: Task, lock: nat)
      requires Enabled(Abs(), Resume(task)) && lock == tasks[task].lock
      modifies this
      ensures Abs() == Step(old(Abs()), Resume(task))
    {
      var l := locks[lock];
      locks := locks[lock := Lock(l.key, true, l.waiters[1..], false)];
      tasks := tasks[task := Loading(lock)];
    }

    /** The `finally` part: evict while still holding the lock, then release it. */
    method Finish(task: Task, lock: nat)
      requires Enabled(Abs(), Leave(task)) && lock == tasks[task].lock
      modifies this
      ensures Abs() == Step(old(Abs()), Leave(task))
    {
      EvictUnlocked();
      locks := locks[lock := Unlocked(locks[lock])];
      tasks := tasks - {task};
    }
  }
}
