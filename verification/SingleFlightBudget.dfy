/** How many keys single flight can bear: exclusion for every schedule, and the schedule that breaks
    it beyond. */
module SingleFlightBudget {
  import opened SingleFlight

  // ---------------------------------------------------------------- key budget

  ghost function KeysOf(table: seq<Slot>): set<string> { set s | s in table :: s.key }

  lemma {:induction false} DistinctKeysCount(table: seq<Slot>)
    requires KeysDistinct(table)
    ensures |KeysOf(table)| == |table|
  {
    if table != [] {
      var rest := table[1..];
      DistinctKeysCount(rest);
      assert KeysOf(table) == KeysOf(rest) + {table[0].key} by {
        forall k | k in KeysOf(table) ensures k in KeysOf(rest) + {table[0].key} {
          var s :| s in table && s.key == k;
          assert s == table[0] || s in rest;
        }
        assert table[0] in table;
        assert forall s :: s in rest ==> s in table;
      }
      assert table[0].key !in KeysOf(rest) by {
        forall j | 0 <= j < |rest| ensures rest[j].key != table[0].key {
          assert rest[j] == table[j + 1];
        }
      }
    }
  }

  lemma SubsetCount<T>(a: set<T>, b: set<T>)
    requires a <= b
    ensures |a| <= |b|
  {
    assert b == a + (b - a);
    assert |b| == |a| + |b - a|;
  }

  lemma WithinBudgetNoEviction(s: State)
    requires TableOk(s) && |s.seen| <= s.maxKeys
    ensures Bounded(s) == s
  {
    DistinctKeysCount(s.table);
    SubsetCount(KeysOf(s.table), s.seen);
    assert |s.table| <= s.maxKeys;
    assert forall slot :: slot in s.table ==> slot in Evict(s.table, s.locks, s.maxKeys);
    assert (set slot | slot in s.table && slot !in Evict(s.table, s.locks, s.maxKeys) && Referenced(s.tasks, slot.lock)
              :: slot.key) == {};
  }

  lemma BudgetStep(s: State, e: Event)
    requires Inv(s) && s.orphaned == {} && |Step(s, e).seen| <= s.maxKeys
    ensures Step(s, e).orphaned == {}
  {
    StepKeeps(s, e);
    SubsetCount(s.seen, Step(s, e).seen);
    if Enabled(s, e) && e.Enter? {
      TouchTable(s, e.key);
      var touched := Touch(s, e.key);
      var phase := if Free(touched.locks[LockOf(s, e.key)]) then Loading(LockOf(s, e.key)) else Queued(LockOf(s, e.key));
      WithinBudgetNoEviction(touched.(tasks := s.tasks[e.task := phase]));
    } else if Enabled(s, e) && e.Leave? {
      WithinBudgetNoEviction(s);
    }
  }

  lemma {:induction false} WithinBudgetNothingOrphaned(maxKeys: int, events: seq<Event>)
    requires |Run(maxKeys, events).seen| <= Run(maxKeys, events).maxKeys
    ensures Run(maxKeys, events).orphaned == {}
  {
    if events != [] {
      var before := events[..|events| - 1];
      RunKeeps(maxKeys, before);
      StepKeeps(Run(maxKeys, before), events[|events| - 1]);
      SubsetCount(Run(maxKeys, before).seen, Run(maxKeys, events).seen);
      WithinBudgetNothingOrphaned(maxKeys, before);
      BudgetStep(Run(maxKeys, before), events[|events| - 1]);
    }
  }

  ghost predicate UsesOnly(events: seq<Event>, keys: set<string>) {
    forall e :: e in events && e.Enter? ==> e.key in keys
  }

  lemma {:induction false} SeenAreUsed(maxKeys: int, events: seq<Event>, keys: set<string>)
    requires UsesOnly(events, keys)
    ensures Run(maxKeys, events).seen <= keys
  {
    if events != [] {
      assert events[|events| - 1] in events;
      SeenAreUsed(maxKeys, events[..|events| - 1], keys);
    }
  }

  ghost predicate Overlap(s: State) {
    exists t, u, key :: t != u && LoadingKey(s, t, key) && LoadingKey(s, u, key)
  }

  lemma BudgetSuffices(maxKeys: int, events: seq<Event>, keys: set<string>)
    requires UsesOnly(events, keys) && |keys| <= Init(maxKeys).maxKeys
    ensures !Overlap(Run(maxKeys, events))
  {
    var s := Run(maxKeys, events);
    SeenAreUsed(maxKeys, events, keys);
    SubsetCount(s.seen, keys);
    MaxKeysFixed(maxKeys, events);
    WithinBudgetNothingOrphaned(maxKeys, events);
    if t, u, key :| t != u && LoadingKey(s, t, key) && LoadingKey(s, u, key) {
      ExclusionUnlessOrphaned(maxKeys, events, t, u, key);
    }
  }

  lemma {:induction false} MaxKeysFixed(maxKeys: int, events: seq<Event>)
    ensures Run(maxKeys, events).maxKeys == Init(maxKeys).maxKeys
  {
    if events != [] {
      MaxKeysFixed(maxKeys, events[..|events| - 1]);
    }
  }

  // The other direction: one key more than the bound, every other lock held, and the newest
  // lock is evicted before its own caller takes it, so a second caller gets another lock.

  ghost function Enters(names: seq<string>): seq<Event> {
    seq(|names|, i requires 0 <= i < |names| => Enter(i, names[i]))
  }

  ghost function AllHeld(bound: int, names: seq<string>): State {
    State(bound,
          seq(|names|, i requires 0 <= i < |names| => Slot(names[i], i)),
          seq(|names|, i requires 0 <= i < |names| => Lock(names[i], true, [], false)),
          map i: nat | 0 <= i < |names| :: Loading(i),
          {},
          set name | name in names)
  }

  ghost predicate NamesDistinct(names: seq<string>) {
    forall i, j :: 0 <= i < j < |names| ==> names[i] != names[j]
  }

  lemma FillOne(bound: int, front: seq<string>, name: string)
    requires |front| < bound && name !in front
    ensures Step(AllHeld(bound, front), Enter(|front|, name)) == AllHeld(bound, front + [name])
  {
    var n := |front|;
    var s, all := AllHeld(bound, front), AllHeld(bound, front + [name]);
    assert forall i :: 0 <= i < n ==> s.table[i].key != name;
    assert IndexOf(s.table, name) == n;
    var touched := Touch(s, name);
    var entered := touched.(tasks := s.tasks[n := Loading(n)]);
    assert touched.table == all.table;
    assert touched.seen == all.seen;
    assert entered.tasks == all.tasks;
    assert Evict(entered.table, entered.locks, bound) == entered.table;
    assert (set slot | slot in entered.table && slot !in entered.table && Referenced(entered.tasks, slot.lock)
              :: slot.key) == {};
    assert Bounded(entered) == entered;
    assert touched.locks[n] == Lock(name, false, [], false);
    assert touched.locks[n := Lock(name, true, [], false)] == all.locks;
  }

  lemma {:induction false} FillTable(maxKeys: int, names: seq<string>)
    requires NamesDistinct(names) && |names| <= Init(maxKeys).maxKeys
    ensures Run(maxKeys, Enters(names)) == AllHeld(Init(maxKeys).maxKeys, names)
  {
    var bound := Init(maxKeys).maxKeys;
    if names == [] {
      assert AllHeld(bound, []).tasks == map[];
      assert AllHeld(bound, []).seen == {};
      assert AllHeld(bound, []) == Init(maxKeys);
    } else {
      var n := |names| - 1;
      FillTable(maxKeys, names[..n]);
      assert Enters(names)[..n] == Enters(names[..n]);
      FillOne(bound, names[..n], names[n]);
      assert names[..n] + [names[n]] == names;
    }
  }

  /** The first caller of all goes straight into its loader. */
  lemma FirstCallerLoads(maxKeys: int, key: string)
    ensures var s := Step(Init(maxKeys), Enter(0, key)); 0 in s.tasks && s.tasks[0].Loading?
  {
    FillTable(maxKeys, []);
    FillOne(Init(maxKeys).maxKeys, [], key);
    assert 0 in AllHeld(Init(maxKeys).maxKeys, [] + [key]).tasks;
  }

  lemma LastIsEvicted(table: seq<Slot>, locks: seq<Lock>, bound: int)
    requires |table| == bound + 1 && bound >= 0
    requires forall i :: 0 <= i < bound ==> IsLocked(locks, table[i])
    requires !IsLocked(locks, table[bound])
    ensures Evict(table, locks, bound) == table[..bound]
  {
    var i := FirstUnlocked(table, locks);
    assert i == bound;
    assert table[..i] + table[i + 1..] == table[..bound];
  }

  /** A caller that finds every lock held and the table full runs under an evicted lock. */
  lemma IntruderOrphaned(bound: int, s: State, task: Task, key: string)
    requires bound >= 1 && s.maxKeys == bound && |s.table| == bound && task !in s.tasks
    requires forall i :: 0 <= i < bound ==> s.table[i].key != key && IsLocked(s.locks, s.table[i])
    ensures var s' := Step(s, Enter(task, key));
            && s'.table == s.table && LoadingKey(s', task, key)
            && s'.tasks == s.tasks[task := Loading(|s.locks|)]
            && s'.locks == s.locks + [Lock(key, true, [], false)] && s'.maxKeys == bound
  {
    var i := IndexOf(s.table, key);
    assert i == |s.table|;
    var n := |s.locks|;
    var touched := Touch(s, key);
    var entered := touched.(tasks := s.tasks[task := Loading(n)]);
    assert touched.locks[n] == Lock(key, false, [], false);
    LastIsEvicted(entered.table, entered.locks, bound);
    assert entered.table[..bound] == s.table;
    var s' := Step(s, Enter(task, key));
    assert s'.locks == s.locks + [Lock(key, true, [], false)];
  }

  lemma {:induction false} PickNames(keys: set<string>, n: nat) returns (names: seq<string>)
    requires n <= |keys|
    ensures |names| == n && NamesDistinct(names) && forall k :: k in names ==> k in keys
  {
    if n == 0 {
      names := [];
    } else {
      var k :| k in keys;
      var rest := PickNames(keys - {k}, n - 1);
      names := [k] + rest;
    }
  }

  /** The first intruder still loads when the second one has come. */
  lemma BothLoad(s: State, s': State, t: Task, u: Task, key: string)
    requires t != u && LoadingKey(s, t, key) && LoadingKey(s', u, key)
    requires t in s'.tasks && s'.tasks[t] == s.tasks[t] && s.locks <= s'.locks
    ensures Overlap(s')
  {
    assert LoadingKey(s', t, key);
  }

  lemma HeldTableLocked(bound: int, held: seq<string>, extra: string)
    requires |held| == bound && extra !in held
    ensures var s := AllHeld(bound, held);
            forall i :: 0 <= i < bound ==> s.table[i].key != extra && IsLocked(s.locks, s.table[i])
  {}

  lemma TwoIntruders(bound: int, held: seq<string>, extra: string)
    requires bound >= 1 && |held| == bound && extra !in held
    ensures Overlap(Step(Step(AllHeld(bound, held), Enter(bound, extra)), Enter(bound + 1, extra)))
  {
    var s := AllHeld(bound, held);
    HeldTableLocked(bound, held, extra);
    IntruderOrphaned(bound, s, bound, extra);
    var s1 := Step(s, Enter(bound, extra));
    IntruderOrphaned(bound, s1, bound + 1, extra);
    BothLoad(s1, Step(s1, Enter(bound + 1, extra)), bound, bound + 1, extra);
  }

  /** Hold `held` and then send two callers after one more key. */
  ghost function Overfill(held: seq<string>, extra: string): seq<Event> {
    Enters(held) + [Enter(|held|, extra)] + [Enter(|held| + 1, extra)]
  }

  lemma OverfillOverlaps(maxKeys: int, held: seq<string>, extra: string)
    requires |held| >= 1 && extra !in held
    requires Run(maxKeys, Enters(held)) == AllHeld(|held|, held)
    ensures Overlap(Run(maxKeys, Overfill(held, extra)))
  {
    RunThenTwo(maxKeys, Enters(held), Enter(|held|, extra), Enter(|held| + 1, extra));
    TwoIntruders(|held|, held, extra);
  }

  lemma BudgetNecessary(maxKeys: int, keys: set<string>) returns (events: seq<Event>)
    requires |keys| > Init(maxKeys).maxKeys
    ensures UsesOnly(events, keys) && Overlap(Run(maxKeys, events))
  {
    var bound := Init(maxKeys).maxKeys;
    var names := PickNames(keys, bound + 1);
    FillTable(maxKeys, names[..bound]);
    OverfillOverlaps(maxKeys, names[..bound], names[bound]);
    events := Overfill(names[..bound], names[bound]);
    forall e | e in events && e.Enter? ensures e.key in keys {
      assert e.key in names;
    }
  }

  /** Callers that use the keys of `keys` can never run two loaders of one key together,
      whatever the schedule, exactly when there are at most `max_keys` of them. */
  lemma ExclusionExactlyWithinBudget(maxKeys: int, keys: set<string>)
    ensures (forall events :: UsesOnly(events, keys) ==> !Overlap(Run(maxKeys, events)))
            <==> |keys| <= Init(maxKeys).maxKeys
  {
    if |keys| <= Init(maxKeys).maxKeys {
      forall events | UsesOnly(events, keys) ensures !Overlap(Run(maxKeys, events)) {
        BudgetSuffices(maxKeys, events, keys);
      }
    } else {
      var events := BudgetNecessary(maxKeys, keys);
    }
  }
}
