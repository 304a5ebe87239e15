/** Where the freshness of the read-through cache ends: counters that are not stored, and setters
    that read the generation late. */
module CacheLimits {
  import opened Wrappers
  import opened GenerationalCache
  import opened CacheCoalescing
  import SF = SingleFlight
  import Budget = SingleFlightBudget

  // ---------------------------------------------------------------- where freshness ends

  lemma RunThen(s: State, events: seq<Event>, e: Event)
    ensures RunFrom(s, events + [e]) == Step(RunFrom(s, events), e)
    ensures RunDisciplined(s, events) && Disciplined(RunFrom(s, events), e) ==> RunDisciplined(s, events + [e])
  {
    assert (events + [e])[..|events|] == events;
  }

  /** Task `t` looks `key` up and finds it. */
  ghost function Reading(t: SF.Task, key: string): seq<Event> {
    [Begin(t, 0, key)] + [ReadGeneration(t)] + [Probe(t)]
  }

  ghost function Entering(key: string): seq<Event> { Reading(0, key) + [Enter(0)] }

  /** Task 0 fills `key` up to the store. */
  ghost function Filling(key: string): seq<Event> { Entering(key) + [ProbeAgain(0)] + [LoadEnd(0, 0)] + [Store(0)] }

  lemma RunThree(s: State, a: Event, b: Event, c: Event)
    ensures RunFrom(s, [a] + [b] + [c]) == Step(Step(Step(s, a), b), c)
  {
    RunThen(s, [], a);
    assert [] + [a] == [a];
    RunThen(s, [a], b);
    RunThen(s, [a] + [b], c);
  }

  lemma ReadingMisses(s: State, t: SF.Task, key: string)
    requires s.history != [] && t !in s.calls && Name(s, key, Effective(s.counter)) !in s.store
    ensures Step(Step(Step(s, Begin(t, 0, key)), ReadGeneration(t)), Probe(t)) ==
            s.(calls := s.calls[t := Missed(key, Effective(s.counter))], home := s.home[t := 0])
  {
    var begun := Step(s, Begin(t, 0, key));
    assert begun == s.(calls := s.calls[t := Begun(key)], home := s.home[t := 0]);
    var keyed := Step(begun, ReadGeneration(t));
    assert keyed == begun.(calls := begun.calls[t := Keyed(key, Effective(s.counter))]);
    assert Step(keyed, Probe(t)).calls == s.calls[t := Missed(key, Effective(s.counter))];
  }

  lemma FillingMisses(ns: string, maxKeys: int, counter: Option<int>, content: Content, key: string)
    ensures var init := Init(ns, maxKeys, counter, content);
            RunFrom(init, Reading(0, key)) == init.(calls := map[0 := Missed(key, Effective(counter))], home := map[0 := 0])
  {
    ReadingIsThreeSteps(Init(ns, maxKeys, counter, content), 0, key);
    ReadingMisses(Init(ns, maxKeys, counter, content), 0, key);
  }

  lemma FillingStarts(ns: string, maxKeys: int, counter: Option<int>, content: Content, key: string)
    ensures var init := Init(ns, maxKeys, counter, content);
            var s := RunFrom(init, Entering(key));
            && s == init.(flights := s.flights, calls := map[0 := InFlight(key, Effective(counter))], home := map[0 := 0])
            && InsideLoader(s, 0)
  {
    var init := Init(ns, maxKeys, counter, content);
    FillingMisses(ns, maxKeys, counter, content, key);
    RunThen(init, Reading(0, key), Enter(0));
    Budget.FirstCallerLoads(maxKeys, Name(init, key, Effective(counter)));
  }

  lemma ProbeAgainMisses(s: State, t: SF.Task, key: string, gen: nat)
    requires s.history != [] && t in s.calls && s.calls[t] == InFlight(key, gen) && InsideLoader(s, t)
    requires Name(s, key, gen) !in s.store
    ensures Step(s, ProbeAgain(t)) == s.(calls := s.calls[t := Loading(key, gen, Now(s))],
                                         loads := s.loads + multiset{Load(Home(s, t), Name(s, key, gen))})
  {}

  lemma LoadEnds(s: State, t: SF.Task, key: string, gen: nat, at: nat)
    requires t in s.calls && s.calls[t].Loading? && s.calls[t].from <= at < |s.history|
    requires s.calls[t].key == key && s.calls[t].gen == gen
    ensures Step(s, LoadEnd(t, at)) == s.(calls := s.calls[t := Loaded(key, gen, Lookup(s.history[at], key), at)])
  {}

  lemma StoreEffect(s: State, t: SF.Task, key: string, gen: nat, v: Json, at: nat)
    requires s.history != [] && t in s.calls && s.calls[t] == Loaded(key, gen, v, at)
    ensures Step(s, Store(t)) == s.(store := s.store[Name(s, key, gen) := Entry(Encode(v), at)],
                                    calls := s.calls[t := Leaving(key, gen, Value(v, at))])
  {}

  /** The caller inside the lock finds nothing, loads and stores. */
  lemma LoadsAndStores(s: State, key: string, gen: nat)
    requires s.history != [] && s.store == map[] && s.calls == map[0 := InFlight(key, gen)] && InsideLoader(s, 0)
    ensures var s' := Step(Step(Step(s, ProbeAgain(0)), LoadEnd(0, Now(s))), Store(0));
            && s'.store == map[Name(s, key, gen) := Entry(Encode(Lookup(s.history[Now(s)], key)), Now(s))]
            && s'.counter == s.counter && s'.history == s.history && s'.ns == s.ns && s'.calls.Keys == {0}
            && s'.floors == s.floors
  {
    ProbeAgainMisses(s, 0, key, gen);
    var loading := Step(s, ProbeAgain(0));
    LoadEnds(loading, 0, key, gen, Now(s));
    StoreEffect(Step(loading, LoadEnd(0, Now(s))), 0, key, gen, Lookup(s.history[Now(s)], key), Now(s));
  }

  lemma FillingStores(ns: string, maxKeys: int, counter: Option<int>, content: Content, key: string)
    ensures var s := RunFrom(Init(ns, maxKeys, counter, content), Filling(key));
            && s.store == map[Name(s, key, Effective(counter)) := Entry(Encode(Lookup(content, key)), 0)]
            && s.counter == counter && s.history == [content] && s.ns == ns && s.calls.Keys == {0}
            && s.floors == Init(ns, maxKeys, counter, content).floors
  {
    var init := Init(ns, maxKeys, counter, content);
    FillingStarts(ns, maxKeys, counter, content, key);
    var start := Entering(key);
    RunThen(init, start, ProbeAgain(0));
    RunThen(init, start + [ProbeAgain(0)], LoadEnd(0, 0));
    RunThen(init, start + [ProbeAgain(0)] + [LoadEnd(0, 0)], Store(0));
    LoadsAndStores(RunFrom(init, start), key, Effective(counter));
  }

  lemma ReadingSteps(s: State, t: SF.Task, key: string, entry: Entry)
    requires s.history != [] && t !in s.calls
    requires Name(s, key, Effective(s.counter)) in s.store && s.store[Name(s, key, Effective(s.counter))] == entry
    ensures var s' := Step(Step(Step(s, Begin(t, 0, key)), ReadGeneration(t)), Probe(t));
            && t in s'.calls && s'.history == s.history && s'.floors == s.floors
            && s'.calls[t] == Done(key, Effective(s.counter), Value(Decode(entry.payload), entry.at))
  {
    var begun := Step(s, Begin(t, 0, key));
    assert begun == s.(calls := s.calls[t := Begun(key)], home := s.home[t := 0]);
    var keyed := Step(begun, ReadGeneration(t));
    assert keyed == begun.(calls := begun.calls[t := Keyed(key, Effective(s.counter))]);
  }

  lemma ReadingIsThreeSteps(s: State, t: SF.Task, key: string)
    ensures RunFrom(s, Reading(t, key)) == Step(Step(Step(s, Begin(t, 0, key)), ReadGeneration(t)), Probe(t))
  {
    RunThree(s, Begin(t, 0, key), ReadGeneration(t), Probe(t));
  }

  lemma ReadingDisciplined(s: State, t: SF.Task, key: string)
    ensures RunDisciplined(s, Reading(t, key))
  {
    WithoutLateStores(s, Reading(t, key));
  }

  lemma ReadingHits(s: State, t: SF.Task, key: string, entry: Entry)
    requires s.history != [] && t !in s.calls
    requires Name(s, key, Effective(s.counter)) in s.store && s.store[Name(s, key, Effective(s.counter))] == entry
    ensures var s' := RunFrom(s, Reading(t, key));
            && t in s'.calls && s'.history == s.history && s'.floors == s.floors
            && s'.calls[t] == Done(key, Effective(s.counter), Value(Decode(entry.payload), entry.at))
    ensures RunDisciplined(s, Reading(t, key))
  {
    ReadingIsThreeSteps(s, t, key);
    ReadingDisciplined(s, t, key);
    ReadingSteps(s, t, key, entry);
  }

  lemma {:induction false} WithoutLateStores(s: State, events: seq<Event>)
    requires forall e :: e in events ==> !e.LateStore?
    ensures RunDisciplined(s, events)
  {
    if events != [] {
      assert events[|events| - 1] in events;
      WithoutLateStores(s, events[..|events| - 1]);
    }
  }

  /** A run up to a bump of a counter in state `counter`, and a call begun after it that ends. */
  ghost predicate BumpThenCall(s: State, after: seq<Event>, t: SF.Task) {
    && RunDisciplined(Step(s, Bump), after)
    && t !in s.calls
    && var s' := RunFrom(Step(s, Bump), after); t in s'.calls && s'.calls[t].Done? && s'.calls[t].outcome.Value?
  }

  /** The call answers with a source version older than the one current at the bump. */
  ghost predicate AnswersOld(s: State, after: seq<Event>, t: SF.Task)
    requires BumpThenCall(s, after, t)
  {
    RunFrom(Step(s, Bump), after).calls[t].outcome.at < |s.history| - 1
  }

  ghost predicate Reachable(s: State) {
    exists ns, maxKeys, counter, content, events ::
      && RunDisciplined(Init(ns, maxKeys, counter, content), events)
      && s == RunFrom(Init(ns, maxKeys, counter, content), events)
  }

  lemma WriteEffect(s: State, content: Content)
    requires s.history != []
    ensures Step(s, Write(content)) == s.(history := s.history + [content])
  {}

  lemma FillingWithoutLateStores(key: string)
    ensures forall e :: e in Filling(key) ==> !e.LateStore?
  {
    var start := Entering(key);
    assert forall e :: e in start ==> !e.LateStore?;
  }

  lemma ReachableByFilling(ns: string, maxKeys: int, counter: Option<int>, content: Content, key: string, update: Content)
    ensures Reachable(Step(RunFrom(Init(ns, maxKeys, counter, content), Filling(key)), Write(update)))
  {
    var init := Init(ns, maxKeys, counter, content);
    FillingWithoutLateStores(key);
    var filling := Filling(key);
    WithoutLateStores(init, filling + [Write(update)]);
    RunThen(init, filling, Write(update));
  }

  lemma FilledThenWritten(counter: Option<int>) returns (s: State)
    ensures Reachable(s) && s.counter == counter
    ensures Name(s, "k", Effective(counter)) in s.store
    ensures s.store[Name(s, "k", Effective(counter))] == Entry(Num(0), 0)
    ensures |s.history| == 2 && 1 !in s.calls
  {
    var content, update := map["k" := Num(0)], map["k" := Num(1)];
    var filled := RunFrom(Init("ns", 1, counter, content), Filling("k"));
    FillingStores("ns", 1, counter, content, "k");
    ReachableByFilling("ns", 1, counter, content, "k", update);
    WriteEffect(filled, update);
    s := Step(filled, Write(update));
  }

  /** The bump of a counter that is not stored is invisible to callers. */
  lemma UnstoredBump(s: State)
    requires s.history != [] && !CounterStored(s.counter)
    ensures var b := Step(s, Bump);
            && Effective(b.counter) == Effective(s.counter)
            && b == s.(counter := b.counter)
  {
    BumpMovesGeneration(s.counter);
  }

  lemma UnstoredCounterServesOld(counter: Option<int>) returns (s: State)
    requires !CounterStored(counter)
    ensures Reachable(s) && s.counter == counter
    ensures BumpThenCall(s, Reading(1, "k"), 1) && AnswersOld(s, Reading(1, "k"), 1)
  {
    s := FilledThenWritten(counter);
    UnstoredBump(s);
    ReadingHits(Step(s, Bump), 1, "k", Entry(Num(0), 0));
  }

  /** A bump protects the calls begun after it from every older value exactly when the counter
      was already stored: the first bump of a fresh namespace (or of a counter below 1) leaves
      the effective generation where it was. */
  lemma BumpProtectsExactlyWhenStored(counter: Option<int>)
    ensures (forall s, after, t :: Reachable(s) && s.counter == counter && BumpThenCall(s, after, t)
               ==> !AnswersOld(s, after, t))
            <==> CounterStored(counter)
  {
    if CounterStored(counter) {
      forall s, after, t | Reachable(s) && s.counter == counter && BumpThenCall(s, after, t)
        ensures !AnswersOld(s, after, t)
      {
        var ns, maxKeys, counter0, content, events :|
          && RunDisciplined(Init(ns, maxKeys, counter0, content), events)
          && s == RunFrom(Init(ns, maxKeys, counter0, content), events);
        FreshAfterBump(ns, maxKeys, counter0, content, events, after, t);
      }
    } else {
      var s := UnstoredCounterServesOld(counter);
    }
  }

  // ---------------------------------------------------------------- setters that read the generation late

  // A setter's caller reads its data from the source in state `s`; after `between` the setter reads
  // the generation; and after `pending` it stores under the generation it read.

  ghost predicate Written(events: seq<Event>) {
    events != [] && (events[|events| - 1].Write? || Written(events[..|events| - 1]))
  }

  /** Some event is a bump that finds a counter stored. */
  ghost predicate BumpedWhenStored(s: State, events: seq<Event>) {
    events != [] && (LastBumpsStored(s, events) || BumpedWhenStored(s, events[..|events| - 1]))
  }

  /** Some event is such a bump, and a write came before it. */
  ghost predicate WrittenThenBumped(s: State, events: seq<Event>) {
    events != [] &&
    ((LastBumpsStored(s, events) && Written(events[..|events| - 1])) || WrittenThenBumped(s, events[..|events| - 1]))
  }

  ghost predicate LastBumpsStored(s: State, events: seq<Event>)
    requires events != []
  {
    events[|events| - 1].Bump? && CounterStored(RunFrom(s, events[..|events| - 1]).counter)
  }

  ghost function LateStored(s: State, between: seq<Event>, pending: seq<Event>, key: string): State
    requires s.history != []
  {
    var read := RunFrom(s, between);
    Step(RunFrom(read, pending), LateStore(key, Effective(read.counter), Now(s)))
  }

  /** The answer of the call is settled, or there will be none. */
  predicate Decided(c: Call) { c.Leaving? || c.Done? || c.Failed? }

  /** A call of the key, begun before or after the store but not decided at the store, that answers. */
  ghost predicate LateReader(s: State, between: seq<Event>, pending: seq<Event>, key: string, after: seq<Event>, t: SF.Task) {
    && s.history != []
    && var stored := LateStored(s, between, pending, key);
       && RunDisciplined(stored, after) && (t in stored.calls ==> !Decided(stored.calls[t]))
       && var s' := RunFrom(stored, after);
          t in s'.calls && s'.calls[t].Done? && s'.calls[t].outcome.Value? && s'.calls[t].key == key
  }

  /** Every call of the key not decided at the store, whether it began before or begins later, answers
      with data as recent as the generation it reads, whatever happens after the store. */
  ghost predicate LateStoreProtected(s: State, between: seq<Event>, pending: seq<Event>, key: string) {
    forall after, t :: LateReader(s, between, pending, key, after, t) ==>
      AsRecentAsItsGeneration(RunFrom(LateStored(s, between, pending, key), after), t)
  }

  ghost predicate AsRecentAsItsGeneration(s: State, t: SF.Task) {
    t in s.calls && s.calls[t].Done? && s.calls[t].outcome.Value? ==>
      var c := s.calls[t];
      Recent(s, c.gen, c.outcome.at) && Faithful(s, c.key, c.outcome.v, c.outcome.at)
  }

  /** The current generation began after the data was read exactly when the source was written and
      then a stored counter bumped; and the history moved exactly when there was a write. */
  lemma {:induction false} FloorMovedExactly(s: State, between: seq<Event>)
    requires FloorsOk(s)
    ensures var s' := RunFrom(s, between);
            && FloorsOk(s') && s.history <= s'.history && s.floors <= s'.floors && s'.ns == s.ns
            && (s'.floors[Effective(s'.counter)] > Now(s) <==> WrittenThenBumped(s, between))
            && (|s'.history| > |s.history| <==> Written(between))
  {
    if between != [] {
      var earlier, last := between[..|between| - 1], between[|between| - 1];
      FloorMovedExactly(s, earlier);
      StepGrows(RunFrom(s, earlier), last);
    }
  }

  /** The effective generation moved exactly when a stored counter was bumped. */
  lemma {:induction false} GenerationMovedExactly(s: State, events: seq<Event>)
    requires FloorsOk(s)
    ensures var s' := RunFrom(s, events);
            && FloorsOk(s') && s.history <= s'.history && s'.ns == s.ns
            && Effective(s'.counter) >= Effective(s.counter)
            && (Effective(s'.counter) > Effective(s.counter) <==> BumpedWhenStored(s, events))
  {
    if events != [] {
      GenerationMovedExactly(s, events[..|events| - 1]);
      StepGrows(RunFrom(s, events[..|events| - 1]), events[|events| - 1]);
    }
  }

  lemma FreshTask(calls: map<SF.Task, Call>) returns (t: SF.Task)
    ensures t !in calls
  {
    t := AboveAll(calls.Keys);
  }

  lemma {:induction false} AboveAll(ts: set<nat>) returns (n: nat)
    ensures forall t :: t in ts ==> t < n
  {
    if ts == {} {
      n := 0;
    } else {
      var t :| t in ts;
      var m := AboveAll(ts - {t});
      n := if m > t then m else t + 1;
      forall u | u in ts ensures u < n { assert u == t || u in ts - {t}; }
    }
  }

  lemma LateStoreEffect(s: State, key: string, gen: nat, at: nat)
    requires at < |s.history| && gen <= Effective(s.counter)
    ensures Step(s, LateStore(key, gen, at)) ==
            s.(store := s.store[Name(s, key, gen) := Entry(Encode(Lookup(s.history[at], key)), at)])
  {}

  /** What the store leaves behind. */
  lemma LateStoreStores(s: State, between: seq<Event>, pending: seq<Event>, key: string)
    requires FloorsOk(s)
    ensures var read := RunFrom(s, between); var s2, s3 := RunFrom(read, pending), LateStored(s, between, pending, key);
            && FloorsOk(s2) && s.history <= s2.history && s2.ns == s.ns && Effective(read.counter) <= Effective(s2.counter)
            && s3 == s2.(store := s2.store[Name(s2, key, Effective(read.counter)) :=
                                           Entry(Encode(Lookup(s.history[Now(s)], key)), Now(s))])
  {
    var read := RunFrom(s, between);
    FloorMovedExactly(s, between);
    GenerationMovedExactly(read, pending);
    LateStoreEffect(RunFrom(read, pending), key, Effective(read.counter), Now(s));
  }

  lemma {:induction false} RunAppend(s: State, xs: seq<Event>, ys: seq<Event>)
    ensures RunFrom(s, xs + ys) == RunFrom(RunFrom(s, xs), ys)
    ensures RunDisciplined(s, xs) && RunDisciplined(RunFrom(s, xs), ys) ==> RunDisciplined(s, xs + ys)
  {
    if ys == [] {
      assert xs + ys == xs;
    } else {
      assert (xs + ys)[..|xs + ys| - 1] == xs + ys[..|ys| - 1];
      RunAppend(s, xs, ys[..|ys| - 1]);
    }
  }

  lemma OneStep(s: State, e: Event)
    ensures RunFrom(s, [e]) == Step(s, e)
    ensures !e.LateStore? ==> RunDisciplined(s, [e])
  {
    assert [e][..0] == [];
    assert RunFrom(s, [e][..0]) == s && RunDisciplined(s, []);
  }

  // A stale entry and a call that may still look it up: some schedule serves it.

  /** What a schedule that only clears the way for call `t` leaves alone. */
  ghost predicate WayCleared(s: State, s': State, t: SF.Task) {
    && FlightsOk(s') && s'.ns == s.ns && s'.store == s.store && s'.floors == s.floors && s'.history == s.history
    && s'.home == s.home && t in s.calls && t in s'.calls && s'.calls[t] == s.calls[t]
  }

  lemma WayClearedTrans(s: State, m: State, s': State, t: SF.Task)
    requires WayCleared(s, m, t) && WayCleared(m, s', t)
    ensures WayCleared(s, s', t)
  {}

  /** The other callers that refer to the lock of `t`. */
  ghost function Rivals(f: SF.State, t: SF.Task): set<SF.Task>
    requires t in f.tasks
  {
    set u | u in f.tasks && u != t && f.tasks[u].lock == f.tasks[t].lock
  }

  lemma ExitEffect(s: State, u: SF.Task)
    requires FlightsOk(s) && u in s.calls && s.calls[u].Leaving?
    ensures var s' := Step(s, Exit(u)); var p := Home(s, u);
            && u in FlightOf(s, p).tasks && FlightOf(s', p).tasks == FlightOf(s, p).tasks - {u}
            && s'.calls == s.calls[u := Done(s.calls[u].key, s.calls[u].gen, s.calls[u].outcome)]
            && s'.ns == s.ns && s'.store == s.store && s'.floors == s.floors && s'.history == s.history && s'.home == s.home
  {
    var p := Home(s, u);
    assert CallInFlight(s, p, u) && SF.Inv(FlightOf(s, p));
    SF.LeaveCallers(FlightOf(s, p), u);
    StepLocal(s, Exit(u), u);
  }

  /** A caller inside the lock gives up: it is leaving, still under the lock. */
  lemma AbortInsideEffect(s: State, u: SF.Task)
    requires FlightsOk(s) && u in s.calls && InsideLoader(s, u) && !s.calls[u].Leaving?
    ensures var s' := Step(s, Abort(u));
            && FlightOf(s', Home(s, u)).tasks == FlightOf(s, Home(s, u)).tasks
            && u in s'.calls && s'.calls == s.calls[u := s'.calls[u]] && s'.calls[u].Leaving?
            && s'.ns == s.ns && s'.store == s.store && s'.floors == s.floors && s'.history == s.history && s'.home == s.home
  {
    var p := Home(s, u);
    assert CallInFlight(s, p, u) && SF.Inv(FlightOf(s, p));
    if s.calls[u].InFlight? { SF.CancelCallers(FlightOf(s, p), u); }
    StepLocal(s, Abort(u), u);
  }

  /** A queued caller gives up and is gone. */
  lemma AbortQueuedEffect(s: State, u: SF.Task)
    requires FlightsOk(s) && u in s.calls && u in FlightOf(s, Home(s, u)).tasks && !InsideLoader(s, u)
    ensures var s' := Step(s, Abort(u)); var p := Home(s, u);
            && FlightOf(s', p).tasks == FlightOf(s, p).tasks - {u}
            && u in s'.calls && s'.calls == s.calls[u := s'.calls[u]]
            && s'.ns == s.ns && s'.store == s.store && s'.floors == s.floors && s'.history == s.history && s'.home == s.home
  {
    var p := Home(s, u);
    assert CallInFlight(s, p, u) && SF.Inv(FlightOf(s, p));
    SF.CancelCallers(FlightOf(s, p), u);
    StepLocal(s, Abort(u), u);
  }

  /** One caller of a process leaves the lock table; the entries and the other calls stay. */
  lemma RivalLeaves(s: State, t: SF.Task, u: SF.Task) returns (events: seq<Event>)
    requires FlightsOk(s) && t in s.calls && u != t
    requires u in FlightOf(s, Home(s, t)).tasks
    ensures RunDisciplined(s, events) && WayCleared(s, RunFrom(s, events), t)
    ensures FlightOf(RunFrom(s, events), Home(s, t)).tasks == FlightOf(s, Home(s, t)).tasks - {u}
  {
    assert CallInFlight(s, Home(s, t), u);
    if s.calls[u].Leaving? {
      events := [Exit(u)];
      OneStep(s, Exit(u));
      ExitEffect(s, u);
      StepKeepsFlight(s, Exit(u));
    } else if InsideLoader(s, u) {
      events := [Abort(u)] + [Exit(u)];
      OneStep(s, Abort(u));
      AbortInsideEffect(s, u);
      StepKeepsFlight(s, Abort(u));
      var mid := Step(s, Abort(u));
      OneStep(mid, Exit(u));
      ExitEffect(mid, u);
      StepKeepsFlight(mid, Exit(u));
      RunAppend(s, [Abort(u)], [Exit(u)]);
    } else {
      events := [Abort(u)];
      OneStep(s, Abort(u));
      AbortQueuedEffect(s, u);
      StepKeepsFlight(s, Abort(u));
    }
  }

  lemma RivalGone(f: SF.State, f': SF.State, t: SF.Task, u: SF.Task)
    requires t in f.tasks && u in Rivals(f, t) && f'.tasks == f.tasks - {u}
    ensures t in f'.tasks && f'.tasks[t] == f.tasks[t]
    ensures Rivals(f', t) == Rivals(f, t) - {u} && |Rivals(f', t)| < |Rivals(f, t)|
  {
    assert Rivals(f', t) == Rivals(f, t) - {u};
  }

  /** The way is clear, and nobody else refers to the lock of `t`. */
  ghost predicate Alone(s: State, s': State, t: SF.Task) {
    && WayCleared(s, s', t)
    && var f, f' := FlightOf(s, Home(s, t)), FlightOf(s', Home(s, t));
       t in f.tasks && t in f'.tasks && f'.tasks[t] == f.tasks[t] && Rivals(f', t) == {}
  }

  lemma AloneTrans(s: State, m: State, s': State, t: SF.Task)
    requires WayCleared(s, m, t) && Alone(m, s', t)
    requires var f, g := FlightOf(s, Home(s, t)), FlightOf(m, Home(s, t));
             t in f.tasks && t in g.tasks && g.tasks[t] == f.tasks[t]
    ensures Alone(s, s', t)
  {
    WayClearedTrans(s, m, s', t);
  }

  /** Everybody else who refers to the lock of `t` can be made to leave. */
  lemma {:induction false} RivalsLeave(s: State, t: SF.Task) returns (events: seq<Event>)
    requires FlightsOk(s) && t in s.calls && t in FlightOf(s, Home(s, t)).tasks
    ensures RunDisciplined(s, events) && Alone(s, RunFrom(s, events), t)
    decreases |Rivals(FlightOf(s, Home(s, t)), t)|
  {
    var f := FlightOf(s, Home(s, t));
    if Rivals(f, t) == {} {
      events := [];
    } else {
      var u :| u in Rivals(f, t);
      var first := RivalLeaves(s, t, u);
      var mid := RunFrom(s, first);
      RivalGone(f, FlightOf(mid, Home(s, t)), t, u);
      var rest := RivalsLeave(mid, t);
      events := first + rest;
      RunAppend(s, first, rest);
      AloneTrans(s, mid, RunFrom(mid, rest), t);
    }
  }

  /** A queued caller without rivals has been woken. */
  lemma AloneIsWoken(f: SF.State, t: SF.Task)
    requires SF.Inv(f) && t in f.tasks && f.tasks[t].Queued? && Rivals(f, t) == {}
    ensures SF.Enabled(f, SF.Resume(t))
  {
    var id := f.tasks[t].lock;
    assert SF.TaskOk(f, t);
    var l := f.locks[id];
    assert SF.LockOk(l, id, f.tasks);
    assert t in l.waiters;
    forall u ensures u in f.tasks && u != t && f.tasks[u].lock == id <==> u in Rivals(f, t) {}
    assert !l.locked;
    assert l.waiters[0] in l.waiters;
  }

  lemma ResumeEffect(s: State, t: SF.Task)
    requires FlightsOk(s) && t in s.calls && s.calls[t].InFlight?
    requires SF.Enabled(FlightOf(s, Home(s, t)), SF.Resume(t))
    ensures WayCleared(s, Step(s, Resume(t)), t) && InsideLoader(Step(s, Resume(t)), t)
  {
    var p := Home(s, t);
    assert CallInFlight(s, p, t) && SF.Inv(FlightOf(s, p));
    SF.ResumeCallers(FlightOf(s, p), t);
    StepLocal(s, Resume(t), t);
    StepKeepsFlight(s, Resume(t));
  }

  /** A call that waits for its lock can get it without anything happening to the entries. */
  lemma GetsItsLock(s: State, t: SF.Task) returns (events: seq<Event>)
    requires FlightsOk(s) && t in s.calls && s.calls[t].InFlight?
    ensures RunDisciplined(s, events) && WayCleared(s, RunFrom(s, events), t) && InsideLoader(RunFrom(s, events), t)
  {
    assert CallInFlight(s, Home(s, t), t);
    events := RivalsLeave(s, t);
    var mid := RunFrom(s, events);
    if !InsideLoader(mid, t) {
      assert SF.Inv(FlightOf(mid, Home(mid, t)));
      AloneIsWoken(FlightOf(mid, Home(mid, t)), t);
      ResumeEffect(mid, t);
      OneStep(mid, Resume(t));
      WayClearedTrans(s, mid, Step(mid, Resume(t)), t);
      RunAppend(s, events, [Resume(t)]);
      events := events + [Resume(t)];
    }
  }

  /** The call answered the entry, unchanged since `s`. */
  ghost predicate Serves(s: State, events: seq<Event>, t: SF.Task, key: string, gen: nat, entry: Entry) {
    && RunDisciplined(s, events)
    && var s' := RunFrom(s, events);
       && s'.floors == s.floors && t in s'.calls
       && s'.calls[t] == Done(key, gen, Value(Decode(entry.payload), entry.at))
  }

  lemma InsideIsServed(s: State, t: SF.Task, key: string, gen: nat, entry: Entry)
    requires FlightsOk(s) && t in s.calls && s.calls[t] == InFlight(key, gen) && InsideLoader(s, t)
    requires Name(s, key, gen) in s.store && s.store[Name(s, key, gen)] == entry
    ensures Serves(s, [ProbeAgain(t)] + [Exit(t)], t, key, gen, entry)
  {
    var mid := Step(s, ProbeAgain(t));
    OneStep(s, ProbeAgain(t));
    StepKeepsFlight(s, ProbeAgain(t));
    StepLocal(s, ProbeAgain(t), t);
    OneStep(mid, Exit(t));
    ExitEffect(mid, t);
    RunAppend(s, [ProbeAgain(t)], [Exit(t)]);
  }

  lemma WaitingIsServed(s: State, t: SF.Task, key: string, gen: nat, entry: Entry) returns (events: seq<Event>)
    requires FlightsOk(s) && t in s.calls && s.calls[t] == InFlight(key, gen)
    requires Name(s, key, gen) in s.store && s.store[Name(s, key, gen)] == entry
    ensures Serves(s, events, t, key, gen, entry)
  {
    var cleared := GetsItsLock(s, t);
    var mid := RunFrom(s, cleared);
    InsideIsServed(mid, t, key, gen, entry);
    RunAppend(s, cleared, [ProbeAgain(t)] + [Exit(t)]);
    events := cleared + ([ProbeAgain(t)] + [Exit(t)]);
  }

  lemma ProbeServes(s: State, t: SF.Task, key: string, gen: nat, entry: Entry)
    requires s.history != [] && t in s.calls && s.calls[t] == Keyed(key, gen)
    requires Name(s, key, gen) in s.store && s.store[Name(s, key, gen)] == entry
    ensures Serves(s, [Probe(t)], t, key, gen, entry)
  {
    OneStep(s, Probe(t));
    StepLocal(s, Probe(t), t);
  }

  lemma EnterEffect(s: State, t: SF.Task, key: string, gen: nat)
    requires s.history != [] && t in s.calls && s.calls[t] == Missed(key, gen)
    ensures var s' := Step(s, Enter(t));
            s'.calls == s.calls[t := InFlight(key, gen)] && s'.store == s.store && s'.ns == s.ns && s'.floors == s.floors
  {
    StepLocal(s, Enter(t), t);
  }

  /** Whoever may still look the entry up can be served it. */
  lemma MayBeServed(s: State, t: SF.Task, key: string, gen: nat, entry: Entry) returns (events: seq<Event>)
    requires FlightsOk(s) && t in s.calls && MayLookUp(s.calls[t], Slot(key, gen))
    requires Name(s, key, gen) in s.store && s.store[Name(s, key, gen)] == entry
    ensures Serves(s, events, t, key, gen, entry)
  {
    if s.calls[t].Keyed? {
      ProbeServes(s, t, key, gen, entry);
      events := [Probe(t)];
    } else if s.calls[t].Missed? {
      EnterEffect(s, t, key, gen);
      StepKeepsFlight(s, Enter(t));
      OneStep(s, Enter(t));
      var rest := WaitingIsServed(Step(s, Enter(t)), t, key, gen, entry);
      RunAppend(s, [Enter(t)], rest);
      events := [Enter(t)] + rest;
    } else {
      events := WaitingIsServed(s, t, key, gen, entry);
    }
  }

  /** And so can a call that begins while the generation is still the entry's. */
  lemma NewcomerServed(s: State, key: string, entry: Entry) returns (t: SF.Task)
    requires FloorsOk(s)
    requires Name(s, key, Effective(s.counter)) in s.store && s.store[Name(s, key, Effective(s.counter))] == entry
    ensures t !in s.calls && Serves(s, Reading(t, key), t, key, Effective(s.counter), entry)
  {
    t := FreshTask(s.calls);
    ReadingHits(s, t, key, entry);
  }

  /** What `between` and `pending` make of the setter's entry. */
  lemma LateEntry(s: State, between: seq<Event>, pending: seq<Event>, key: string)
    requires FloorsOk(s) && WrittenThenBumped(s, between)
    ensures var gen := Effective(RunFrom(s, between).counter); var s3 := LateStored(s, between, pending, key);
            && FloorsOk(s3) && gen < |s3.floors| && Now(s) < s3.floors[gen]
            && Name(s3, key, gen) in s3.store
            && s3.store[Name(s3, key, gen)] == Entry(Encode(Lookup(s.history[Now(s)], key)), Now(s))
            && (BumpedWhenStored(RunFrom(s, between), pending) <==> Effective(s3.counter) != gen)
            && s3.calls == RunFrom(RunFrom(s, between), pending).calls
  {
    var read := RunFrom(s, between);
    FloorMovedExactly(s, between);
    FloorMovedExactly(read, pending);
    GenerationMovedExactly(read, pending);
    LateStoreStores(s, between, pending, key);
  }

  lemma ServedIsStale(s: State, events: seq<Event>, t: SF.Task, key: string, gen: nat, entry: Entry)
    requires gen < |s.floors| && entry.at < s.floors[gen] && Serves(s, events, t, key, gen, entry)
    ensures !AsRecentAsItsGeneration(RunFrom(s, events), t)
  {}

  lemma LateStoreBroken(s: State, between: seq<Event>, pending: seq<Event>, key: string)
    requires FloorsOk(s) && WrittenThenBumped(s, between) && FlightsOk(LateStored(s, between, pending, key))
    requires var read := RunFrom(s, between);
             !BumpedWhenStored(read, pending) || LookedUp(RunFrom(read, pending), Slot(key, Effective(read.counter)))
    ensures !LateStoreProtected(s, between, pending, key)
  {
    LateEntry(s, between, pending, key);
    var read, s3 := RunFrom(s, between), LateStored(s, between, pending, key);
    var gen, entry := Effective(read.counter), Entry(Encode(Lookup(s.history[Now(s)], key)), Now(s));
    var t, after;
    if !BumpedWhenStored(read, pending) {
      t := NewcomerServed(s3, key, entry);
      after := Reading(t, key);
    } else {
      t :| t in s3.calls && MayLookUp(s3.calls[t], Slot(key, gen));
      after := MayBeServed(s3, t, key, gen, entry);
    }
    ServedIsStale(s3, after, t, key, gen, entry);
    assert LateReader(s, between, pending, key, after, t);
  }

  /** What is fresh after the store, but for an entry nobody will look up, stays so. */
  lemma FreshIsProtected(s: State, between: seq<Event>, pending: seq<Event>, key: string, hole: Option<Slot>)
    requires FloorsOk(s) && FreshBut(LateStored(s, between, pending, key), hole)
    ensures LateStoreProtected(s, between, pending, key)
  {
    var s3 := LateStored(s, between, pending, key);
    forall after, t | LateReader(s, between, pending, key, after, t)
      ensures AsRecentAsItsGeneration(RunFrom(s3, after), t)
    {
      RunKeepsFresh(s3, hole, after);
      assert CallFresh(RunFrom(s3, after), RunFrom(s3, after).calls[t]);
    }
  }

  lemma LateStoreKept(s: State, between: seq<Event>, pending: seq<Event>, key: string)
    requires Fresh(s) && RunDisciplined(s, between) && RunDisciplined(RunFrom(s, between), pending)
    requires var read := RunFrom(s, between);
             || !WrittenThenBumped(s, between)
             || (BumpedWhenStored(read, pending) && !LookedUp(RunFrom(read, pending), Slot(key, Effective(read.counter))))
    ensures LateStoreProtected(s, between, pending, key)
  {
    var read := RunFrom(s, between);
    FloorMovedExactly(s, between);
    FloorMovedExactly(read, pending);
    GenerationMovedExactly(read, pending);
    RunKeepsFresh(s, None, between);
    RunKeepsFresh(read, None, pending);
    var s2, gen, entry := RunFrom(read, pending), Effective(read.counter), Entry(Encode(Lookup(s.history[Now(s)], key)), Now(s));
    LateStoreStores(s, between, pending, key);
    if WrittenThenBumped(s, between) {
      Punched(s2, Slot(key, gen));
      StoredFresh(s2, Some(Slot(key, gen)), key, gen, entry);
      FreshIsProtected(s, between, pending, key, Some(Slot(key, gen)));
    } else {
      StoredFresh(s2, None, key, gen, entry);
      FreshIsProtected(s, between, pending, key, None);
    }
  }

  lemma Punched(s: State, slot: Slot)
    requires Fresh(s) && Effective(s.counter) > slot.gen && !LookedUp(s, slot)
    ensures FreshBut(s, Some(slot))
  {}

  lemma {:induction false} RunsAreOk(ns: string, maxKeys: int, counter: Option<int>, content: Content,
                                     events: seq<Event>, between: seq<Event>, pending: seq<Event>, key: string)
    ensures var s := RunFrom(Init(ns, maxKeys, counter, content), events);
            s.history != [] && FlightsOk(LateStored(s, between, pending, key))
  {
    var s := RunFrom(Init(ns, maxKeys, counter, content), events);
    ReachableFlightsOk(ns, maxKeys, counter, content, events);
    RunKeepsFlight(s, between);
    var read := RunFrom(s, between);
    RunKeepsFlight(read, pending);
    StepKeepsFlight(RunFrom(read, pending), LateStore(key, Effective(read.counter), Now(s)));
  }

  /** A setter that reads the generation only when it is about to store.  Every call of the key that
      is not decided at the store, whenever it began, is protected, for every key and whatever happens
      afterwards, exactly when
      - between the reading of the setter's data and its reading of the generation the source was not
        written with a stored counter bumped after that; or
      - a stored counter is bumped once more before the store, and at the store no call of the key that
        may still look it up holds the generation the setter read. */
  lemma LateStoreProtectsExactly(s: State, between: seq<Event>, pending: seq<Event>, key: string)
    requires Reachable(s) && RunDisciplined(s, between) && RunDisciplined(RunFrom(s, between), pending)
    ensures var read := RunFrom(s, between);
            LateStoreProtected(s, between, pending, key) <==>
              || !WrittenThenBumped(s, between)
              || (BumpedWhenStored(read, pending) && !LookedUp(RunFrom(read, pending), Slot(key, Effective(read.counter))))
  {
    var ns, maxKeys, counter, content, events :|
      && RunDisciplined(Init(ns, maxKeys, counter, content), events)
      && s == RunFrom(Init(ns, maxKeys, counter, content), events);
    RunKeepsFresh(Init(ns, maxKeys, counter, content), None, events);
    RunsAreOk(ns, maxKeys, counter, content, events, between, pending, key);
    var read := RunFrom(s, between);
    if WrittenThenBumped(s, between) &&
       (!BumpedWhenStored(read, pending) || LookedUp(RunFrom(read, pending), Slot(key, Effective(read.counter)))) {
      LateStoreBroken(s, between, pending, key);
    } else {
      LateStoreKept(s, between, pending, key);
    }
  }

  /** Call `t` answered `v` although the source holds `w`. */
  ghost predicate Outdated(s: State, t: SF.Task, key: string, v: Json, w: Json) {
    && s.history != [] && Lookup(s.history[Now(s)], key) == w
    && t in s.calls && s.calls[t].Done? && s.calls[t].outcome.Value? && s.calls[t].outcome.v == v
  }

  /** And it does happen: read `v`, write `w`, bump, read the generation, store, and a call begun
      after all that answers `v`. */
  lemma LateStoreServesOld(key: string, v: Json, w: Json) returns (s: State, between: seq<Event>, after: seq<Event>)
    requires v != MARKER
    ensures Reachable(s) && WrittenThenBumped(s, between) && LateReader(s, between, [], key, after, 0)
    ensures Outdated(RunFrom(LateStored(s, between, [], key), after), 0, key, v, w)
  {
    s := Init("ns", 1, Some(1), map[key := v]);
    assert RunFrom(s, []) == s && RunDisciplined(s, []);
    var content := map[key := w];
    WriteThenBump(s, content);
    between, after := [Write(content)] + [Bump], Reading(0, key);
    LateStoreStores(s, between, [], key);
    var s3 := LateStored(s, between, [], key);
    assert s3.history == [map[key := v], content];
    NegativeRoundTrip(v);
    ReadingHits(s3, 0, key, Entry(Encode(v), 0));
  }

  /** A reader gets its name, and the counter is bumped once more. */
  ghost function ReaderThenBump(t: SF.Task, key: string): seq<Event> { [Begin(t, 0, key)] + [ReadGeneration(t)] + [Bump] }

  lemma TakesName(s: State, t: SF.Task, key: string)
    requires s.history != [] && t !in s.calls
    ensures Step(Step(s, Begin(t, 0, key)), ReadGeneration(t)) ==
            s.(calls := s.calls[t := Keyed(key, Effective(s.counter))], home := s.home[t := 0])
  {
    var begun := Step(s, Begin(t, 0, key));
    assert begun == s.(calls := s.calls[t := Begun(key)], home := s.home[t := 0]);
    StepLocal(begun, ReadGeneration(t), t);
  }

  lemma NameTaken(s: State, t: SF.Task, key: string)
    requires s.history != [] && t !in s.calls
    ensures RunFrom(s, [Begin(t, 0, key)] + [ReadGeneration(t)]) ==
            s.(calls := s.calls[t := Keyed(key, Effective(s.counter))], home := s.home[t := 0])
  {
    OneStep(s, Begin(t, 0, key));
    RunThen(s, [Begin(t, 0, key)], ReadGeneration(t));
    TakesName(s, t, key);
  }

  lemma ReaderWaits(s: State, t: SF.Task, key: string)
    requires s.history != [] && CounterStored(s.counter) && t !in s.calls
    ensures var s2 := RunFrom(s, ReaderThenBump(t, key));
            && BumpedWhenStored(s, ReaderThenBump(t, key))
            && s2.history == s.history && s2.calls == s.calls[t := Keyed(key, Effective(s.counter))]
  {
    var two := [Begin(t, 0, key)] + [ReadGeneration(t)];
    NameTaken(s, t, key);
    RunThen(s, two, Bump);
    assert ReaderThenBump(t, key)[..2] == two;
    assert LastBumpsStored(s, ReaderThenBump(t, key));
  }

  /** A further bump before the store does not help a reader that has its name already. */
  lemma WaitingReaderServed(s: State, between: seq<Event>, t: SF.Task, key: string)
    requires FloorsOk(s) && WrittenThenBumped(s, between)
    requires CounterStored(RunFrom(s, between).counter) && t !in RunFrom(s, between).calls
    ensures var pending := ReaderThenBump(t, key); var read := RunFrom(s, between);
            && BumpedWhenStored(read, pending)
            && LateReader(s, between, pending, key, [Probe(t)], t)
            && var s' := RunFrom(LateStored(s, between, pending, key), [Probe(t)]);
               && s'.history == read.history && t in s'.calls
               && s'.calls[t] == Done(key, Effective(read.counter),
                                      Value(Decode(Encode(Lookup(s.history[Now(s)], key))), Now(s)))
  {
    var read, pending := RunFrom(s, between), ReaderThenBump(t, key);
    FloorMovedExactly(s, between);
    ReaderWaits(read, t, key);
    LateEntry(s, between, pending, key);
    LateStoreStores(s, between, pending, key);
    var s3 := LateStored(s, between, pending, key);
    ProbeServes(s3, t, key, Effective(read.counter), Entry(Encode(Lookup(s.history[Now(s)], key)), Now(s)));
    OneStep(s3, Probe(t));
    ProbeKeepsHistory(s3, t);
  }

  /** And that happens, too: read `v`, write `w`, bump, read the generation; a call begins and reads it
      as well; bump, store, and the call, begun after the write and its bump, answers `v`. */
  lemma LateStoreServesWaiting(key: string, v: Json, w: Json)
    returns (s: State, between: seq<Event>, pending: seq<Event>, after: seq<Event>)
    requires v != MARKER
    ensures Reachable(s) && WrittenThenBumped(s, between) && BumpedWhenStored(RunFrom(s, between), pending)
    ensures LateReader(s, between, pending, key, after, 0) && 0 !in RunFrom(s, between).calls
    ensures Outdated(RunFrom(LateStored(s, between, pending, key), after), 0, key, v, w)
  {
    s := Init("ns", 1, Some(1), map[key := v]);
    assert RunFrom(s, []) == s && RunDisciplined(s, []);
    var content := map[key := w];
    WriteThenBump(s, content);
    between, pending, after := [Write(content)] + [Bump], ReaderThenBump(0, key), [Probe(0)];
    WaitingReaderServed(s, between, 0, key);
    NegativeRoundTrip(v);
  }

  lemma ProbeKeepsHistory(s: State, t: SF.Task)
    requires s.history != []
    ensures Step(s, Probe(t)).history == s.history
  {}

  lemma WriteThenBump(s: State, content: Content)
    requires s.history != [] && CounterStored(s.counter)
    ensures var between := [Write(content)] + [Bump];
            && WrittenThenBumped(s, between)
            && RunFrom(s, between).history == s.history + [content] && RunFrom(s, between).calls == s.calls
            && CounterStored(RunFrom(s, between).counter)
  {
    var between := [Write(content)] + [Bump];
    RunThen(s, [], Write(content));
    assert [] + [Write(content)] == [Write(content)] == between[..1];
    RunThen(s, [Write(content)], Bump);
    assert Written(between[..1]) && LastBumpsStored(s, between);
  }
}
