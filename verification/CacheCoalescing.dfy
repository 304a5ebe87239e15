/** Single flight inside the read-through cache: calls and lock tables correspond, and an entry is
    loaded once per fill. */
module CacheCoalescing {
  import opened Wrappers
  import opened GenerationalCache
  import SF = SingleFlight
  import Budget = SingleFlightBudget

  // ---------------------------------------------------------------- calls and lock tables

  /** The calls inside `run` are the callers of the lock table of their own process, under their
      entry's name. */
  ghost predicate CallInFlight(s: State, p: Process, t: SF.Task) {
    var f := FlightOf(s, p);
    && (t in f.tasks <==> p == Home(s, t) && t in s.calls && (s.calls[t].InFlight? || Holding(s.calls[t])))
    && (t in f.tasks ==>
          && f.tasks[t].lock < |f.locks|
          && CallName(s, s.calls[t]) == Some(f.locks[f.tasks[t].lock].key)
          && (Holding(s.calls[t]) ==> f.tasks[t].Loading?))
  }

  ghost predicate FlightsOk(s: State) {
    && s.history != []
    && (forall p :: SF.Inv(FlightOf(s, p)))
    && (forall p, t :: CallInFlight(s, p, t))
  }

  lemma MoveFits(s: State, e: Event, t: SF.Task)
    requires FlightsOk(s) && Enabled(s, e) && Caller(e) == Some(t) && FlightMove(s, e).Some?
    ensures var f := FlightOf(s, Home(s, t)); var m := FlightMove(s, e).value;
            SF.Inv(f) && m.task == t && (m.Enter? <==> t !in f.tasks) && (m.Leave? ==> f.tasks[t].Loading?)
  {
    assert CallInFlight(s, Home(s, t), t) && SF.Inv(FlightOf(s, Home(s, t)));
  }

  /** The lock table's own move, seen from the other callers. */
  lemma MoveAffectsOthers(s: State, e: Event, t: SF.Task)
    requires FlightsOk(s) && Enabled(s, e) && Caller(e) == Some(t) && FlightMove(s, e).Some?
    ensures var f := FlightOf(s, Home(s, t)); var f' := SF.Step(f, FlightMove(s, e).value);
            && SF.SameLockKeys(f, f')
            && (forall u :: u != t ==> (u in f'.tasks <==> u in f.tasks) && (u in f.tasks ==> f'.tasks[u] == f.tasks[u]))
  {
    MoveFits(s, e, t);
    SF.OthersUnmoved(FlightOf(s, Home(s, t)), FlightMove(s, e).value);
  }

  /** And from its own caller. */
  lemma MoveAffectsCaller(s: State, e: Event, t: SF.Task)
    requires FlightsOk(s) && Enabled(s, e) && Caller(e) == Some(t) && FlightMove(s, e).Some?
    ensures var f := FlightOf(s, Home(s, t)); var f' := SF.Step(f, FlightMove(s, e).value);
            match e
            case Enter(_) =>
              && t in f'.tasks && f'.tasks[t].lock < |f'.locks|
              && f'.locks[f'.tasks[t].lock].key == Name(s, s.calls[t].key, s.calls[t].gen)
            case Resume(_) => t in f.tasks && t in f'.tasks && f'.tasks[t].lock == f.tasks[t].lock
            case Exit(_) => t !in f'.tasks
            case Abort(_) => t in f.tasks && (t in f'.tasks <==> InsideLoader(s, t)) &&
                             (t in f'.tasks ==> f'.tasks[t] == f.tasks[t])
            case _ => true
  {
    var f := FlightOf(s, Home(s, t));
    assert CallInFlight(s, Home(s, t), t) && SF.Inv(f);
    match e
    case Enter(_) => SF.EnterCallers(f, t, Name(s, s.calls[t].key, s.calls[t].gen));
    case Resume(_) => SF.ResumeCallers(f, t);
    case Exit(_) => SF.LeaveCallers(f, t);
    case Abort(_) => SF.CancelCallers(f, t);
  }

  lemma MoveKeepsFlight(s: State, e: Event, t: SF.Task)
    requires FlightsOk(s) && Enabled(s, e) && Caller(e) == Some(t) && FlightMove(s, e).Some?
    ensures CallInFlight(Step(s, e), Home(s, t), t)
  {
    assert CallInFlight(s, Home(s, t), t);
    CallerKnown(s, e, t);
    StepLocal(s, e, t);
    MoveAffectsOthers(s, e, t);
    MoveAffectsCaller(s, e, t);
    assert FlightOf(Step(s, e), Home(s, t)) == SF.Step(FlightOf(s, Home(s, t)), FlightMove(s, e).value);
  }

  lemma CallerStaysInFlight(s: State, e: Event, t: SF.Task)
    requires FlightsOk(s) && Enabled(s, e) && FlightMove(s, e).None? && Caller(e) == Some(t)
    ensures CallInFlight(Step(s, e), Home(s, t), t)
  {
    assert CallInFlight(s, Home(s, t), t);
    CallerKnown(s, e, t);
    StepLocal(s, e, t);
  }

  /** What one event leaves alone: other calls, other processes, and where calls live. */
  ghost predicate OnlyMoves(s: State, s': State, t: SF.Task) {
    && s'.ns == s.ns && s'.home == s.home && s'.maxKeys == s.maxKeys
    && (forall u :: u != t ==> (u in s'.calls <==> u in s.calls) && (u in s.calls ==> s'.calls[u] == s.calls[u]))
    && (forall p :: p != Home(s, t) ==> FlightOf(s', p) == FlightOf(s, p))
    && (t in s.calls <==> t in s'.calls)
    && var f, f' := FlightOf(s, Home(s, t)), FlightOf(s', Home(s, t));
       && SF.SameLockKeys(f, f')
       && (forall u :: u != t ==> (u in f'.tasks <==> u in f.tasks) && (u in f.tasks ==> f'.tasks[u] == f.tasks[u]))
  }

  lemma OthersStayInFlight(s: State, s': State, t: SF.Task)
    requires forall p, u :: CallInFlight(s, p, u)
    requires OnlyMoves(s, s', t) && CallInFlight(s', Home(s, t), t)
    ensures forall p, u :: CallInFlight(s', p, u)
  {
    forall p, u ensures CallInFlight(s', p, u) {
      assert CallInFlight(s, p, u);
    }
  }

  lemma CallerKnown(s: State, e: Event, t: SF.Task)
    requires Enabled(s, e) && Caller(e) == Some(t)
    ensures t in s.calls
  {}

  lemma MoveOnlyMoves(s: State, e: Event, t: SF.Task)
    requires FlightsOk(s) && Enabled(s, e) && Caller(e) == Some(t)
    ensures OnlyMoves(s, Step(s, e), t)
  {
    StepLocal(s, e, t);
    CallerKnown(s, e, t);
    var f, f' := FlightOf(s, Home(s, t)), FlightOf(Step(s, e), Home(s, t));
    if FlightMove(s, e).Some? {
      MoveAffectsOthers(s, e, t);
      assert f' == SF.Step(f, FlightMove(s, e).value);
    } else {
      assert f' == f;
    }
  }

  lemma BeginStaysInFlight(s: State, t: SF.Task, p: Process, key: string)
    requires FlightsOk(s) && t !in s.calls
    ensures FlightsOk(Step(s, Begin(t, p, key)))
  {
    var s' := Step(s, Begin(t, p, key));
    forall q ensures FlightOf(s', q) == FlightOf(s, q) {}
    forall q, u ensures CallInFlight(s', q, u) { assert CallInFlight(s, q, u); }
  }

  lemma CallerKeepsFlight(s: State, e: Event, t: SF.Task)
    requires FlightsOk(s) && Enabled(s, e) && Caller(e) == Some(t)
    ensures FlightsOk(Step(s, e))
  {
    MoveOnlyMoves(s, e, t);
    CallerStays(s, e, t);
    CallerKeepsInv(s, e, t);
    OthersStayInFlight(s, Step(s, e), t);
  }

  lemma CallerStays(s: State, e: Event, t: SF.Task)
    requires FlightsOk(s) && Enabled(s, e) && Caller(e) == Some(t)
    ensures CallInFlight(Step(s, e), Home(s, t), t)
  {
    if FlightMove(s, e).Some? { MoveKeepsFlight(s, e, t); } else { CallerStaysInFlight(s, e, t); }
  }

  lemma HistoryStays(s: State, e: Event)
    requires s.history != []
    ensures Step(s, e).history != []
  {}

  lemma CallerKeepsInv(s: State, e: Event, t: SF.Task)
    requires FlightsOk(s) && Enabled(s, e) && Caller(e) == Some(t)
    ensures Step(s, e).history != [] && forall p :: SF.Inv(FlightOf(Step(s, e), p))
  {
    StepLocal(s, e, t);
    HistoryStays(s, e);
    if FlightMove(s, e).Some? {
      assert SF.Inv(FlightOf(s, Home(s, t)));
      SF.StepKeeps(FlightOf(s, Home(s, t)), FlightMove(s, e).value);
    }
    forall p ensures SF.Inv(FlightOf(Step(s, e), p)) { assert SF.Inv(FlightOf(s, p)); }
  }

  /** Events outside any call leave calls and lock tables alone. */
  lemma OutsideKeepsFlight(s: State, e: Event)
    requires FlightsOk(s) && Enabled(s, e) && Caller(e).None? && !e.Begin?
    ensures FlightsOk(Step(s, e))
  {
    var s' := Step(s, e);
    forall p ensures FlightOf(s', p) == FlightOf(s, p) && SF.Inv(FlightOf(s', p)) { assert SF.Inv(FlightOf(s, p)); }
    forall p, u ensures CallInFlight(s', p, u) { assert CallInFlight(s, p, u); }
  }

  lemma StepKeepsFlight(s: State, e: Event)
    requires FlightsOk(s)
    ensures FlightsOk(Step(s, e))
  {
    if Enabled(s, e) {
      if Caller(e).Some? { CallerKeepsFlight(s, e, Caller(e).value); }
      else if e.Begin? { BeginStaysInFlight(s, e.t, e.p, e.key); }
      else { OutsideKeepsFlight(s, e); }
    }
  }

  lemma StepKeepsNames(s: State, e: Event)
    ensures Step(s, e).ns == s.ns && Step(s, e).maxKeys == s.maxKeys
  {}

  lemma {:induction false} RunKeepsFlight(s: State, events: seq<Event>)
    requires FlightsOk(s)
    ensures FlightsOk(RunFrom(s, events)) && RunFrom(s, events).ns == s.ns && RunFrom(s, events).maxKeys == s.maxKeys
  {
    if events != [] {
      RunKeepsFlight(s, events[..|events| - 1]);
      StepKeepsFlight(RunFrom(s, events[..|events| - 1]), events[|events| - 1]);
      StepKeepsNames(RunFrom(s, events[..|events| - 1]), events[|events| - 1]);
    }
  }

  /** Calls and lock tables correspond in every reachable state. */
  lemma ReachableFlightsOk(ns: string, maxKeys: int, counter: Option<int>, content: Content, events: seq<Event>)
    ensures FlightsOk(RunFrom(Init(ns, maxKeys, counter, content), events))
  {
    RunKeepsFlight(Init(ns, maxKeys, counter, content), events);
  }

  /** The moves that a run of the cache makes in the lock table of one process. */
  ghost function Moves(s: State, p: Process, events: seq<Event>): seq<SF.Event> {
    if events == [] then [] else
    var before, last := RunFrom(s, events[..|events| - 1]), events[|events| - 1];
    Moves(s, p, events[..|events| - 1]) +
      if before.history != [] && Enabled(before, last) && FlightMove(before, last).Some?
         && Caller(last).Some? && Home(before, Caller(last).value) == p
      then [FlightMove(before, last).value] else []
  }

  lemma {:induction false} FlightIsARun(s: State, p: Process, events: seq<Event>)
    requires FlightOf(s, p) == SF.Init(s.maxKeys)
    ensures FlightOf(RunFrom(s, events), p) == SF.Run(s.maxKeys, Moves(s, p, events))
    ensures RunFrom(s, events).maxKeys == s.maxKeys
  {
    if events != [] {
      var before, last := events[..|events| - 1], events[|events| - 1];
      FlightIsARun(s, p, before);
      var mid := RunFrom(s, before);
      if mid.history != [] && Enabled(mid, last) && FlightMove(mid, last).Some?
         && Caller(last).Some? && Home(mid, Caller(last).value) == p {
        SF.RunThen(s.maxKeys, Moves(s, p, before), FlightMove(mid, last).value);
      } else {
        assert Moves(s, p, events) == Moves(s, p, before);
      }
    }
  }

  /** In a process that never met more than `max_keys` names no caller ever refers to an evicted lock. */
  lemma WithinBudgetNeverAdrift(ns: string, maxKeys: int, counter: Option<int>, content: Content,
                                events: seq<Event>, p: Process, name: string)
    requires var f := FlightOf(RunFrom(Init(ns, maxKeys, counter, content), events), p); |f.seen| <= f.maxKeys
    ensures !SF.Adrift(FlightOf(RunFrom(Init(ns, maxKeys, counter, content), events), p), name)
  {
    var init := Init(ns, maxKeys, counter, content);
    FlightIsARun(init, p, events);
    Budget.WithinBudgetNothingOrphaned(maxKeys, Moves(init, p, events));
    SF.RunKeeps(maxKeys, Moves(init, p, events));
    if SF.Adrift(FlightOf(RunFrom(init, events), p), name) {
      SF.AdriftWasOrphaned(FlightOf(RunFrom(init, events), p), name);
    }
  }

  // ---------------------------------------------------------------- one load per fill

  // A window: any stretch of a run, from any consistent state on, and the calls of one process on
  // one entry.  `base` is the state at its start.

  ghost predicate OnEntry(s: State, p: Process, t: SF.Task, name: string) {
    t in s.calls && Home(s, t) == p && CallName(s, s.calls[t]) == Some(name)
  }

  /** For this entry and process: the entry stays, stores succeed, nobody inside the loader gives
      up, and nobody else stores under the name. */
  ghost predicate QuietOn(s: State, e: Event, p: Process, name: string) {
    match e
    case Drop(n) => n != name
    case LateStore(key, gen, _) => Name(s, key, gen) != name
    case StoreFails(t, _) => !OnEntry(s, p, t, name)
    case Store(t) => t in s.calls && CallName(s, s.calls[t]) == Some(name) ==> Home(s, t) == p
    case Abort(t) => OnEntry(s, p, t, name) ==> !InsideLoader(s, t)
    case _ => true
  }

  /** And no caller of the entry refers to a lock that is not in the table any more. */
  ghost predicate QuietRun(s: State, events: seq<Event>, p: Process, name: string) {
    && !SF.Adrift(FlightOf(RunFrom(s, events), p), name)
    && (events == [] ||
        (QuietRun(s, events[..|events| - 1], p, name) &&
         QuietOn(RunFrom(s, events[..|events| - 1]), events[|events| - 1], p, name)))
  }

  ghost predicate LoadingName(s: State, p: Process, t: SF.Task, name: string) {
    OnEntry(s, p, t, name) && (s.calls[t].Loading? || s.calls[t].Loaded?)
  }

  /** Decided before the window. */
  ghost predicate Settled(base: State, t: SF.Task) { t in base.calls && (base.calls[t].Leaving? || base.calls[t].Done?) }

  /** The call answers the entry: the same source version, and the stored value as a reader sees it. */
  ghost predicate Answered(base: State, s: State, p: Process, t: SF.Task, name: string) {
    OnEntry(s, p, t, name) && (s.calls[t].Leaving? || s.calls[t].Done?) && !Settled(base, t) ==>
      var o := s.calls[t].outcome;
      name in s.store && o.Value? && o.at == s.store[name].at && Decode(o.v) == Decode(s.store[name].payload)
  }

  function NewLoads(base: State, s: State, p: Process, name: string): int {
    var now: int, before: int := s.loads[Load(p, name)], base.loads[Load(p, name)];
    now - before
  }

  /** The entry is loaded at most once since `base`: before the store one caller may be loading it,
      after that nobody loads it and every answer is the stored one. */
  ghost predicate LoadedOnce(base: State, s: State, p: Process, name: string) {
    && 0 <= NewLoads(base, s, p, name) <= 1
    && (name in s.store ==> NewLoads(base, s, p, name) == 1)
    && (forall t :: LoadingName(s, p, t, name) ==> name !in s.store && NewLoads(base, s, p, name) == 1)
    && (name !in s.store && NewLoads(base, s, p, name) == 1 ==> exists t :: LoadingName(s, p, t, name))
    && (forall t :: Answered(base, s, p, t, name))
  }

  lemma OneLoaderPerName(s: State, p: Process, t: SF.Task, u: SF.Task, name: string)
    requires FlightsOk(s) && !SF.Adrift(FlightOf(s, p), name)
    requires OnEntry(s, p, t, name) && InsideLoader(s, t) && LoadingName(s, p, u, name)
    ensures t == u
  {
    assert CallInFlight(s, p, t) && CallInFlight(s, p, u) && SF.Inv(FlightOf(s, p));
    SF.ExclusionInState(FlightOf(s, p), t, u, name);
  }

  /** A step that keeps the entry, the count and who is loading it. */
  lemma NoLoadNoStore(base: State, s: State, s': State, p: Process, name: string)
    requires LoadedOnce(base, s, p, name) && NewLoads(base, s', p, name) == NewLoads(base, s, p, name)
    requires (name in s'.store <==> name in s.store) && (name in s.store ==> s'.store[name] == s.store[name])
    requires forall t :: LoadingName(s', p, t, name) <==> LoadingName(s, p, t, name)
    requires forall t :: Answered(base, s', p, t, name)
    ensures LoadedOnce(base, s', p, name)
  {
    if t :| LoadingName(s, p, t, name) { assert LoadingName(s', p, t, name); }
  }

  lemma ProbeFinds(base: State, s: State, p: Process, t: SF.Task, name: string)
    requires s.history != [] && Enabled(s, ProbeAgain(t)) && LoadedOnce(base, s, p, name)
    requires Name(s, s.calls[t].key, s.calls[t].gen) in s.store
    ensures LoadedOnce(base, Step(s, ProbeAgain(t)), p, name)
  {
    var s' := Step(s, ProbeAgain(t));
    forall u ensures LoadingName(s', p, u, name) <==> LoadingName(s, p, u, name) {}
    forall u ensures Answered(base, s', p, u, name) { if u != t { assert Answered(base, s, p, u, name); } }
    NoLoadNoStore(base, s, s', p, name);
  }

  lemma ProbeLoadsOther(base: State, s: State, p: Process, t: SF.Task, name: string)
    requires s.history != [] && Enabled(s, ProbeAgain(t)) && LoadedOnce(base, s, p, name)
    requires Name(s, s.calls[t].key, s.calls[t].gen) !in s.store && !OnEntry(s, p, t, name)
    ensures LoadedOnce(base, Step(s, ProbeAgain(t)), p, name)
  {
    var s' := Step(s, ProbeAgain(t));
    forall u ensures LoadingName(s', p, u, name) <==> LoadingName(s, p, u, name) {}
    forall u ensures Answered(base, s', p, u, name) { if u != t { assert Answered(base, s, p, u, name); } }
    NoLoadNoStore(base, s, s', p, name);
  }

  lemma ProbeLoads(base: State, s: State, p: Process, t: SF.Task, name: string)
    requires FlightsOk(s) && Enabled(s, ProbeAgain(t)) && LoadedOnce(base, s, p, name)
    requires !SF.Adrift(FlightOf(s, p), name) && name !in s.store && OnEntry(s, p, t, name)
    ensures LoadedOnce(base, Step(s, ProbeAgain(t)), p, name)
  {
    var s' := Step(s, ProbeAgain(t));
    if u :| LoadingName(s, p, u, name) { OneLoaderPerName(s, p, t, u, name); }
    assert LoadingName(s', p, t, name);
    forall u ensures Answered(base, s', p, u, name) { if u != t { assert Answered(base, s, p, u, name); } }
  }

  lemma StoresOther(base: State, s: State, p: Process, t: SF.Task, name: string)
    requires s.history != [] && Enabled(s, Store(t)) && LoadedOnce(base, s, p, name)
    requires CallName(s, s.calls[t]) != Some(name)
    ensures LoadedOnce(base, Step(s, Store(t)), p, name)
  {
    var s' := Step(s, Store(t));
    forall u ensures LoadingName(s', p, u, name) <==> LoadingName(s, p, u, name) {}
    forall u ensures Answered(base, s', p, u, name) { if u != t { assert Answered(base, s, p, u, name); } }
    NoLoadNoStore(base, s, s', p, name);
  }

  lemma Stores(base: State, s: State, p: Process, t: SF.Task, name: string)
    requires FlightsOk(s) && Enabled(s, Store(t)) && LoadedOnce(base, s, p, name)
    requires !SF.Adrift(FlightOf(s, p), name) && OnEntry(s, p, t, name)
    ensures LoadedOnce(base, Step(s, Store(t)), p, name)
  {
    var s' := Step(s, Store(t));
    assert LoadingName(s, p, t, name) && CallInFlight(s, p, t);
    forall u ensures !LoadingName(s', p, u, name) {
      if LoadingName(s', p, u, name) { assert LoadingName(s, p, u, name); OneLoaderPerName(s, p, t, u, name); }
    }
    forall u ensures Answered(base, s', p, u, name) { if u != t { assert Answered(base, s, p, u, name); } }
  }

  lemma EntryStays(s: State, e: Event, p: Process, name: string)
    requires s.history != [] && Enabled(s, e) && QuietOn(s, e, p, name) && !e.Store?
    ensures var s' := Step(s, e); (name in s'.store <==> name in s.store) && (name in s.store ==> s'.store[name] == s.store[name])
  {}

  predicate HitOutcome(s: State, name: string, o: Outcome) {
    name in s.store && o == Value(Decode(s.store[name].payload), s.store[name].at)
  }

  /** What an own event short of a load or a store does to the call. */
  ghost predicate OwnMove(s: State, e: Event, p: Process, name: string, t: SF.Task, c': Call)
    requires t in s.calls
  {
    var c := s.calls[t];
    && (e.ReadGeneration? || e.Abort? || CallName(s, c') == CallName(s, c))
    && (e.ReadGeneration? ==> c.Begun? && c'.Keyed?)
    && (e.Abort? && OnEntry(s, p, t, name) && !InsideLoader(s, t) ==> c'.Failed?)
    && (e.Abort? ==> c'.Failed? || (c'.Leaving? && CallName(s, c') == CallName(s, c)))
    && (e.Probe? ==> c.Keyed? && (c'.Missed? || (c'.Done? && HitOutcome(s, Name(s, c.key, c.gen), c'.outcome))))
    && (e.Exit? ==> c.Leaving? && c'.Done? && c'.outcome == c.outcome)
    && (e.LoadEnd? ==> c.Loading? && c'.Loaded?)
    && (e.Enter? ==> c.Missed? && c'.InFlight?)
    && (e.Resume? ==> c.InFlight? && c' == c)
    && (e.StoreFails? ==> c.Loaded? && c'.Leaving?)
  }

  lemma OwnCall(s: State, e: Event, p: Process, name: string, t: SF.Task)
    requires s.history != [] && Enabled(s, e) && QuietOn(s, e, p, name) && !e.ProbeAgain? && !e.Store? && Caller(e) == Some(t)
    ensures t in s.calls && OwnMove(s, e, p, name, t, CallAfter(s, t, e))
  {}

  /** Such an event neither begins nor ends loading, and if it decides the call, then by a hit. */
  lemma OwnMoveEffect(s: State, s': State, e: Event, p: Process, name: string, t: SF.Task, c': Call)
    requires t in s.calls && OwnMove(s, e, p, name, t, c') && QuietOn(s, e, p, name)
    requires Caller(e) == Some(t) && !e.ProbeAgain? && !e.Store?
    requires s'.ns == s.ns && s'.home == s.home && s'.calls == s.calls[t := c']
    requires s.calls[t].Loading? || s.calls[t].Loaded? ==> InsideLoader(s, t)
    ensures LoadingName(s', p, t, name) <==> LoadingName(s, p, t, name)
    ensures OnEntry(s', p, t, name) && (c'.Leaving? || c'.Done?) ==>
              (OnEntry(s, p, t, name) && s.calls[t].Leaving? && c'.outcome == s.calls[t].outcome) || HitOutcome(s, name, c'.outcome)
  {}

  lemma OwnStep(s: State, e: Event, p: Process, name: string, t: SF.Task)
    requires FlightsOk(s) && Enabled(s, e) && QuietOn(s, e, p, name) && !e.ProbeAgain? && !e.Store? && Caller(e) == Some(t)
    ensures var s' := Step(s, e);
            && s'.ns == s.ns && Home(s', t) == Home(s, t) && t in s.calls && t in s'.calls
            && (LoadingName(s', p, t, name) <==> LoadingName(s, p, t, name))
            && (OnEntry(s', p, t, name) && (s'.calls[t].Leaving? || s'.calls[t].Done?) ==>
                  || (OnEntry(s, p, t, name) && s.calls[t].Leaving? && s'.calls[t].outcome == s.calls[t].outcome)
                  || HitOutcome(s, name, s'.calls[t].outcome))
  {
    StepLocal(s, e, t);
    OwnCall(s, e, p, name, t);
    assert s.calls[t].Loading? || s.calls[t].Loaded? ==> InsideLoader(s, t) by { assert CallInFlight(s, Home(s, t), t); }
    OwnMoveEffect(s, Step(s, e), e, p, name, t, CallAfter(s, t, e));
  }

  /** The calls of the others, and whatever the event does to its own call short of a load. */
  lemma OtherStepAnswered(base: State, s: State, e: Event, p: Process, name: string, t: SF.Task)
    requires FlightsOk(s) && Enabled(s, e) && QuietOn(s, e, p, name) && !e.ProbeAgain? && !e.Store?
    requires LoadedOnce(base, s, p, name)
    ensures Answered(base, Step(s, e), p, t, name)
    ensures LoadingName(Step(s, e), p, t, name) <==> LoadingName(s, p, t, name)
  {
    assert Answered(base, s, p, t, name);
    EntryStays(s, e, p, name);
    if Caller(e) == Some(t) { OwnStep(s, e, p, name, t); } else { OthersStay(s, e, t); }
  }

  lemma OtherStepLoadedOnce(base: State, s: State, e: Event, p: Process, name: string)
    requires FlightsOk(s) && Enabled(s, e) && QuietOn(s, e, p, name) && !e.ProbeAgain? && !e.Store?
    requires LoadedOnce(base, s, p, name)
    ensures LoadedOnce(base, Step(s, e), p, name)
  {
    forall t
      ensures LoadingName(Step(s, e), p, t, name) <==> LoadingName(s, p, t, name)
      ensures Answered(base, Step(s, e), p, t, name)
    {
      OtherStepAnswered(base, s, e, p, name, t);
    }
    NoLoadNoStore(base, s, Step(s, e), p, name);
  }

  lemma StepLoadedOnce(base: State, s: State, e: Event, p: Process, name: string)
    requires FlightsOk(s) && QuietOn(s, e, p, name) && !SF.Adrift(FlightOf(s, p), name) && LoadedOnce(base, s, p, name)
    ensures LoadedOnce(base, Step(s, e), p, name)
  {
    if Enabled(s, e) {
      match e
      case ProbeAgain(t) =>
        if Name(s, s.calls[t].key, s.calls[t].gen) in s.store { ProbeFinds(base, s, p, t, name); }
        else if OnEntry(s, p, t, name) { ProbeLoads(base, s, p, t, name); }
        else { ProbeLoadsOther(base, s, p, t, name); }
      case Store(t) =>
        if OnEntry(s, p, t, name) { Stores(base, s, p, t, name); } else { StoresOther(base, s, p, t, name); }
      case _ => OtherStepLoadedOnce(base, s, e, p, name);
    }
  }

  lemma {:induction false} RunLoadedOnce(base: State, events: seq<Event>, p: Process, name: string)
    requires FlightsOk(base) && name !in base.store && (forall t :: !LoadingName(base, p, t, name))
    requires QuietRun(base, events, p, name)
    ensures LoadedOnce(base, RunFrom(base, events), p, name)
  {
    if events != [] {
      RunKeepsFlight(base, events[..|events| - 1]);
      RunLoadedOnce(base, events[..|events| - 1], p, name);
      StepLoadedOnce(base, RunFrom(base, events[..|events| - 1]), events[|events| - 1], p, name);
    }
  }

  /** Take any moment of any run at which an entry is absent and nobody of a process is loading it.
      While the entry, once stored, stays, its store succeeds, nobody inside its loader gives up, no
      other process stores it and none of its callers refers to an evicted lock: once one call of
      the process on the entry is done, there has been exactly one loader run, and all calls done
      since then give the same answer from the same source version (one may see the marker that
      another reads as nothing).  Whatever happens to other entries and in other processes. */
  lemma Coalesced(base: State, events: seq<Event>, p: Process, name: string, t: SF.Task, u: SF.Task)
    requires FlightsOk(base) && name !in base.store && (forall v :: !LoadingName(base, p, v, name))
    requires QuietRun(base, events, p, name)
    requires var s := RunFrom(base, events);
             && OnEntry(s, p, t, name) && s.calls[t].Done? && !Settled(base, t)
             && OnEntry(s, p, u, name) && s.calls[u].Done? && !Settled(base, u)
    ensures var s := RunFrom(base, events); var a, b := s.calls[t].outcome, s.calls[u].outcome;
            && s.loads[Load(p, name)] == base.loads[Load(p, name)] + 1
            && a.Value? && b.Value? && a.at == b.at && Decode(a.v) == Decode(b.v)
            && (a.v == b.v || a.v == MARKER || b.v == MARKER)
  {
    RunLoadedOnce(base, events, p, name);
    var s := RunFrom(base, events);
    assert Answered(base, s, p, t, name) && Answered(base, s, p, u, name);
  }
}
