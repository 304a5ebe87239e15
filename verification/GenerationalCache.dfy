/** Read-through cache with a generation counter in the key (`cache_get_or_set_json`), over one
    Redis and any number of processes, each with a single-flight table of its own.

    Every Redis command, every resumption that touches a lock table and every source write
    is one event; any number of calls in any number of processes interleave freely.  A cached
    entry may vanish at any moment (expiry, eviction, deletion).  Redis commands of this module
    do not fail, except for the store, whose failure the policy may swallow.
 */
module GenerationalCache {
  import opened Wrappers
  import opened CacheKeys
  import SF = SingleFlight

  // ---------------------------------------------------------------- values

  datatype Json =
    | Null
    | Bool(b: bool)
    | Num(n: int)
    | Str(s: string)
    | Arr(items: seq<Json>)
    | Obj(fields: map<string, Json>)

  const MARKER: Json := Obj(map["__troop_cache_state__" := Str("negative")])

  /** What is stored for a loaded value: a marker stands for "nothing". */
  function Encode(v: Json): Json { if v == Null then MARKER else v }

  function Decode(payload: Json): Json { if payload == MARKER then Null else payload }

  /** Values survive the cache, `Null` included, with the marker itself as the one exception. */
  lemma NegativeRoundTrip(v: Json)
    ensures Decode(Encode(v)) == v <==> v != MARKER
    ensures Encode(v) != Null
  {}

  // ---------------------------------------------------------------- state

  type Content = map<string, Json>

  function Lookup(c: Content, key: string): Json { if key in c then c[key] else Null }

  /** `at` records the source version the payload was read from. */
  datatype Entry = Entry(payload: Json, at: nat)

  datatype Outcome = Value(v: Json, at: nat) | Raised

  datatype Call =
    | Begun(key: string)
    | Keyed(key: string, gen: nat)
    | Missed(key: string, gen: nat)
    | InFlight(key: string, gen: nat)
    | Loading(key: string, gen: nat, from: nat)
    | Loaded(key: string, gen: nat, v: Json, at: nat)
    | Leaving(key: string, gen: nat, outcome: Outcome)
    | Done(key: string, gen: nat, outcome: Outcome)
    | Failed

  type Process = nat

  /** A loader start. */
  datatype Load = Load(process: Process, name: string)

  /** `history` is every committed content of the source; `floors[g]` is the version that was
      current when the effective generation became `g`; `home` is the process of a call and
      `flights` the lock table of a process; `loads` logs loader starts. */
  datatype State = State(
    ns: string,
    counter: Option<int>,
    history: seq<Content>,
    floors: seq<nat>,
    store: map<string, Entry>,
    maxKeys: int,
    flights: map<Process, SF.State>,
    home: map<SF.Task, Process>,
    calls: map<SF.Task, Call>,
    loads: multiset<Load>)

  datatype Event =
    | Write(content: Content)
    | Bump
    | Drop(name: string)
    | Begin(t: SF.Task, p: Process, key: string)
    | ReadGeneration(t: SF.Task)
    | Probe(t: SF.Task)
    | Enter(t: SF.Task)
    | Resume(t: SF.Task)
    | ProbeAgain(t: SF.Task)
    | LoadEnd(t: SF.Task, at: nat)
    | Store(t: SF.Task)
    | StoreFails(t: SF.Task, failOpen: bool)
    | Exit(t: SF.Task)
    | Abort(t: SF.Task)
    | LateStore(key: string, gen: nat, at: nat)

  /** `max(1, int(raw or 1))`. */
  function Effective(counter: Option<int>): nat {
    match counter
    case None => 1
    case Some(n) => if n < 1 then 1 else n
  }

  /** Redis INCR: an absent counter becomes 1. */
  function Increment(counter: Option<int>): Option<int> {
    match counter
    case None => Some(1)
    case Some(n) => Some(n + 1)
  }

  predicate CounterStored(counter: Option<int>) { counter.Some? && counter.value >= 1 }

  /** The bump moves the effective generation exactly when the counter is already stored. */
  lemma BumpMovesGeneration(counter: Option<int>)
    ensures Effective(Increment(counter)) == Effective(counter) + (if CounterStored(counter) then 1 else 0)
  {}

  function Init(ns: string, maxKeys: int, counter: Option<int>, content: Content): State {
    State(ns, counter, [content], seq(Effective(counter) + 1, _ => 0), map[], maxKeys, map[], map[], map[], multiset{})
  }

  function Now(s: State): nat
    requires s.history != []
  {
    |s.history| - 1
  }

  function Name(s: State, key: string, gen: nat): string { VersionedKey(s.ns, gen, key) }

  function CallName(s: State, c: Call): Option<string> {
    if c.Begun? || c.Failed? then None else Some(Name(s, c.key, c.gen))
  }

  // ---------------------------------------------------------------- transitions

  predicate Holding(c: Call) { c.Loading? || c.Loaded? || c.Leaving? }

  function Home(s: State, t: SF.Task): Process { if t in s.home then s.home[t] else 0 }

  /** The lock table of a process, new if the process has not used it yet. */
  function FlightOf(s: State, p: Process): SF.State { if p in s.flights then s.flights[p] else SF.Init(s.maxKeys) }

  predicate InsideLoader(s: State, t: SF.Task) {
    var f := FlightOf(s, Home(s, t)); t in f.tasks && f.tasks[t].Loading?
  }

  predicate Enabled(s: State, e: Event) {
    match e
    case Write(_) => true
    case Bump => true
    case Drop(name) => name in s.store
    case Begin(t, _, _) => t !in s.calls
    case ReadGeneration(t) => t in s.calls && s.calls[t].Begun?
    case Probe(t) => t in s.calls && s.calls[t].Keyed?
    case Enter(t) => t in s.calls && s.calls[t].Missed?
    case Resume(t) => t in s.calls && s.calls[t].InFlight?
    case ProbeAgain(t) => t in s.calls && s.calls[t].InFlight? && InsideLoader(s, t)
    case LoadEnd(t, at) => t in s.calls && s.calls[t].Loading? && s.calls[t].from <= at < |s.history|
    case Store(t) => t in s.calls && s.calls[t].Loaded?
    case StoreFails(t, _) => t in s.calls && s.calls[t].Loaded?
    case Exit(t) => t in s.calls && s.calls[t].Leaving?
    case Abort(t) => t in s.calls && !s.calls[t].Done? && !s.calls[t].Failed?
    case LateStore(_, gen, at) => gen <= Effective(s.counter) && at < |s.history|
  }

  /** The move of the caller's lock table that an event makes, if any. */
  function FlightMove(s: State, e: Event): Option<SF.Event>
    requires Enabled(s, e)
  {
    match e
    case Enter(t) => Some(SF.Enter(t, Name(s, s.calls[t].key, s.calls[t].gen)))
    case Resume(t) => Some(SF.Resume(t))
    case Exit(t) => Some(SF.Leave(t))
    case Abort(t) => if s.calls[t].InFlight? then Some(SF.Cancel(t)) else None
    case _ => None
  }

  function Caller(e: Event): Option<SF.Task> {
    match e
    case Write(_) => None
    case Bump => None
    case Drop(_) => None
    case LateStore(_, _, _) => None
    case Begin(_, _, _) => None
    case ReadGeneration(t) => Some(t)
    case Probe(t) => Some(t)
    case Enter(t) => Some(t)
    case Resume(t) => Some(t)
    case ProbeAgain(t) => Some(t)
    case LoadEnd(t, _) => Some(t)
    case Store(t) => Some(t)
    case StoreFails(t, _) => Some(t)
    case Exit(t) => Some(t)
    case Abort(t) => Some(t)
  }

  function CallAfter(s: State, t: SF.Task, e: Event): Call
    requires Enabled(s, e) && Caller(e) == Some(t) && s.history != []
  {
    var c := s.calls[t];
    match e
    case ReadGeneration(_) => Keyed(c.key, Effective(s.counter))
    case Probe(_) =>
      var name := Name(s, c.key, c.gen);
      if name in s.store then Done(c.key, c.gen, Value(Decode(s.store[name].payload), s.store[name].at))
      else Missed(c.key, c.gen)
    case Enter(_) => InFlight(c.key, c.gen)
    case ProbeAgain(_) =>
      var name := Name(s, c.key, c.gen);
      if name in s.store then Leaving(c.key, c.gen, Value(Decode(s.store[name].payload), s.store[name].at))
      else Loading(c.key, c.gen, Now(s))
    case LoadEnd(_, at) => Loaded(c.key, c.gen, Lookup(s.history[at], c.key), at)
    case Store(_) => Leaving(c.key, c.gen, Value(c.v, c.at))
    case StoreFails(_, failOpen) => Leaving(c.key, c.gen, if failOpen then Value(c.v, c.at) else Raised)
    case Exit(_) => Done(c.key, c.gen, c.outcome)
    case Abort(_) =>
      if InsideLoader(s, t) && (c.InFlight? || Holding(c)) then Leaving(c.key, c.gen, Raised) else Failed
    case _ => c
  }

  /** The effect on Redis and on the source. */
  function SharedAfter(s: State, e: Event): State
    requires Enabled(s, e) && s.history != []
  {
    match e
    case Write(content) => s.(history := s.history + [content])
    case Bump =>
      var counter := Increment(s.counter);
      s.(counter := counter, floors := if Effective(counter) > Effective(s.counter) then s.floors + [Now(s)] else s.floors)
    case Drop(name) => s.(store := s.store - {name})
    case Begin(t, p, key) => s.(calls := s.calls[t := Begun(key)], home := s.home[t := p])
    case ProbeAgain(t) =>
      var name := Name(s, s.calls[t].key, s.calls[t].gen);
      if name in s.store then s else s.(loads := s.loads + multiset{Load(Home(s, t), name)})
    case Store(t) =>
      var c := s.calls[t];
      s.(store := s.store[Name(s, c.key, c.gen) := Entry(Encode(c.v), c.at)])
    case LateStore(key, gen, at) =>
      s.(store := s.store[Name(s, key, gen) := Entry(Encode(Lookup(s.history[at], key)), at)])
    case _ => s
  }

  function Moved(s: State, p: Process, move: SF.Event): map<Process, SF.State> {
    s.flights[p := SF.Step(FlightOf(s, p), move)]
  }

  function Step(s: State, e: Event): State {
    if s.history == [] || !Enabled(s, e) then s else
    var shared := SharedAfter(s, e);
    var move := FlightMove(s, e);
    var caller := Caller(e);
    shared.(
      flights := if move.Some? && caller.Some? then Moved(s, Home(s, caller.value), move.value) else s.flights,
      calls := if caller.Some? then shared.calls[caller.value := CallAfter(s, caller.value, e)] else shared.calls)
  }

  function RunFrom(s: State, events: seq<Event>): State {
    if events == [] then s else Step(RunFrom(s, events[..|events| - 1]), events[|events| - 1])
  }

  // ---------------------------------------------------------------- freshness

  /** `v` is the source's value in version `at`, up to the marker. */
  ghost predicate Faithful(s: State, key: string, v: Json, at: nat) {
    && at < |s.history|
    && var source := Lookup(s.history[at], key); v == source || v == Decode(Encode(source))
  }

  ghost predicate FloorsOk(s: State) {
    && s.history != []
    && |s.floors| == Effective(s.counter) + 1
    && (forall g, h :: 0 <= g <= h < |s.floors| ==> s.floors[g] <= s.floors[h])
    && s.floors[Effective(s.counter)] < |s.history|
  }

  /** Version `at` is not older than the moment generation `gen` began. */
  ghost predicate Recent(s: State, gen: nat, at: nat) {
    gen < |s.floors| && s.floors[gen] <= at < |s.history|
  }

  ghost predicate OutcomeOk(s: State, key: string, gen: nat, o: Outcome) {
    o.Value? ==> Recent(s, gen, o.at) && Faithful(s, key, o.v, o.at)
  }

  ghost predicate CallFresh(s: State, c: Call) {
    match c
    case Begun(_) => true
    case Keyed(_, gen) => gen < |s.floors|
    case Missed(_, gen) => gen < |s.floors|
    case InFlight(_, gen) => gen < |s.floors|
    case Loading(_, gen, from) => Recent(s, gen, from)
    case Loaded(key, gen, v, at) => Recent(s, gen, at) && v == Lookup(s.history[at], key)
    case Leaving(key, gen, o) => OutcomeOk(s, key, gen, o)
    case Done(key, gen, o) => OutcomeOk(s, key, gen, o)
    case Failed => true
  }

  ghost predicate EntryFresh(s: State, key: string, gen: nat) {
    Name(s, key, gen) in s.store ==>
      var entry := s.store[Name(s, key, gen)];
      && Recent(s, gen, entry.at)
      && entry.payload == Encode(Lookup(s.history[entry.at], key))
  }

  ghost predicate Fresh(s: State) { FreshBut(s, None) }

  /** An entry, stored or not. */
  datatype Slot = Slot(key: string, gen: nat)

  /** The call is still going to look the entry up. */
  predicate MayLookUp(c: Call, slot: Slot) {
    (c.Keyed? || c.Missed? || c.InFlight?) && c.key == slot.key && c.gen == slot.gen
  }

  ghost predicate LookedUp(s: State, slot: Slot) { exists t :: t in s.calls && MayLookUp(s.calls[t], slot) }

  /** Nobody looks the entry up any more, and nobody will. */
  ghost predicate Closed(s: State, slot: Slot) {
    Effective(s.counter) > slot.gen && forall t :: t in s.calls ==> !MayLookUp(s.calls[t], slot)
  }

  /** Everything is fresh, except perhaps one entry that nobody will look up. */
  ghost predicate FreshBut(s: State, hole: Option<Slot>) {
    && FloorsOk(s)
    && CallsFresh(s)
    && EntriesFresh(s, hole)
    && (hole.Some? ==> Closed(s, hole.value))
  }

  ghost predicate CallsFresh(s: State) {
    forall t :: t in s.calls ==> CallFresh(s, s.calls[t])
  }

  ghost predicate EntriesFresh(s: State, hole: Option<Slot>) {
    forall key, gen: nat :: hole != Some(Slot(key, gen)) ==> EntryFresh(s, key, gen)
  }

  /** A setter that reads the generation only when it is about to store (the access-list,
      memory-context and retrieval setters) keeps the promise if its data is not older than the
      generation it read. */
  ghost predicate Disciplined(s: State, e: Event) {
    e.LateStore? ==> Recent(s, e.gen, e.at)
  }

  lemma StoredFresh(s: State, hole: Option<Slot>, key: string, gen: nat, entry: Entry)
    requires FreshBut(s, hole)
    requires hole != Some(Slot(key, gen)) ==>
               Recent(s, gen, entry.at) && entry.payload == Encode(Lookup(s.history[entry.at], key))
    ensures FreshBut(s.(store := s.store[Name(s, key, gen) := entry]), hole)
  {
    var s' := s.(store := s.store[Name(s, key, gen) := entry]);
    forall k, h: nat | hole != Some(Slot(k, h)) ensures EntryFresh(s', k, h) {
      VersionedKeyInjective(s.ns, gen, key, h, k);
      assert EntryFresh(s, k, h);
    }
    forall t | t in s'.calls ensures CallFresh(s', s'.calls[t]) { assert CallFresh(s, s.calls[t]); }
    if hole.Some? { SameCallsClosed(s, s', hole.value); }
  }

  lemma SameCallsClosed(s: State, s': State, slot: Slot)
    requires Closed(s, slot) && s'.calls == s.calls && Effective(s'.counter) >= Effective(s.counter)
    ensures Closed(s', slot)
  {}

  /** More history, more floors, fewer entries: nothing that was fresh becomes stale. */
  lemma GrowthKeepsFresh(s: State, s': State, hole: Option<Slot>)
    requires FreshBut(s, hole) && FloorsOk(s') && s'.ns == s.ns && s'.calls == s.calls
    requires s.history <= s'.history && s.floors <= s'.floors && Effective(s'.counter) >= Effective(s.counter)
    requires forall n :: n in s'.store ==> n in s.store && s'.store[n] == s.store[n]
    ensures FreshBut(s', hole)
  {
    forall k, h: nat | hole != Some(Slot(k, h)) ensures EntryFresh(s', k, h) { assert EntryFresh(s, k, h); }
    forall t | t in s'.calls ensures CallFresh(s', s'.calls[t]) { assert CallFresh(s, s.calls[t]); }
    if hole.Some? { SameCallsClosed(s, s', hole.value); }
  }

  lemma BegunFresh(s: State, hole: Option<Slot>, t: SF.Task, p: Process, key: string)
    requires FreshBut(s, hole)
    ensures FreshBut(s.(calls := s.calls[t := Begun(key)], home := s.home[t := p]), hole)
  {
    var s' := s.(calls := s.calls[t := Begun(key)], home := s.home[t := p]);
    forall k, h: nat | hole != Some(Slot(k, h)) ensures EntryFresh(s', k, h) { assert EntryFresh(s, k, h); }
    forall u | u in s'.calls ensures CallFresh(s', s'.calls[u]) {
      if u != t { assert CallFresh(s, s.calls[u]); }
    }
  }

  lemma StoreKeepsFresh(s: State, hole: Option<Slot>, t: SF.Task)
    requires FreshBut(s, hole) && Enabled(s, Store(t))
    ensures FreshBut(SharedAfter(s, Store(t)), hole)
  {
    var c := s.calls[t];
    assert CallFresh(s, c);
    StoredFresh(s, hole, c.key, c.gen, Entry(Encode(c.v), c.at));
  }

  /** The events that only let things grow, or entries vanish. */
  lemma SharedGrows(s: State, e: Event)
    requires FloorsOk(s) && Enabled(s, e) && !e.Store? && !e.LateStore? && !e.Begin?
    ensures var s' := SharedAfter(s, e);
            && FloorsOk(s') && s'.ns == s.ns && s'.calls == s.calls && s.history <= s'.history && s.floors <= s'.floors
            && Effective(s'.counter) >= Effective(s.counter)
            && forall n :: n in s'.store ==> n in s.store && s'.store[n] == s.store[n]
  {
    if e.Bump? { BumpMovesGeneration(s.counter); }
  }

  lemma SharedKeepsFresh(s: State, hole: Option<Slot>, e: Event)
    requires FreshBut(s, hole) && Enabled(s, e) && Disciplined(s, e)
    ensures FreshBut(SharedAfter(s, e), hole)
  {
    match e
    case Store(t) => StoreKeepsFresh(s, hole, t);
    case LateStore(key, gen, at) => StoredFresh(s, hole, key, gen, Entry(Encode(Lookup(s.history[at], key)), at));
    case Begin(t, p, key) => BegunFresh(s, hole, t, p, key);
    case _ =>
      SharedGrows(s, e);
      GrowthKeepsFresh(s, SharedAfter(s, e), hole);
  }

  lemma CallStaysFresh(s: State, hole: Option<Slot>, t: SF.Task, e: Event)
    requires FreshBut(s, hole) && Enabled(s, e) && Caller(e) == Some(t)
    ensures CallFresh(SharedAfter(s, e), CallAfter(s, t, e))
  {
    var c := s.calls[t];
    assert CallFresh(s, c);
    if e.Probe? || e.ProbeAgain? {
      assert hole.Some? ==> !MayLookUp(c, hole.value);
      assert EntryFresh(s, c.key, c.gen);
    }
  }

  lemma CallStaysOut(s: State, slot: Slot, t: SF.Task, e: Event)
    requires s.history != [] && Closed(s, slot) && Enabled(s, e) && Caller(e) == Some(t)
    ensures !MayLookUp(CallAfter(s, t, e), slot)
  {
    assert !MayLookUp(s.calls[t], slot);
  }

  lemma StepKeepsFresh(s: State, hole: Option<Slot>, e: Event)
    requires FreshBut(s, hole) && Disciplined(s, e)
    ensures FreshBut(Step(s, e), hole)
  {
    if Enabled(s, e) {
      SharedKeepsFresh(s, hole, e);
      var shared, s' := SharedAfter(s, e), Step(s, e);
      var caller := Caller(e);
      forall t | t in s'.calls ensures CallFresh(s', s'.calls[t]) {
        if caller == Some(t) { CallStaysFresh(s, hole, t, e); } else { assert CallFresh(shared, shared.calls[t]); }
      }
      forall k, h: nat | hole != Some(Slot(k, h)) ensures EntryFresh(s', k, h) { assert EntryFresh(shared, k, h); }
      if hole.Some? { StepKeepsClosed(s, hole, e); }
    }
  }

  lemma StepKeepsClosed(s: State, hole: Option<Slot>, e: Event)
    requires FreshBut(s, hole) && Disciplined(s, e) && Enabled(s, e) && hole.Some?
    ensures Closed(Step(s, e), hole.value)
  {
    SharedKeepsFresh(s, hole, e);
    var shared, s' := SharedAfter(s, e), Step(s, e);
    forall t | t in s'.calls ensures !MayLookUp(s'.calls[t], hole.value) {
      if Caller(e) == Some(t) { CallStaysOut(s, hole.value, t, e); }
    }
  }

  /** What a step never takes back, and what a call begun after `s0` can have read. */
  ghost predicate Since(s0: State, s: State) {
    && s0.floors <= s.floors && s0.history <= s.history
    && (forall t :: t in s0.calls ==> t in s.calls)
    && (forall t :: t in s.calls && t !in s0.calls && !s.calls[t].Begun? && !s.calls[t].Failed? ==>
          s.calls[t].gen >= Effective(s0.counter))
  }

  ghost predicate RunDisciplined(s: State, events: seq<Event>) {
    events == [] ||
    (RunDisciplined(s, events[..|events| - 1]) &&
     Disciplined(RunFrom(s, events[..|events| - 1]), events[|events| - 1]))
  }

  lemma SharedKeepsLocal(s: State, e: Event)
    requires s.history != [] && Enabled(s, e) && Caller(e).Some?
    ensures var s' := SharedAfter(s, e);
            s'.ns == s.ns && s'.home == s.home && s'.maxKeys == s.maxKeys && s'.calls == s.calls && s'.flights == s.flights
  {}

  /** What an event of a call changes beside Redis and the source. */
  lemma StepLocal(s: State, e: Event, t: SF.Task)
    requires s.history != [] && Enabled(s, e) && Caller(e) == Some(t)
    ensures var s' := Step(s, e);
            && s'.ns == s.ns && s'.home == s.home && s'.maxKeys == s.maxKeys
            && s'.calls == s.calls[t := CallAfter(s, t, e)]
            && s'.flights == match FlightMove(s, e) case None => s.flights case Some(m) => Moved(s, Home(s, t), m)
  {
    SharedKeepsLocal(s, e);
  }

  lemma OthersStay(s: State, e: Event, t: SF.Task)
    requires s.history != [] && Enabled(s, e) && Caller(e) != Some(t)
    ensures var s' := Step(s, e);
            && s'.ns == s.ns
            && (t in s.calls ==> t in s'.calls && s'.calls[t] == s.calls[t] && Home(s', t) == Home(s, t))
            && (t !in s.calls && t in s'.calls ==> s'.calls[t].Begun?)
  {}

  /** One event: history grows by a write only, and floors by the bump of a stored counter only. */
  lemma StepGrows(s: State, e: Event)
    requires FloorsOk(s)
    ensures var s' := Step(s, e);
            && s'.ns == s.ns && s.history <= s'.history && |s'.history| == |s.history| + (if e.Write? then 1 else 0)
            && s'.floors == (if e.Bump? && CounterStored(s.counter) then s.floors + [Now(s)] else s.floors)
            && FloorsOk(s')
  {
    if e.Bump? { BumpMovesGeneration(s.counter); }
  }

  lemma CallKeepsGeneration(s: State, e: Event, t: SF.Task)
    requires s.history != [] && Enabled(s, e) && Caller(e) == Some(t)
    ensures t in s.calls
    ensures var c, c' := s.calls[t], CallAfter(s, t, e);
            c'.Begun? || c'.Failed? || (if c.Begun? then c'.gen == Effective(s.counter) else !c.Failed? && c'.gen == c.gen)
  {}

  /** What one event does to the generation of a call. */
  lemma StepGenerations(s: State, e: Event, t: SF.Task)
    requires FloorsOk(s)
    ensures var s' := Step(s, e);
            && (t in s.calls ==> t in s'.calls)
            && (t in s'.calls && !s'.calls[t].Begun? && !s'.calls[t].Failed? ==>
                  t in s.calls && if s.calls[t].Begun? then s'.calls[t].gen == Effective(s.counter)
                                  else !s.calls[t].Failed? && s'.calls[t].gen == s.calls[t].gen)
  {
    if Enabled(s, e) {
      if Caller(e) == Some(t) {
        CallKeepsGeneration(s, e, t);
        StepLocal(s, e, t);
      } else {
        OthersStay(s, e, t);
      }
    }
  }

  lemma StepSince(s0: State, s: State, e: Event)
    requires FloorsOk(s0) && FloorsOk(s) && Since(s0, s)
    ensures Since(s0, Step(s, e))
  {
    assert |s0.floors| <= |s.floors|;
    StepGrows(s, e);
    forall t ensures t in s0.calls ==> t in Step(s, e).calls { StepGenerations(s, e, t); }
    forall t | t in Step(s, e).calls && t !in s0.calls && !Step(s, e).calls[t].Begun? && !Step(s, e).calls[t].Failed?
      ensures Step(s, e).calls[t].gen >= Effective(s0.counter)
    {
      StepGenerations(s, e, t);
    }
  }

  lemma {:induction false} RunKeepsFresh(s: State, hole: Option<Slot>, events: seq<Event>)
    requires FreshBut(s, hole) && RunDisciplined(s, events)
    ensures FreshBut(RunFrom(s, events), hole) && Since(s, RunFrom(s, events))
  {
    if events != [] {
      var before, last := events[..|events| - 1], events[|events| - 1];
      RunKeepsFresh(s, hole, before);
      StepKeepsFresh(RunFrom(s, before), hole, last);
      StepSince(s, RunFrom(s, before), last);
    }
  }

  /** In any reachable state a finished call returned a value of a source version that was
      committed no earlier than the moment its generation began. */
  lemma NeverOlderThanGeneration(ns: string, maxKeys: int, counter: Option<int>, content: Content,
                                 events: seq<Event>, t: SF.Task)
    requires RunDisciplined(Init(ns, maxKeys, counter, content), events)
    requires var s := RunFrom(Init(ns, maxKeys, counter, content), events);
             t in s.calls && s.calls[t].Done? && s.calls[t].outcome.Value?
    ensures var s := RunFrom(Init(ns, maxKeys, counter, content), events); var c := s.calls[t];
            && c.gen < |s.floors| && s.floors[c.gen] <= c.outcome.at
            && Faithful(s, c.key, c.outcome.v, c.outcome.at)
  {
    RunKeepsFresh(Init(ns, maxKeys, counter, content), None, events);
    var s := RunFrom(Init(ns, maxKeys, counter, content), events);
    assert CallFresh(s, s.calls[t]);
  }

  lemma BumpSetsFloor(s0: State)
    requires FloorsOk(s0) && CounterStored(s0.counter)
    ensures var s1 := Step(s0, Bump);
            && s1.floors == s0.floors + [Now(s0)] && Effective(s1.counter) == |s0.floors|
            && s1.history == s0.history && s1.calls == s0.calls
  {
    BumpMovesGeneration(s0.counter);
  }

  lemma CalledSince(s1: State, s: State, t: SF.Task)
    requires FloorsOk(s1) && FloorsOk(s) && CallsFresh(s) && Since(s1, s) && t !in s1.calls
    requires t in s.calls && s.calls[t].Done? && s.calls[t].outcome.Value?
    ensures var c := s.calls[t];
            && s1.floors[Effective(s1.counter)] <= c.outcome.at
            && Faithful(s, c.key, c.outcome.v, c.outcome.at)
  {
    assert CallFresh(s, s.calls[t]);
    assert s.floors[Effective(s1.counter)] == s1.floors[Effective(s1.counter)];
  }

  /** Whatever is in flight when the counter is bumped, a call begun after the bump of a stored
      counter returns the source as it was at the bump or later. */
  lemma FreshAfterBump(ns: string, maxKeys: int, counter: Option<int>, content: Content,
                       before: seq<Event>, after: seq<Event>, t: SF.Task)
    requires RunDisciplined(Init(ns, maxKeys, counter, content), before)
    requires var s0 := RunFrom(Init(ns, maxKeys, counter, content), before);
             && CounterStored(s0.counter)
             && RunDisciplined(Step(s0, Bump), after)
             && t !in s0.calls
             && var s := RunFrom(Step(s0, Bump), after);
                t in s.calls && s.calls[t].Done? && s.calls[t].outcome.Value?
    ensures var s0 := RunFrom(Init(ns, maxKeys, counter, content), before);
            var s := RunFrom(Step(s0, Bump), after); var c := s.calls[t];
            && s0.history <= s.history
            && |s0.history| - 1 <= c.outcome.at
            && Faithful(s, c.key, c.outcome.v, c.outcome.at)
  {
    var init := Init(ns, maxKeys, counter, content);
    RunKeepsFresh(init, None, before);
    var s0 := RunFrom(init, before);
    BumpSetsFloor(s0);
    StepKeepsFresh(s0, None, Bump);
    RunKeepsFresh(Step(s0, Bump), None, after);
    CalledSince(Step(s0, Bump), RunFrom(Step(s0, Bump), after), t);
  }

  // ---------------------------------------------------------------- failing stores

  /** A call that has loaded `v` and has not decided, or has decided on `v` or an exception. */
  ghost predicate AfterLoad(s: State, t: SF.Task, v: Json, at: nat, mayRaise: bool, mayAnswer: bool) {
    t in s.calls &&
    match s.calls[t]
    case Loaded(_, _, w, n) => w == v && n == at
    case Leaving(_, _, o) => (o == Value(v, at) && mayAnswer) || (o == Raised && mayRaise)
    case Done(_, _, o) => (o == Value(v, at) && mayAnswer) || (o == Raised && mayRaise)
    case _ => false
  }

  lemma StepAfterLoad(s: State, e: Event, t: SF.Task, v: Json, at: nat, mayRaise: bool, mayAnswer: bool)
    requires s.history != [] && AfterLoad(s, t, v, at, mayRaise, mayAnswer) && e != Abort(t)
    requires e == StoreFails(t, false) ==> mayRaise
    requires e == Store(t) || e == StoreFails(t, true) ==> mayAnswer
    ensures AfterLoad(Step(s, e), t, v, at, mayRaise, mayAnswer) && Step(s, e).history != []
  {
    if Enabled(s, e) {
      if Caller(e) == Some(t) { StepLocal(s, e, t); } else { OthersStay(s, e, t); }
    }
  }

  lemma {:induction false} RunAfterLoad(s: State, events: seq<Event>, t: SF.Task, v: Json, at: nat, mayRaise: bool, mayAnswer: bool)
    requires s.history != [] && AfterLoad(s, t, v, at, mayRaise, mayAnswer) && Abort(t) !in events
    requires StoreFails(t, false) in events ==> mayRaise
    requires Store(t) in events || StoreFails(t, true) in events ==> mayAnswer
    ensures AfterLoad(RunFrom(s, events), t, v, at, mayRaise, mayAnswer) && RunFrom(s, events).history != []
  {
    if events != [] {
      var before, last := events[..|events| - 1], events[|events| - 1];
      assert events == before + [last];
      RunAfterLoad(s, before, t, v, at, mayRaise, mayAnswer);
      StepAfterLoad(RunFrom(s, before), last, t, v, at, mayRaise, mayAnswer);
    }
  }

  /** A call answers what its own loader returned, and the exception of a failing store only where the
      policy does not swallow it. */
  lemma LoadedIsAnswered(s: State, events: seq<Event>, t: SF.Task, key: string, gen: nat, v: Json, at: nat)
    requires s.history != [] && t in s.calls && s.calls[t] == Loaded(key, gen, v, at) && Abort(t) !in events
    requires t in RunFrom(s, events).calls && RunFrom(s, events).calls[t].Done?
    ensures var o := RunFrom(s, events).calls[t].outcome;
            && (StoreFails(t, false) !in events ==> o == Value(v, at))
            && (Store(t) !in events && StoreFails(t, true) !in events ==> o == Raised)
            && (o == Value(v, at) || o == Raised)
  {
    RunAfterLoad(s, events, t, v, at, StoreFails(t, false) in events, Store(t) in events || StoreFails(t, true) in events);
  }

  // ---------------------------------------------------------------- the cache functions

  /** What Redis may hold under a name: an encoded value, or text that is empty or cannot be decoded
      and so counts as no entry. */
  datatype Raw = Encoded(json: Json) | Undecodable

  /** The fields of Redis that the cache functions change.  Each method is one Redis command of a
      call, hence one event; `state` is the whole state of the model. */
  class RedisCache {
    const namespace: string
    var counter: Option<int>
    var payloads: map<string, Raw>
    ghost var state: State

    ghost predicate Valid()
      reads this
    {
      && state.history != [] && state.ns == namespace && state.counter == counter
      && (forall name :: name in state.store <==> name in payloads && payloads[name].Encoded?)
      && (forall name :: name in state.store ==> payloads[name] == Encoded(state.store[name].payload))
    }

    /** `leftovers` are names under which Redis holds something that cannot be decoded. */
    constructor (namespace: string, maxKeys: int, counter: Option<int>, leftovers: set<string>, ghost content: Content)
      ensures Valid() && state == Init(namespace, maxKeys, counter, content)
    {
      this.namespace, this.counter, payloads := namespace, counter, map name | name in leftovers :: Undecodable;
      state := Init(namespace, maxKeys, counter, content);
    }

    /** `_bump_namespace_generation`. */
    method BumpNamespaceGeneration()
      requires Valid()
      modifies this`counter, this`state
      ensures Valid() && state == Step(old(state), Bump)
    {
      counter := Some(if counter.Some? then counter.value + 1 else 1);
      state := Step(state, Bump);
    }

    /** `_versioned_key`: reads the generation and returns the effective key. */
    method TakeVersionedKey(t: SF.Task, key: string) returns (name: string)
      requires Valid() && Enabled(state, ReadGeneration(t)) && state.calls[t] == Begun(key)
      modifies this`state
      ensures Valid() && state == Step(old(state), ReadGeneration(t))
      ensures CallName(state, state.calls[t]) == Some(name)
    {
      var generation := 1;
      if counter.Some? && counter.value > 1 { generation := counter.value; }
      name := VersionedKey(namespace, generation, key);
      state := Step(state, ReadGeneration(t));
    }

    /** `_cache_get_json_state`. */
    method GetJsonState(name: string) returns (found: bool, value: Json)
      requires Valid()
      ensures found == (name in state.store)
      ensures found ==> value == Decode(state.store[name].payload)
    {
      if name !in payloads || payloads[name].Undecodable? { return false, Null; }
      if payloads[name].json == MARKER { return true, Null; }
      return true, payloads[name].json;
    }

    /** The first look: a hit ends the call. */
    method Look(t: SF.Task, name: string) returns (answer: Option<Json>)
      requires Valid() && Enabled(state, Probe(t)) && CallName(state, state.calls[t]) == Some(name)
      modifies this`state
      ensures Valid() && state == Step(old(state), Probe(t))
      ensures match answer
              case Some(v) => state.calls[t].Done? && state.calls[t].outcome.Value? && state.calls[t].outcome.v == v
              case None => state.calls[t].Missed?
    {
      var found, value := GetJsonState(name);
      answer := if found then Some(value) else None;
      state := Step(state, Probe(t));
    }

    /** The second look, under the lock: a miss starts the loader. */
    method LookAgain(t: SF.Task, name: string) returns (answer: Option<Json>)
      requires Valid() && Enabled(state, ProbeAgain(t)) && CallName(state, state.calls[t]) == Some(name)
      modifies this`state
      ensures Valid() && state == Step(old(state), ProbeAgain(t))
      ensures match answer
              case Some(v) => state.calls[t].Leaving? && state.calls[t].outcome.Value? && state.calls[t].outcome.v == v
              case None => state.calls[t].Loading?
    {
      var found, value := GetJsonState(name);
      answer := if found then Some(value) else None;
      state := Step(state, ProbeAgain(t));
    }

    /** The store of a loaded value; `None` is stored as the marker. */
    method StoreLoaded(t: SF.Task, name: string, value: Json)
      requires Valid() && Enabled(state, Store(t)) && CallName(state, state.calls[t]) == Some(name)
      requires state.calls[t].v == value
      modifies this`payloads, this`state
      ensures Valid() && state == Step(old(state), Store(t))
    {
      payloads := payloads[name := Encoded(if value == Null then MARKER else value)];
      state := Step(state, Store(t));
    }
  }
}
