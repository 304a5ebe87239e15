/** Several namespaces of the read-through cache over one Redis.  Each namespace has its own
    generation counter and its own source; the entries and the lock tables of the processes are
    shared by all of them.
 */
module CacheNamespaces {
  import opened Wrappers
  import opened CacheKeys
  import G = GenerationalCache
  import SF = SingleFlight

  /** What a namespace has to itself is in `spaces`; the store and the lock tables there are stale. */
  datatype World = World(
    maxKeys: int,
    store: map<string, G.Entry>,
    flights: map<G.Process, SF.State>,
    spaces: map<string, G.State>)

  /** An event of the namespace `n`. */
  datatype Event = At(n: string, e: G.Event)

  /** The cache as a call of the namespace sees it. */
  function View(w: World, n: string): G.State
    requires n in w.spaces
  {
    w.spaces[n].(store := w.store, flights := w.flights)
  }

  /** Callers are told apart across the namespaces. */
  predicate Enabled(w: World, a: Event) {
    a.n in w.spaces && (a.e.Begin? ==> forall m :: m in w.spaces ==> a.e.t !in w.spaces[m].calls)
  }

  function Step(w: World, a: Event): World {
    if !Enabled(w, a) then w else
    var s := G.Step(View(w, a.n), a.e);
    w.(store := s.store, flights := s.flights, spaces := w.spaces[a.n := s])
  }

  function RunFrom(w: World, events: seq<Event>): World {
    if events == [] then w else Step(RunFrom(w, events[..|events| - 1]), events[|events| - 1])
  }

  ghost predicate Starting(w: World) {
    && w.store == map[] && w.flights == map[]
    && forall n :: n in w.spaces ==>
         exists counter, content :: w.spaces[n] == G.Init(n, w.maxKeys, counter, content)
  }

  // ---------------------------------------------------------------- separation

  ghost predicate Separate(n: string, m: string) { n == m || !CanCollide(n, m) }

  /** No two namespaces share a name. */
  ghost predicate AllSeparate(w: World) { forall n, m :: n in w.spaces && m in w.spaces ==> Separate(n, m) }

  /** Namespaces without ":v", as the source uses them, never share one. */
  lemma VersionFreeSeparate(w: World)
    requires forall n :: n in w.spaces ==> VersionFree(n)
    ensures AllSeparate(w)
  {
    forall n, m | n in w.spaces && m in w.spaces ensures Separate(n, m) {
      CollideExactly(n, m);
      VersionFreeNotNested(n, m);
      VersionFreeNotNested(m, n);
    }
  }

  /** The entry under `name`, if any. */
  function EntryAt(store: map<string, G.Entry>, name: string): Option<G.Entry> {
    if name in store then Some(store[name]) else None
  }

  /** An event of one namespace leaves the names of another alone, unless it drops an entry. */
  lemma StoreStaysInside(s: G.State, e: G.Event, m: string, key: string, gen: nat)
    requires s.history != [] && !CanCollide(s.ns, m)
    ensures var name := VersionedKey(m, gen, key);
            || EntryAt(G.Step(s, e).store, name) == EntryAt(s.store, name)
            || (e == G.Drop(name) && name !in G.Step(s, e).store)
  {
    if G.Enabled(s, e) {
      match e
      case Store(t) => assert G.Name(s, s.calls[t].key, s.calls[t].gen) != VersionedKey(m, gen, key);
      case LateStore(k, g, _) => assert G.Name(s, k, g) != VersionedKey(m, gen, key);
      case _ =>
    }
  }

  /** A store or a late store of one namespace, or whatever else its calls do, never changes what a
      call of another namespace reads. */
  lemma OthersReadTheSame(w: World, a: Event, m: string, key: string, gen: nat)
    requires Inv(w) && m in w.spaces && a.n != m && !a.e.Drop?
    ensures EntryAt(Step(w, a).store, VersionedKey(m, gen, key)) == EntryAt(w.store, VersionedKey(m, gen, key))
    ensures Step(w, a).spaces[m] == w.spaces[m]
  {
    if Enabled(w, a) {
      assert SpaceOk(w, a.n) && Separate(a.n, m);
      StoreStaysInside(View(w, a.n), a.e, m, key, gen);
    }
  }

  // ---------------------------------------------------------------- freshness

  ghost predicate SpaceOk(w: World, n: string)
    requires n in w.spaces
  {
    w.spaces[n].ns == n && G.Fresh(View(w, n))
  }

  ghost predicate Inv(w: World) {
    AllSeparate(w) && forall n :: n in w.spaces ==> SpaceOk(w, n)
  }

  /** Each namespace keeps its own discipline about late stores. */
  ghost predicate Disciplined(w: World, a: Event) { a.n in w.spaces ==> G.Disciplined(w.spaces[a.n], a.e) }

  ghost predicate RunDisciplined(w: World, events: seq<Event>) {
    events == [] ||
    (RunDisciplined(w, events[..|events| - 1]) &&
     Disciplined(RunFrom(w, events[..|events| - 1]), events[|events| - 1]))
  }

  lemma OtherStaysOk(w: World, a: Event, m: string)
    requires Inv(w) && Enabled(w, a) && m in w.spaces && a.n != m
    ensures SpaceOk(Step(w, a), m)
  {
    assert SpaceOk(w, m) && SpaceOk(w, a.n) && Separate(a.n, m);
    var s, s' := View(w, m), View(Step(w, a), m);
    forall key, gen: nat ensures G.EntryFresh(s', key, gen) {
      StoreStaysInside(View(w, a.n), a.e, m, key, gen);
      assert G.EntryFresh(s, key, gen);
    }
    forall t | t in s'.calls ensures G.CallFresh(s', s'.calls[t]) { assert G.CallFresh(s, s.calls[t]); }
  }

  lemma StepKeeps(w: World, a: Event)
    requires Inv(w) && Disciplined(w, a)
    ensures Inv(Step(w, a)) && Step(w, a).spaces.Keys == w.spaces.Keys
  {
    if Enabled(w, a) {
      var s, w' := View(w, a.n), Step(w, a);
      assert SpaceOk(w, a.n);
      G.StepKeepsFresh(s, None, a.e);
      G.StepGrows(s, a.e);
      assert View(w', a.n) == G.Step(s, a.e);
      forall m | m in w'.spaces ensures SpaceOk(w', m) {
        if m != a.n { OtherStaysOk(w, a, m); }
      }
    }
  }

  lemma StartingOk(w: World)
    requires Starting(w) && AllSeparate(w)
    ensures Inv(w)
  {
    forall n | n in w.spaces ensures SpaceOk(w, n) {
      var counter, content :| w.spaces[n] == G.Init(n, w.maxKeys, counter, content);
    }
  }

  lemma {:induction false} RunKeeps(w: World, events: seq<Event>, n: string)
    requires Inv(w) && RunDisciplined(w, events) && n in w.spaces
    ensures Inv(RunFrom(w, events)) && n in RunFrom(w, events).spaces
    ensures G.Since(View(w, n), View(RunFrom(w, events), n))
  {
    if events != [] {
      var before, last := events[..|events| - 1], events[|events| - 1];
      RunKeeps(w, before, n);
      var mid := RunFrom(w, before);
      StepKeeps(mid, last);
      assert SpaceOk(w, n) && SpaceOk(mid, n);
      if last.n == n && Enabled(mid, last) {
        G.StepSince(View(w, n), View(mid, n), last.e);
        assert View(Step(mid, last), n) == G.Step(View(mid, n), last.e);
      }
    }
  }

  /** Freshness with all namespaces at work on one Redis: a call begun after the bump of a stored
      counter of its own namespace returns the source of that namespace as it was at the bump or
      later, whatever the calls and setters of the other namespaces do. */
  lemma FreshAfterBump(w: World, n: string, before: seq<Event>, after: seq<Event>, t: SF.Task)
    requires Starting(w) && AllSeparate(w) && n in w.spaces && RunDisciplined(w, before)
    requires var w0 := RunFrom(w, before);
             && n in w0.spaces && G.CounterStored(w0.spaces[n].counter) && t !in w0.spaces[n].calls
             && RunDisciplined(Step(w0, At(n, G.Bump)), after)
             && var w2 := RunFrom(Step(w0, At(n, G.Bump)), after);
                && n in w2.spaces && t in w2.spaces[n].calls && w2.spaces[n].calls[t].Done?
                && w2.spaces[n].calls[t].outcome.Value?
    ensures var s0, s := RunFrom(w, before).spaces[n], RunFrom(Step(RunFrom(w, before), At(n, G.Bump)), after).spaces[n];
            var c := s.calls[t];
            s0.history <= s.history && |s0.history| - 1 <= c.outcome.at && G.Faithful(s, c.key, c.outcome.v, c.outcome.at)
  {
    StartingOk(w);
    RunKeeps(w, before, n);
    var w0 := RunFrom(w, before);
    BumpedThenRun(w0, n, after, t);
  }

  lemma BumpedThenRun(w0: World, n: string, after: seq<Event>, t: SF.Task)
    requires Inv(w0) && n in w0.spaces && G.CounterStored(w0.spaces[n].counter) && t !in w0.spaces[n].calls
    requires RunDisciplined(Step(w0, At(n, G.Bump)), after)
    requires var w2 := RunFrom(Step(w0, At(n, G.Bump)), after);
             && n in w2.spaces && t in w2.spaces[n].calls && w2.spaces[n].calls[t].Done?
             && w2.spaces[n].calls[t].outcome.Value?
    ensures var s0, s := w0.spaces[n], RunFrom(Step(w0, At(n, G.Bump)), after).spaces[n]; var c := s.calls[t];
            s0.history <= s.history && |s0.history| - 1 <= c.outcome.at && G.Faithful(s, c.key, c.outcome.v, c.outcome.at)
  {
    assert SpaceOk(w0, n);
    var s0, bump := View(w0, n), At(n, G.Bump);
    G.BumpSetsFloor(s0);
    StepKeeps(w0, bump);
    var w1 := Step(w0, bump);
    assert View(w1, n) == G.Step(s0, G.Bump);
    RunKeeps(w1, after, n);
    var w2 := RunFrom(w1, after);
    assert SpaceOk(w1, n) && SpaceOk(w2, n);
    G.CalledSince(View(w1, n), View(w2, n), t);
  }
}
