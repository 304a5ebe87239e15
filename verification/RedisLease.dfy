/** The expiring, owner-checked Redis lease and the singleton runner that uses it.

    Tokens are unique per lease object.  Commands reach Redis at any time after they were
    sent, replies may be lost, processes may die, and time passes between any two events.
 */
module RedisLease {
  import opened Wrappers

  type Token = nat

  /** The value under the lease key and the millisecond at which Redis drops it. */
  datatype Hold = Hold(token: Token, until: nat)

  predicate Free(key: Option<Hold>, now: nat) { key.None? || key.value.until <= now }

  /** SET key token NX PX ttl. */
  function SetIfFree(key: Option<Hold>, now: nat, token: Token, ttl: nat): Option<Hold> {
    if Free(key, now) then Some(Hold(token, now + ttl)) else key
  }

  /** The release script: delete the key only if it still carries this token. */
  function CompareAndDelete(key: Option<Hold>, now: nat, token: Token): Option<Hold> {
    if !Free(key, now) && key.value.token == token then None else key
  }

  // ---------------------------------------------------------------- runs

  /** `at` is when Redis executed the SET.  `Lost`: the SET took effect but the caller never
      learnt it or died before working. `Ended`: the operation returned, raised or died. */
  datatype Phase =
    | Skipped
    | Lost(at: nat)
    | Acquired(at: nat)
    | Running(at: nat, start: nat)
    | Ended(at: nat, start: nat, end: nat)

  /** `released` are the tokens whose release command was sent; it may be executed at any later
      moment, more than once, or never. */
  datatype State = State(
    ttl: nat, now: nat, key: Option<Hold>, workers: map<Token, Phase>, released: set<Token>)

  datatype Event =
    | Tick(ms: nat)
    | Acquire(w: Token)
    | LoseReply(w: Token)
    | Start(w: Token)
    | End(w: Token, sendsRelease: bool)
    | Release(w: Token)

  /** `ttl_ms`: at least one second. */
  function Init(ttlSeconds: int): State {
    State(if ttlSeconds < 1 then 1000 else ttlSeconds * 1000, 0, None, map[], {})
  }

  predicate Enabled(s: State, e: Event) {
    match e
    case Tick(_) => true
    case Acquire(w) => w !in s.workers
    case LoseReply(w) => w in s.workers && s.workers[w].Acquired?
    case Start(w) => w in s.workers && s.workers[w].Acquired?
    case End(w, _) => w in s.workers && s.workers[w].Running?
    case Release(w) => w in s.released
  }

  function Step(s: State, e: Event): State {
    if !Enabled(s, e) then s else
    match e
    case Tick(ms) => s.(now := s.now + ms)
    case Acquire(w) =>
      s.(key := SetIfFree(s.key, s.now, w, s.ttl),
         workers := s.workers[w := if Free(s.key, s.now) then Acquired(s.now) else Skipped])
    case LoseReply(w) => s.(workers := s.workers[w := Lost(s.workers[w].at)])
    case Start(w) => s.(workers := s.workers[w := Running(s.workers[w].at, s.now)])
    case End(w, sendsRelease) =>
      var p := s.workers[w];
      s.(workers := s.workers[w := Ended(p.at, p.start, s.now)],
         released := if sendsRelease then s.released + {w} else s.released)
    case Release(w) => s.(key := CompareAndDelete(s.key, s.now, w))
  }

  function Run(ttlSeconds: int, events: seq<Event>): State {
    if events == [] then Init(ttlSeconds)
    else Step(Run(ttlSeconds, events[..|events| - 1]), events[|events| - 1])
  }

  ghost predicate PhaseOk(s: State, p: Phase) {
    match p
    case Skipped => true
    case Lost(at) => at <= s.now
    case Acquired(at) => at <= s.now
    case Running(at, start) => at <= start <= s.now
    case Ended(at, start, end) => at <= start <= end <= s.now
  }

  /** By time `t`, `p` has stopped mattering: it ended, or its lease ran out. */
  ghost predicate Over(s: State, p: Phase, t: nat)
    requires !p.Skipped?
  {
    (p.Ended? && p.end <= t) || p.at + s.ttl <= t
  }

  /** A holder that is neither over nor expired still owns the key. */
  ghost predicate OwnerOk(s: State, w: Token)
    requires w in s.workers
  {
    !s.workers[w].Skipped? ==>
      s.key == Some(Hold(w, s.workers[w].at + s.ttl)) || Over(s, s.workers[w], s.now)
  }

  /** One of two holders was over when the other acquired. */
  ghost predicate Apart(s: State, w: Token, v: Token)
    requires w in s.workers && v in s.workers
  {
    var p, q := s.workers[w], s.workers[v];
    w != v && !p.Skipped? && !q.Skipped? ==> Over(s, p, q.at) || Over(s, q, p.at)
  }

  ghost predicate WorkersOk(s: State) {
    && s.ttl >= 1
    && (s.key.Some? ==> s.key.value.until <= s.now + s.ttl)
    && (forall w :: w in s.workers ==> PhaseOk(s, s.workers[w]) && OwnerOk(s, w))
    && (forall w :: w in s.released ==> w in s.workers && s.workers[w].Ended?)
  }

  ghost predicate PairsOk(s: State) {
    forall w, v :: w in s.workers && v in s.workers ==> Apart(s, w, v)
  }

  ghost predicate Inv(s: State) { WorkersOk(s) && PairsOk(s) }

  lemma WorkersStayOk(s: State, e: Event)
    requires WorkersOk(s)
    ensures WorkersOk(Step(s, e)) && Step(s, e).ttl == s.ttl
  {
    var s' := Step(s, e);
    forall w | w in s'.workers ensures PhaseOk(s', s'.workers[w]) && OwnerOk(s', w) {
      assert w in s.workers ==> PhaseOk(s, s.workers[w]) && OwnerOk(s, w);
    }
  }

  lemma PairsStayOk(s: State, e: Event)
    requires Inv(s)
    ensures PairsOk(Step(s, e))
  {
    var s' := Step(s, e);
    forall w, v | w in s'.workers && v in s'.workers ensures Apart(s', w, v) {
      if w in s.workers && v in s.workers {
        assert Apart(s, w, v);
        assert PhaseOk(s, s.workers[w]) && PhaseOk(s, s.workers[v]);
      } else if w in s.workers {
        assert OwnerOk(s, w);
      } else if v in s.workers {
        assert OwnerOk(s, v);
      }
    }
  }

  lemma StepKeeps(s: State, e: Event)
    requires Inv(s)
    ensures Inv(Step(s, e)) && Step(s, e).ttl == s.ttl
  {
    WorkersStayOk(s, e);
    PairsStayOk(s, e);
  }

  lemma {:induction false} RunKeeps(ttlSeconds: int, events: seq<Event>)
    ensures Inv(Run(ttlSeconds, events))
  {
    if events != [] {
      RunKeeps(ttlSeconds, events[..|events| - 1]);
      StepKeeps(Run(ttlSeconds, events[..|events| - 1]), events[|events| - 1]);
    }
  }

  // ---------------------------------------------------------------- exclusion

  ghost predicate Worked(s: State, w: Token) {
    w in s.workers && (s.workers[w].Running? || s.workers[w].Ended?)
  }

  /** The end of the operation so far. */
  ghost function Stop(s: State, w: Token): nat
    requires Worked(s, w)
  {
    if s.workers[w].Ended? then s.workers[w].end else s.now
  }

  ghost predicate Overlap(s: State, w: Token, v: Token)
    requires Worked(s, w) && Worked(s, v)
  {
    s.workers[w].start < Stop(s, v) && s.workers[v].start < Stop(s, w)
  }

  ghost predicate OutlivedLease(s: State, w: Token)
    requires Worked(s, w)
  {
    Stop(s, w) > s.workers[w].at + s.ttl
  }

  /** Two operations overlap only if one of them outlived its lease before the other acquired:
      the later one got the key because the earlier one's entry had expired. */
  lemma OverlapOnlyAfterExpiry(ttlSeconds: int, events: seq<Event>, w: Token, v: Token)
    requires var s := Run(ttlSeconds, events); w != v && Worked(s, w) && Worked(s, v) && Overlap(s, w, v)
    ensures var s := Run(ttlSeconds, events); var p, q := s.workers[w], s.workers[v];
            || (p.at + s.ttl <= q.at && OutlivedLease(s, w))
            || (q.at + s.ttl <= p.at && OutlivedLease(s, v))
  {
    RunKeeps(ttlSeconds, events);
    var s := Run(ttlSeconds, events);
    assert Apart(s, w, v);
    assert PhaseOk(s, s.workers[w]) && PhaseOk(s, s.workers[v]);
  }

  /** If every operation finishes within its lease, at most one runs at any time. */
  lemma SingletonWithinLease(ttlSeconds: int, events: seq<Event>)
    requires var s := Run(ttlSeconds, events); forall w :: Worked(s, w) ==> !OutlivedLease(s, w)
    ensures var s := Run(ttlSeconds, events);
            forall w, v :: w != v && Worked(s, w) && Worked(s, v) ==> !Overlap(s, w, v)
  {
    var s := Run(ttlSeconds, events);
    forall w, v | w != v && Worked(s, w) && Worked(s, v) ensures !Overlap(s, w, v) {
      if Overlap(s, w, v) { OverlapOnlyAfterExpiry(ttlSeconds, events, w, v); }
    }
  }

  lemma RunThen(ttlSeconds: int, events: seq<Event>, e: Event)
    ensures Run(ttlSeconds, events + [e]) == Step(Run(ttlSeconds, events), e)
  {
    assert (events + [e])[..|events|] == events;
  }

  /** One millisecond beyond the lease is already enough for an overlap, for every ttl. */
  lemma OutlivingCanOverlap(ttlSeconds: int) returns (events: seq<Event>)
    ensures var s := Run(ttlSeconds, events);
            Worked(s, 0) && Worked(s, 1) && Overlap(s, 0, 1) && Stop(s, 0) == s.workers[0].at + s.ttl + 1
  {
    var ttl := Init(ttlSeconds).ttl;
    var a := [Acquire(0)];
    assert [] + a == a;
    RunThen(ttlSeconds, [], Acquire(0));
    RunThen(ttlSeconds, a, Start(0));
    RunThen(ttlSeconds, a + [Start(0)], Tick(ttl));
    var b := a + [Start(0)] + [Tick(ttl)];
    RunThen(ttlSeconds, b, Acquire(1));
    RunThen(ttlSeconds, b + [Acquire(1)], Start(1));
    RunThen(ttlSeconds, b + [Acquire(1)] + [Start(1)], Tick(1));
    events := b + [Acquire(1)] + [Start(1)] + [Tick(1)];
  }

  /** Until its lease runs out nothing takes the key from a worker that has not ended: no late
      or repeated release of somebody else, and no competing acquisition. */
  lemma LeaseKeptWhileWorking(ttlSeconds: int, events: seq<Event>, w: Token)
    requires var s := Run(ttlSeconds, events);
             && w in s.workers && (s.workers[w].Acquired? || s.workers[w].Running?)
             && (s.now < s.workers[w].at + 1000 || s.now < s.workers[w].at + 1000 * ttlSeconds)
    ensures var s := Run(ttlSeconds, events); s.key == Some(Hold(w, s.workers[w].at + s.ttl))
  {
    RunKeeps(ttlSeconds, events);
    TtlFixed(ttlSeconds, events);
    assert OwnerOk(Run(ttlSeconds, events), w);
  }

  lemma AcquireAfterTtl(s: State, ms: nat, w: Token)
    requires WorkersOk(s) && ms >= s.ttl && w !in s.workers
    ensures var s' := Step(Step(s, Tick(ms)), Acquire(w));
            w in s'.workers && s'.workers[w] == Acquired(s'.now) && s'.key == Some(Hold(w, s'.now + s'.ttl))
  {}

  /** No crash blocks the key for longer than one lease: after `ttl` more milliseconds a new
      worker acquires it. */
  lemma FreeAfterTtl(ttlSeconds: int, events: seq<Event>, ms: nat, w: Token)
    requires w !in Run(ttlSeconds, events).workers && ms >= 1000 && ms >= 1000 * ttlSeconds
    ensures var s := Run(ttlSeconds, events + [Tick(ms)] + [Acquire(w)]);
            w in s.workers && s.workers[w] == Acquired(s.now) && s.key == Some(Hold(w, s.now + s.ttl))
  {
    RunKeeps(ttlSeconds, events);
    TtlFixed(ttlSeconds, events);
    RunThen(ttlSeconds, events, Tick(ms));
    RunThen(ttlSeconds, events + [Tick(ms)], Acquire(w));
    AcquireAfterTtl(Run(ttlSeconds, events), ms, w);
  }

  lemma {:induction false} TtlFixed(ttlSeconds: int, events: seq<Event>)
    ensures Run(ttlSeconds, events).ttl == Init(ttlSeconds).ttl
  {
    if events != [] {
      TtlFixed(ttlSeconds, events[..|events| - 1]);
      RunKeeps(ttlSeconds, events[..|events| - 1]);
      StepKeeps(Run(ttlSeconds, events[..|events| - 1]), events[|events| - 1]);
    }
  }

  // ---------------------------------------------------------------- objects

  /** What other processes do to the lease key while an operation runs. */
  datatype Command = Pass(ms: nat) | TryAcquire(token: Token, ttl: nat) | TryRelease(token: Token)

  datatype Clocked = Clocked(key: Option<Hold>, now: nat)

  function Execute(k: Clocked, c: Command): Clocked {
    match c
    case Pass(ms) => k.(now := k.now + ms)
    case TryAcquire(token, ttl) => k.(key := SetIfFree(k.key, k.now, token, ttl))
    case TryRelease(token) => k.(key := CompareAndDelete(k.key, k.now, token))
  }

  function ExecuteAll(k: Clocked, commands: seq<Command>): Clocked
    decreases |commands|
  {
    if commands == [] then k else ExecuteAll(Execute(k, commands[0]), commands[1..])
  }

  class Redis {
    var keys: map<string, Hold>
    var now: nat

    function At(key: string): Clocked
      reads this
    {
      Clocked(if key in keys then Some(keys[key]) else None, now)
    }

    method Put(key: string, hold: Option<Hold>)
      modifies this`keys
      ensures At(key) == Clocked(hold, now)
      ensures forall other :: other != key ==> At(other) == old(At(other))
    {
      keys := if hold.Some? then keys[key := hold.value] else keys - {key};
    }

    method Do(key: string, c: Command)
      modifies this
      ensures At(key) == Execute(old(At(key)), c)
      ensures forall other :: other != key ==> At(other).key == old(At(other).key)
    {
      match c
      case Pass(ms) => now := now + ms;
      case TryAcquire(token, ttl) => Put(key, SetIfFree(At(key).key, now, token, ttl));
      case TryRelease(token) => Put(key, CompareAndDelete(At(key).key, now, token));
    }
  }

  class Lease {
    const client: Redis
    const key: string
    const ttl: nat
    const token: Token
    var acquired: bool

    constructor (client: Redis, key: string, ttlSeconds: int, token: Token)
      ensures this.client == client && this.key == key && this.token == token && !acquired
      ensures ttl == Init(ttlSeconds).ttl
    {
      this.client, this.key, this.token := client, key, token;
      ttl := (if ttlSeconds < 1 then 1 else ttlSeconds) * 1000;
      acquired := false;
    }

    /** Contention is a normal result. */
    method Acquire() returns (ok: bool)
      modifies this`acquired, client`keys
      ensures ok == acquired == Free(old(client.At(key)).key, client.now)
      ensures client.At(key) == Execute(old(client.At(key)), TryAcquire(token, ttl))
      ensures forall other :: other != key ==> client.At(other) == old(client.At(other))
    {
      ok := Free(client.At(key).key, client.now);
      client.Put(key, SetIfFree(client.At(key).key, client.now, token, ttl));
      acquired := ok;
    }

    method Release()
      modifies this`acquired, client`keys
      ensures !acquired
      ensures client.At(key) ==
                if old(acquired) then Execute(old(client.At(key)), TryRelease(token)) else old(client.At(key))
      ensures forall other :: other != key ==> client.At(other) == old(client.At(other))
    {
      if acquired {
        client.Put(key, CompareAndDelete(client.At(key).key, client.now, token));
        acquired := false;
      }
    }
  }

  /** `_run_singleton`: `meanwhile` is what happens to the key while the operation runs. */
  method RunSingleton(client: Redis, name: string, ttlSeconds: int, token: Token, meanwhile: seq<Command>)
    returns (ran: bool)
    modifies client
    ensures var key := "troop:singleton:" + name; var before := old(client.At(key));
            && ran == Free(before.key, before.now)
            && client.At(key) ==
                 if ran then
                   Execute(ExecuteAll(Execute(before, TryAcquire(token, Init(ttlSeconds).ttl)), meanwhile), TryRelease(token))
                 else before
  {
    var lease := new Lease(client, "troop:singleton:" + name, ttlSeconds, token);
    ran := lease.Acquire();
    if ran {
      ghost var start := client.At(lease.key);
      var i := 0;
      while i < |meanwhile|
        invariant 0 <= i <= |meanwhile|
        invariant ExecuteAll(client.At(lease.key), meanwhile[i..]) == ExecuteAll(start, meanwhile)
        invariant lease.acquired
      {
        client.Do(lease.key, meanwhile[i]);
        assert meanwhile[i..][1..] == meanwhile[i + 1..];
        i := i + 1;
      }
    }
    lease.Release();
  }

  function Elapsed(commands: seq<Command>): nat {
    if commands == [] then 0
    else (if commands[0].Pass? then commands[0].ms else 0) + Elapsed(commands[1..])
  }

  /** While less than the remaining lease passes, nobody else can take or delete the key; and the
      holder's release then removes its own key. */
  lemma {:induction false} HeldThroughout(k: Clocked, token: Token, meanwhile: seq<Command>)
    requires k.key.Some? && k.key.value.token == token
    requires k.now + Elapsed(meanwhile) < k.key.value.until
    requires forall c :: c in meanwhile && !c.Pass? ==> c.token != token
    ensures var k' := ExecuteAll(k, meanwhile);
            && k'.key == k.key && Execute(k', TryRelease(token)).key == None
    decreases |meanwhile|
  {
    if meanwhile != [] {
      assert meanwhile[0] in meanwhile;
      HeldThroughout(Execute(k, meanwhile[0]), token, meanwhile[1..]);
    }
  }
}
