/** Process-local cache of installation access tokens, filled under single flight.

    The cache functions do not suspend, so the first check, the entry into the lock table and,
    when the lock is free, the second check are one atomic segment; minting suspends.
 */
module InstallationTokens {
  import opened Wrappers
  import SF = SingleFlight
  import Budget = SingleFlightBudget

  datatype Token = Token(value: nat, expiresAt: int)

  /** At least a minute, whatever is configured. */
  function Margin(configured: int): int { if configured > 60 then configured else 60 }

  /** The token is still usable for longer than the margin. */
  predicate Live(t: Token, now: int, margin: int) { now < t.expiresAt - margin }

  type Cache = map<string, Token>

  predicate Hit(c: Cache, key: string, now: int, margin: int) { key in c && Live(c[key], now, margin) }

  /** `get_cached_installation_token` drops an entry that is no longer usable. */
  function AfterLookup(c: Cache, key: string, now: int, margin: int): Cache {
    if key in c && !Live(c[key], now, margin) then c - {key} else c
  }

  /** The dictionary of the module. */
  class TokenCache {
    const margin: int
    var entries: Cache

    constructor (configured: int)
      ensures margin == Margin(configured) && entries == map[]
    {
      margin, entries := Margin(configured), map[];
    }

    method Get(key: string, now: int) returns (token: Option<nat>)
      modifies this`entries
      ensures token == if old(Hit(entries, key, now, margin)) then Some(old(entries)[key].value) else None
      ensures entries == AfterLookup(old(entries), key, now, margin)
      ensures token.None? ==> key !in entries
    {
      if key !in entries {
        return None;
      }
      if now >= entries[key].expiresAt - margin {
        Invalidate(key);
        return None;
      }
      return Some(entries[key].value);
    }

    method Invalidate(key: string)
      modifies this`entries
      ensures entries == old(entries) - {key}
    {
      entries := entries - {key};
    }

    method Put(key: string, token: nat, expiresAt: int)
      modifies this`entries
      ensures entries == old(entries)[key := Token(token, expiresAt)]
    {
      entries := entries[key := Token(token, expiresAt)];
    }
  }

  // ---------------------------------------------------------------- runs

  /** `at` is when the answer was decided; `minted` says it came from the caller's own mint. */
  datatype Call =
    | Waiting(key: string)
    | Minting(key: string)
    | Returned(key: string, token: Token, at: int, minted: bool)
    | Failed

  datatype Mint = Mint(key: string, token: Token)

  datatype State = State(
    margin: int, now: int, cache: Cache, flight: SF.State, calls: map<SF.Task, Call>, mints: seq<Mint>)

  datatype Event =
    | Tick(d: nat)
    | Drop(key: string)
    | Begin(t: SF.Task, key: string)
    | Wake(t: SF.Task)
    | MintEnd(t: SF.Task, token: Token)
    | MintFails(t: SF.Task)
    | Cancel(t: SF.Task)

  function Init(configured: int, maxKeys: int, now: int): State {
    State(Margin(configured), now, map[], SF.Init(maxKeys), map[], [])
  }

  predicate Enabled(s: State, e: Event) {
    match e
    case Tick(_) => true
    case Drop(_) => true
    case Begin(t, _) => t !in s.calls
    case Wake(t) => t in s.calls && s.calls[t].Waiting? && SF.Enabled(s.flight, SF.Resume(t))
    case MintEnd(t, _) => t in s.calls && s.calls[t].Minting?
    case MintFails(t) => t in s.calls && s.calls[t].Minting?
    case Cancel(t) => t in s.calls && s.calls[t].Waiting?
  }

  /** The second check, made while holding the lock: answer and leave, or start minting. */
  function Inside(s: State, t: SF.Task, key: string): State {
    var looked := s.(cache := AfterLookup(s.cache, key, s.now, s.margin));
    if Hit(s.cache, key, s.now, s.margin)
    then looked.(flight := SF.Step(s.flight, SF.Leave(t)), calls := s.calls[t := Returned(key, s.cache[key], s.now, false)])
    else looked.(calls := s.calls[t := Minting(key)])
  }

  function BeginStep(s: State, t: SF.Task, key: string): State {
    if Hit(s.cache, key, s.now, s.margin)
    then s.(calls := s.calls[t := Returned(key, s.cache[key], s.now, false)])
    else
      var entered := s.(cache := AfterLookup(s.cache, key, s.now, s.margin),
                        flight := SF.Step(s.flight, SF.Enter(t, key)));
      if t in entered.flight.tasks && entered.flight.tasks[t].Loading? then Inside(entered, t, key)
      else entered.(calls := s.calls[t := Waiting(key)])
  }

  function Step(s: State, e: Event): State {
    if !Enabled(s, e) then s else
    match e
    case Tick(d) => s.(now := s.now + d)
    case Drop(key) => s.(cache := s.cache - {key})
    case Begin(t, key) => BeginStep(s, t, key)
    case Wake(t) => Inside(s.(flight := SF.Step(s.flight, SF.Resume(t))), t, s.calls[t].key)
    case MintEnd(t, token) =>
      var key := s.calls[t].key;
      s.(cache := s.cache[key := token],
         flight := SF.Step(s.flight, SF.Leave(t)),
         calls := s.calls[t := Returned(key, token, s.now, true)],
         mints := s.mints + [Mint(key, token)])
    case MintFails(t) => s.(flight := SF.Step(s.flight, SF.Leave(t)), calls := s.calls[t := Failed])
    case Cancel(t) => s.(flight := SF.Step(s.flight, SF.Cancel(t)), calls := s.calls[t := Failed])
  }

  function RunFrom(s: State, events: seq<Event>): State {
    if events == [] then s else Step(RunFrom(s, events[..|events| - 1]), events[|events| - 1])
  }

  // ---------------------------------------------------------------- the calls and the lock table

  ghost predicate CallOk(s: State, t: SF.Task) {
    && (t in s.flight.tasks <==> t in s.calls && (s.calls[t].Waiting? || s.calls[t].Minting?))
    && (t in s.flight.tasks ==>
          && s.flight.tasks[t].lock < |s.flight.locks|
          && s.flight.locks[s.flight.tasks[t].lock].key == s.calls[t].key
          && (s.calls[t].Minting? <==> s.flight.tasks[t].Loading?))
  }

  ghost predicate FlightOk(s: State) { SF.Inv(s.flight) && forall t :: CallOk(s, t) }

  lemma OthersOk(s: State, s': State, t: SF.Task)
    requires forall u :: CallOk(s, u)
    requires SF.SameLockKeys(s.flight, s'.flight) && CallOk(s', t)
    requires forall u :: u != t ==> (u in s'.calls <==> u in s.calls) && (u in s.calls ==> s'.calls[u] == s.calls[u])
    requires forall u :: u != t ==>
               && (u in s'.flight.tasks <==> u in s.flight.tasks)
               && (u in s.flight.tasks ==> s'.flight.tasks[u] == s.flight.tasks[u])
    ensures forall u :: CallOk(s', u)
  {
    forall u ensures CallOk(s', u) { assert CallOk(s, u); }
  }

  /** A caller that finds no usable token ends up minting or waiting. */
  lemma BeginMisses(s: State, t: SF.Task, key: string)
    requires !Hit(s.cache, key, s.now, s.margin)
    ensures var f := SF.Step(s.flight, SF.Enter(t, key)); var s' := BeginStep(s, t, key);
            s'.flight == f && s'.calls == s.calls[t := if t in f.tasks && f.tasks[t].Loading? then Minting(key) else Waiting(key)]
  {}

  lemma BeginKeepsFlight(s: State, t: SF.Task, key: string)
    requires FlightOk(s) && t !in s.calls
    ensures FlightOk(BeginStep(s, t, key)) && s.flight.orphaned <= BeginStep(s, t, key).flight.orphaned
  {
    assert CallOk(s, t);
    if !Hit(s.cache, key, s.now, s.margin) {
      SF.StepKeeps(s.flight, SF.Enter(t, key));
      SF.EnterCallers(s.flight, t, key);
      BeginMisses(s, t, key);
    }
    assert CallOk(BeginStep(s, t, key), t);
    OthersOk(s, BeginStep(s, t, key), t);
  }

  /** A woken waiter either answers and leaves at once or becomes the one that mints. */
  lemma WakeMoves(f: SF.State, t: SF.Task, leaves: bool)
    requires SF.Inv(f) && t in f.tasks && SF.Enabled(f, SF.Resume(t))
    ensures var resumed := SF.Step(f, SF.Resume(t));
            var f' := if leaves then SF.Step(resumed, SF.Leave(t)) else resumed;
            && SF.Inv(f') && f.orphaned <= f'.orphaned && SF.SameLockKeys(f, f')
            && (if leaves then f'.tasks == f.tasks - {t}
                else t in f'.tasks && f'.tasks == f.tasks[t := SF.Loading(f.tasks[t].lock)])
  {
    SF.StepKeeps(f, SF.Resume(t));
    SF.ResumeCallers(f, t);
    var resumed := SF.Step(f, SF.Resume(t));
    if leaves {
      SF.StepKeeps(resumed, SF.Leave(t));
      SF.LeaveCallers(resumed, t);
    }
  }

  /** The call `t` became `c`, and its place in the lock table moved along. */
  ghost predicate CallMoved(s: State, s': State, t: SF.Task, c: Call) {
    && s'.calls == s.calls[t := c]
    && SF.Inv(s'.flight) && s.flight.orphaned <= s'.flight.orphaned && SF.SameLockKeys(s.flight, s'.flight)
    && t in s.flight.tasks
    && match c
       case Minting(key) => t in s.calls && s.calls[t].Waiting? && key == s.calls[t].key &&
                            s'.flight.tasks == s.flight.tasks[t := SF.Loading(s.flight.tasks[t].lock)]
       case Waiting(_) => false
       case _ => s'.flight.tasks == s.flight.tasks - {t}
  }

  lemma CallMovedOk(s: State, s': State, t: SF.Task, c: Call)
    requires FlightOk(s) && CallMoved(s, s', t, c)
    ensures FlightOk(s') && s.flight.orphaned <= s'.flight.orphaned
  {
    assert CallOk(s, t);
    assert CallOk(s', t);
    OthersOk(s, s', t);
  }

  lemma WakeEffect(s: State, t: SF.Task, hit: bool)
    requires Enabled(s, Wake(t)) && hit == Hit(s.cache, s.calls[t].key, s.now, s.margin)
    ensures var s' := Step(s, Wake(t)); var resumed := SF.Step(s.flight, SF.Resume(t)); var key := s.calls[t].key;
            && s'.flight == (if hit then SF.Step(resumed, SF.Leave(t)) else resumed)
            && s'.calls == s.calls[t := if hit then Returned(key, s.cache[key], s.now, false) else Minting(key)]
  {}

  lemma WakeKeepsFlight(s: State, t: SF.Task)
    requires FlightOk(s) && Enabled(s, Wake(t))
    ensures FlightOk(Step(s, Wake(t))) && s.flight.orphaned <= Step(s, Wake(t)).flight.orphaned
  {
    assert CallMoved(s, Step(s, Wake(t)), t, Step(s, Wake(t)).calls[t]) by {
      assert CallOk(s, t);
      var hit := Hit(s.cache, s.calls[t].key, s.now, s.margin);
      WakeMoves(s.flight, t, hit);
      WakeEffect(s, t, hit);
    }
    CallMovedOk(s, Step(s, Wake(t)), t, Step(s, Wake(t)).calls[t]);
  }

  /** A caller that leaves the lock table. */
  lemma LeavingMove(f: SF.State, t: SF.Task, move: SF.Event)
    requires SF.Inv(f) && t in f.tasks && move == if f.tasks[t].Loading? then SF.Leave(t) else SF.Cancel(t)
    ensures var f' := SF.Step(f, move);
            SF.Inv(f') && f.orphaned <= f'.orphaned && SF.SameLockKeys(f, f') && f'.tasks == f.tasks - {t}
  {
    SF.StepKeeps(f, move);
    if move.Cancel? { SF.CancelCallers(f, t); } else { SF.LeaveCallers(f, t); }
  }

  lemma LeavingKeepsFlight(s: State, e: Event)
    requires FlightOk(s) && Enabled(s, e) && (e.MintEnd? || e.MintFails? || e.Cancel?)
    ensures FlightOk(Step(s, e)) && s.flight.orphaned <= Step(s, e).flight.orphaned
  {
    assert CallMoved(s, Step(s, e), e.t, Step(s, e).calls[e.t]) by {
      assert CallOk(s, e.t);
      LeavingMove(s.flight, e.t, if e.Cancel? then SF.Cancel(e.t) else SF.Leave(e.t));
    }
    CallMovedOk(s, Step(s, e), e.t, Step(s, e).calls[e.t]);
  }

  lemma StepKeepsFlight(s: State, e: Event)
    requires FlightOk(s)
    ensures FlightOk(Step(s, e)) && s.flight.orphaned <= Step(s, e).flight.orphaned
    ensures Step(s, e).margin == s.margin && s.now <= Step(s, e).now && s.mints <= Step(s, e).mints
  {
    if Enabled(s, e) {
      match e
      case Begin(t, key) => BeginKeepsFlight(s, t, key);
      case Wake(t) => WakeKeepsFlight(s, t);
      case MintEnd(_, _) => LeavingKeepsFlight(s, e);
      case MintFails(_) => LeavingKeepsFlight(s, e);
      case Cancel(_) => LeavingKeepsFlight(s, e);
      case _ => forall t ensures CallOk(Step(s, e), t) { assert CallOk(s, t); }
    }
  }

  // ---------------------------------------------------------------- answers are usable

  ghost predicate AnswerOk(s: State, t: SF.Task) {
    t in s.calls && s.calls[t].Returned? ==>
      var c := s.calls[t];
      && Mint(c.key, c.token) in s.mints && c.at <= s.now
      && (!c.minted ==> Live(c.token, c.at, s.margin))
  }

  ghost predicate CachedFrom(s: State, key: string) { key in s.cache ==> Mint(key, s.cache[key]) in s.mints }

  ghost predicate Answers(s: State) {
    (forall t :: AnswerOk(s, t)) && (forall key :: CachedFrom(s, key))
  }

  lemma StepKeepsAnswers(s: State, e: Event)
    requires Answers(s)
    ensures Answers(Step(s, e)) && Step(s, e).margin == s.margin
  {
    var s' := Step(s, e);
    forall key ensures CachedFrom(s', key) { assert CachedFrom(s, key); }
    forall t ensures AnswerOk(s', t) {
      assert AnswerOk(s, t);
      if e.Begin? { assert CachedFrom(s, e.key); }
      if e.Wake? && e.t in s.calls && s.calls[e.t].Waiting? { assert CachedFrom(s, s.calls[e.t].key); }
    }
  }

  lemma {:induction false} RunKeepsAnswers(s: State, events: seq<Event>)
    requires Answers(s)
    ensures Answers(RunFrom(s, events)) && RunFrom(s, events).margin == s.margin
  {
    if events != [] {
      RunKeepsAnswers(s, events[..|events| - 1]);
      StepKeepsAnswers(RunFrom(s, events[..|events| - 1]), events[|events| - 1]);
    }
  }

  /** Every answer is a token that was minted for this installation, and an answer that did not
      come from the caller's own mint had more life left than the margin when it was given. */
  lemma CachedAnswersUsable(configured: int, maxKeys: int, now: int, events: seq<Event>, t: SF.Task)
    requires var s := RunFrom(Init(configured, maxKeys, now), events); t in s.calls && s.calls[t].Returned?
    ensures var s := RunFrom(Init(configured, maxKeys, now), events); var c := s.calls[t];
            && Mint(c.key, c.token) in s.mints
            && (!c.minted ==> c.token.expiresAt - c.at > Margin(configured) >= 60)
  {
    RunKeepsAnswers(Init(configured, maxKeys, now), events);
    assert AnswerOk(RunFrom(Init(configured, maxKeys, now), events), t);
  }

  // ---------------------------------------------------------------- one mint

  // A window: any stretch of a run, from any consistent state on.  `base` is the state at its start.

  function MintsOf(mints: seq<Mint>, key: string): seq<Mint> {
    if mints == [] then []
    else MintsOf(mints[..|mints| - 1], key) + if mints[|mints| - 1].key == key then [mints[|mints| - 1]] else []
  }

  /** The mints of `key` since `base`. */
  ghost function NewMints(base: State, s: State, key: string): seq<Mint> {
    MintsOf(if base.mints <= s.mints then s.mints[|base.mints|..] else [], key)
  }

  /** For this key nothing is invalidated and no mint fails; waiters may give up. */
  ghost predicate QuietOn(s: State, e: Event, key: string) {
    match e
    case Drop(k) => k != key
    case MintFails(t) => t in s.calls && s.calls[t].Minting? ==> s.calls[t].key != key
    case _ => true
  }

  /** And no caller of this key refers to a lock that is not in the table any more. */
  ghost predicate QuietRun(s: State, events: seq<Event>, key: string) {
    && !SF.Adrift(RunFrom(s, events).flight, key)
    && (events == [] ||
        (QuietRun(s, events[..|events| - 1], key) &&
         QuietOn(RunFrom(s, events[..|events| - 1]), events[|events| - 1], key)))
  }

  ghost predicate AllLive(s: State, mints: seq<Mint>) {
    forall i :: 0 <= i < |mints| ==> Live(mints[i].token, s.now, s.margin)
  }

  ghost predicate MintingKey(s: State, t: SF.Task, key: string) {
    t in s.calls && s.calls[t] == Minting(key)
  }

  /** Answered before the window. */
  ghost predicate Settled(base: State, t: SF.Task) { t in base.calls && base.calls[t].Returned? }

  ghost predicate AnswerIs(base: State, s: State, key: string, m: seq<Mint>, t: SF.Task) {
    t in s.calls && s.calls[t].Returned? && s.calls[t].key == key && !Settled(base, t) ==> m == [Mint(key, s.calls[t].token)]
  }

  /** At most one mint since `base`, and none is under way once it has happened; then its token is
      cached, and every answer given since `base` is that token. */
  ghost predicate OneMint(base: State, s: State, key: string, m: seq<Mint>) {
    && |m| <= 1
    && (m == [] ==> !Hit(s.cache, key, s.now, s.margin))
    && (forall t :: MintingKey(s, t, key) ==> m == [])
    && (m != [] ==> key in s.cache && m == [Mint(key, s.cache[key])])
    && (forall t :: AnswerIs(base, s, key, m, t))
  }

  lemma NewMintsStep(base: State, s: State, s': State, key: string)
    requires base.mints <= s.mints <= s'.mints && |s'.mints| <= |s.mints| + 1
    ensures NewMints(base, s', key) ==
            if s'.mints != s.mints && s'.mints[|s.mints|].key == key then NewMints(base, s, key) + [s'.mints[|s.mints|]]
            else NewMints(base, s, key)
  {
    if s'.mints != s.mints {
      var more := s'.mints[|base.mints|..];
      assert more[..|more| - 1] == s.mints[|base.mints|..];
    }
  }

  lemma OneMinter(s: State, t: SF.Task, u: SF.Task, key: string)
    requires FlightOk(s) && !SF.Adrift(s.flight, key) && MintingKey(s, t, key) && MintingKey(s, u, key)
    ensures t == u
  {
    assert CallOk(s, t) && CallOk(s, u);
    SF.ExclusionInState(s.flight, t, u, key);
  }

  lemma OwnMintEnd(base: State, s: State, t: SF.Task, token: Token, key: string, m: seq<Mint>)
    requires FlightOk(s) && MintingKey(s, t, key) && !SF.Adrift(s.flight, key) && OneMint(base, s, key, m)
    ensures OneMint(base, Step(s, MintEnd(t, token)), key, m + [Mint(key, token)])
  {
    var s' := Step(s, MintEnd(t, token));
    forall u ensures !MintingKey(s', u, key) {
      if MintingKey(s', u, key) { assert MintingKey(s, u, key); OneMinter(s, t, u, key); }
    }
    forall u ensures AnswerIs(base, s', key, m + [Mint(key, token)], u) {
      if u != t { assert AnswerIs(base, s, key, m, u); }
    }
  }

  /** A step that leaves the key's entry alone and moves one call at most. */
  lemma OtherMoveOneMint(base: State, s: State, s': State, t: SF.Task, key: string, m: seq<Mint>)
    requires OneMint(base, s, key, m) && s.now <= s'.now && s'.margin == s.margin
    requires if m == [] then key in s'.cache ==> key in s.cache && s'.cache[key] == s.cache[key]
             else key in s'.cache && s'.cache[key] == s.cache[key]
    requires forall u :: u != t ==> (u in s'.calls <==> u in s.calls) && (u in s.calls ==> s'.calls[u] == s.calls[u])
    requires MintingKey(s', t, key) ==> m == []
    requires AnswerIs(base, s', key, m, t)
    ensures OneMint(base, s', key, m)
  {
    forall u | MintingKey(s', u, key) ensures m == [] {
      if u != t { assert MintingKey(s, u, key); }
    }
    forall u ensures AnswerIs(base, s', key, m, u) {
      if u != t { assert AnswerIs(base, s, key, m, u); }
    }
  }

  lemma BeginOneMint(base: State, s: State, t: SF.Task, k: string, key: string, m: seq<Mint>)
    requires t !in s.calls && OneMint(base, s, key, m) && AllLive(s, m)
    ensures OneMint(base, BeginStep(s, t, k), key, m)
  {
    if m != [] { assert Live(m[0].token, s.now, s.margin); }
    OtherMoveOneMint(base, s, BeginStep(s, t, k), t, key, m);
  }

  lemma WakeOneMint(base: State, s: State, t: SF.Task, key: string, m: seq<Mint>)
    requires Enabled(s, Wake(t)) && OneMint(base, s, key, m) && AllLive(s, m)
    ensures OneMint(base, Step(s, Wake(t)), key, m)
  {
    if m != [] { assert Live(m[0].token, s.now, s.margin); }
    OtherMoveOneMint(base, s, Step(s, Wake(t)), t, key, m);
  }

  lemma StepOneMint(base: State, s: State, e: Event, key: string)
    requires FlightOk(s) && QuietOn(s, e, key) && !SF.Adrift(s.flight, key) && base.mints <= s.mints
    requires OneMint(base, s, key, NewMints(base, s, key)) && AllLive(s, NewMints(base, s, key))
    ensures base.mints <= Step(s, e).mints && OneMint(base, Step(s, e), key, NewMints(base, Step(s, e), key))
  {
    StepKeepsFlight(s, e);
    var s', m := Step(s, e), NewMints(base, s, key);
    NewMintsStep(base, s, s', key);
    if Enabled(s, e) {
      match e
      case Begin(t, k) => BeginOneMint(base, s, t, k, key, m);
      case Wake(t) => WakeOneMint(base, s, t, key, m);
      case MintEnd(t, token) =>
        if s.calls[t].key == key { OwnMintEnd(base, s, t, token, key, m); }
        else { OtherMoveOneMint(base, s, s', t, key, m); }
      case MintFails(t) => OtherMoveOneMint(base, s, s', t, key, m);
      case Cancel(t) => OtherMoveOneMint(base, s, s', t, key, m);
      case _ =>
        forall t | MintingKey(s', t, key) ensures m == [] { assert MintingKey(s, t, key); }
        forall t ensures AnswerIs(base, s', key, m, t) { assert AnswerIs(base, s, key, m, t); }
    }
  }

  /** Tokens that are live now were live before, and there were no more of them. */
  lemma EarlierLive(base: State, s: State, s': State, key: string)
    requires base.mints <= s.mints <= s'.mints && |s'.mints| <= |s.mints| + 1
    requires s.now <= s'.now && s.margin == s'.margin && AllLive(s', NewMints(base, s', key))
    ensures AllLive(s, NewMints(base, s, key))
  {
    NewMintsStep(base, s, s', key);
    var m, m' := NewMints(base, s, key), NewMints(base, s', key);
    forall i | 0 <= i < |m| ensures Live(m[i].token, s.now, s.margin) { assert m'[i] == m[i]; }
  }

  lemma {:induction false} RunKeepsFlight(s: State, events: seq<Event>)
    requires FlightOk(s)
    ensures FlightOk(RunFrom(s, events)) && s.mints <= RunFrom(s, events).mints
  {
    if events != [] {
      RunKeepsFlight(s, events[..|events| - 1]);
      StepKeepsFlight(RunFrom(s, events[..|events| - 1]), events[|events| - 1]);
    }
  }

  lemma {:induction false} RunOneMint(base: State, events: seq<Event>, key: string)
    requires FlightOk(base) && !Hit(base.cache, key, base.now, base.margin) && QuietRun(base, events, key)
    requires AllLive(RunFrom(base, events), NewMints(base, RunFrom(base, events), key))
    ensures OneMint(base, RunFrom(base, events), key, NewMints(base, RunFrom(base, events), key))
  {
    if events != [] {
      var before, last := events[..|events| - 1], events[|events| - 1];
      var s := RunFrom(base, before);
      RunKeepsFlight(base, before);
      StepKeepsFlight(s, last);
      EarlierLive(base, s, RunFrom(base, events), key);
      RunOneMint(base, before, key);
      StepOneMint(base, s, last, key);
    }
  }

  /** Take any moment of any run at which the cache has no usable token for an installation.  While
      nothing is invalidated for it, no mint of it fails, none of its callers refers to an evicted
      lock, and as long as the tokens minted for it since then outlive the margin: once one call has
      answered, there has been exactly one mint, and every call that answered since returned that
      token.  Whatever happened before, to other installations, or to waiters that gave up. */
  lemma MintedExactlyOnce(base: State, events: seq<Event>, key: string, t: SF.Task)
    requires FlightOk(base) && !Hit(base.cache, key, base.now, base.margin) && QuietRun(base, events, key)
    requires var s := RunFrom(base, events);
             && AllLive(s, NewMints(base, s, key))
             && t in s.calls && s.calls[t].Returned? && s.calls[t].key == key && !Settled(base, t)
    ensures var s := RunFrom(base, events);
            && NewMints(base, s, key) == [Mint(key, s.calls[t].token)]
            && forall u :: u in s.calls && s.calls[u].Returned? && s.calls[u].key == key && !Settled(base, u) ==>
                 s.calls[u].token == s.calls[t].token
  {
    RunOneMint(base, events, key);
    var s := RunFrom(base, events);
    assert AnswerIs(base, s, key, NewMints(base, s, key), t);
    forall u | u in s.calls && s.calls[u].Returned? && s.calls[u].key == key && !Settled(base, u)
      ensures s.calls[u].token == s.calls[t].token
    {
      assert AnswerIs(base, s, key, NewMints(base, s, key), u);
    }
  }

  /** Every state of every run is a possible start of such a window. */
  lemma ReachableFlightOk(configured: int, maxKeys: int, now: int, events: seq<Event>)
    ensures FlightOk(RunFrom(Init(configured, maxKeys, now), events))
  {
    RunKeepsFlight(Init(configured, maxKeys, now), events);
  }

  /** The moves a step makes in the lock table: none, one, or two when a woken waiter leaves at once. */
  ghost function Moves(s: State, e: Event): seq<SF.Event> {
    if !Enabled(s, e) then [] else
    match e
    case Tick(_) => []
    case Drop(_) => []
    case Begin(t, key) => if Hit(s.cache, key, s.now, s.margin) then [] else [SF.Enter(t, key)]
    case Wake(t) => [SF.Resume(t)] + if Hit(s.cache, s.calls[t].key, s.now, s.margin) then [SF.Leave(t)] else []
    case MintEnd(t, _) => [SF.Leave(t)]
    case MintFails(t) => [SF.Leave(t)]
    case Cancel(t) => [SF.Cancel(t)]
  }

  ghost function Applied(f: SF.State, m: seq<SF.Event>): SF.State
    requires |m| <= 2
  {
    if m == [] then f else if |m| == 1 then SF.Step(f, m[0]) else SF.Step(SF.Step(f, m[0]), m[1])
  }

  lemma StepMoves(s: State, e: Event)
    ensures |Moves(s, e)| <= 2 && Step(s, e).flight == Applied(s.flight, Moves(s, e))
  {
    if Enabled(s, e) {
      match e
      case Begin(t, key) => if !Hit(s.cache, key, s.now, s.margin) { BeginMisses(s, t, key); }
      case Wake(t) => WakeEffect(s, t, Hit(s.cache, s.calls[t].key, s.now, s.margin));
      case _ =>
    }
  }

  /** The lock table inside a run of the cache makes a run of its own. */
  lemma {:induction false} FlightIsARun(s: State, maxKeys: int, events: seq<Event>) returns (moves: seq<SF.Event>)
    requires s.flight == SF.Init(maxKeys)
    ensures RunFrom(s, events).flight == SF.Run(maxKeys, moves)
  {
    if events == [] {
      moves := [];
    } else {
      var before, last := RunFrom(s, events[..|events| - 1]), events[|events| - 1];
      moves := FlightIsARun(s, maxKeys, events[..|events| - 1]);
      StepMoves(before, last);
      var m := Moves(before, last);
      if |m| >= 1 {
        SF.RunThen(maxKeys, moves, m[0]);
        moves := moves + [m[0]];
      }
      if |m| == 2 {
        SF.RunThen(maxKeys, moves, m[1]);
        moves := moves + [m[1]];
      }
    }
  }

  /** In a process that never met more than `max_keys` installations no caller ever refers to an
      evicted lock. */
  lemma WithinBudgetNeverAdrift(configured: int, maxKeys: int, now: int, events: seq<Event>, key: string)
    requires var f := RunFrom(Init(configured, maxKeys, now), events).flight; |f.seen| <= f.maxKeys
    ensures !SF.Adrift(RunFrom(Init(configured, maxKeys, now), events).flight, key)
  {
    var f := RunFrom(Init(configured, maxKeys, now), events).flight;
    var moves := FlightIsARun(Init(configured, maxKeys, now), maxKeys, events);
    Budget.WithinBudgetNothingOrphaned(maxKeys, moves);
    SF.RunKeeps(maxKeys, moves);
    if SF.Adrift(f, key) { SF.AdriftWasOrphaned(f, key); }
  }
}
