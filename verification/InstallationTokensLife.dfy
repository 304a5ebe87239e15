/** How long a minted installation token is handed out: up to the margin before it expires, and not
    beyond an invalidation.
 */
module InstallationTokensLife {
  import opened Wrappers
  import opened InstallationTokens
  import SF = SingleFlight

  /** The installation is not invalidated and no other token of it is minted. */
  ghost predicate LeftAlone(s: State, e: Event, key: string) {
    && e != Drop(key)
    && (e.MintEnd? ==> !(e.t in s.calls && s.calls[e.t] == Minting(key)))
  }

  ghost predicate RunLeftAlone(s: State, events: seq<Event>, key: string) {
    events == [] ||
    (RunLeftAlone(s, events[..|events| - 1], key) &&
     LeftAlone(RunFrom(s, events[..|events| - 1]), events[|events| - 1], key))
  }

  /** The token is what the cache has, and it is there as long as it is usable. */
  ghost predicate Holds(s: State, key: string, token: Token) {
    && (key in s.cache ==> s.cache[key] == token)
    && (Live(token, s.now, s.margin) ==> key in s.cache)
  }

  lemma StepHolds(s: State, e: Event, key: string, token: Token)
    requires Holds(s, key, token) && LeftAlone(s, e, key)
    ensures Holds(Step(s, e), key, token) && Step(s, e).margin == s.margin
  {}

  lemma {:induction false} RunHolds(s: State, events: seq<Event>, key: string, token: Token)
    requires Holds(s, key, token) && RunLeftAlone(s, events, key)
    ensures Holds(RunFrom(s, events), key, token) && RunFrom(s, events).margin == s.margin
  {
    if events != [] {
      RunHolds(s, events[..|events| - 1], key, token);
      StepHolds(RunFrom(s, events[..|events| - 1]), events[|events| - 1], key, token);
    }
  }

  /** After a mint, while the installation is not invalidated nor minted again, whatever else runs: a
      new call gets that token at once exactly while it has more life left than a minute and than the
      configured margin; otherwise it waits or mints. */
  lemma HandedOutUntilMargin(configured: int, s: State, t: SF.Task, key: string, token: Token, events: seq<Event>, u: SF.Task)
    requires s.margin == Margin(configured) && t in s.calls && s.calls[t] == Minting(key)
    requires RunLeftAlone(Step(s, MintEnd(t, token)), events, key)
    requires u !in RunFrom(Step(s, MintEnd(t, token)), events).calls
    ensures var later := RunFrom(Step(s, MintEnd(t, token)), events); var asked := Step(later, Begin(u, key));
            && u in asked.calls
            && (asked.calls[u].Returned? <==> token.expiresAt - later.now > 60 && token.expiresAt - later.now > configured)
            && (asked.calls[u].Returned? ==>
                  asked.calls[u] == Returned(key, token, later.now, false) && asked.mints == later.mints)
            && (!asked.calls[u].Returned? ==> asked.calls[u] == Waiting(key) || asked.calls[u] == Minting(key))
  {
    var minted := Step(s, MintEnd(t, token));
    RunHolds(minted, events, key, token);
    var later := RunFrom(minted, events);
    if !Hit(later.cache, key, later.now, later.margin) { BeginMisses(later, u, key); }
  }

  /** So with nothing else going on a token that was minted at time `s.now` serves until its margin. */
  lemma ServesUntilMargin(configured: int, s: State, t: SF.Task, key: string, token: Token, d: nat, u: SF.Task)
    requires s.margin == Margin(configured) && t in s.calls && s.calls[t] == Minting(key) && u !in s.calls
    ensures var asked := Step(Step(Step(s, MintEnd(t, token)), Tick(d)), Begin(u, key));
            && u in asked.calls
            && (asked.calls[u].Returned? <==> s.now + d < token.expiresAt - 60 && s.now + d < token.expiresAt - configured)
  {
    var minted := Step(s, MintEnd(t, token));
    assert [Tick(d)][..0] == [];
    assert RunFrom(minted, []) == minted && RunLeftAlone(minted, [], key);
    assert RunFrom(minted, [Tick(d)]) == Step(minted, Tick(d));
    HandedOutUntilMargin(configured, s, t, key, token, [Tick(d)], u);
  }

  // ---------------------------------------------------------------- invalidation

  ghost predicate AnsweredSince(base: State, s: State, key: string, t: SF.Task) {
    t in s.calls && s.calls[t].Returned? && s.calls[t].key == key && !Settled(base, t) ==>
      Mint(key, s.calls[t].token) in NewMints(base, s, key)
  }

  /** What is cached and what was answered since `base` was minted since. */
  ghost predicate NewOnly(base: State, s: State, key: string) {
    && base.mints <= s.mints
    && (key in s.cache ==> Mint(key, s.cache[key]) in NewMints(base, s, key))
    && (forall t :: AnsweredSince(base, s, key, t))
  }

  lemma MintsGrow(s: State, e: Event)
    ensures var s' := Step(s, e);
            && s.mints <= s'.mints && |s'.mints| <= |s.mints| + 1
            && (s'.mints != s.mints ==> e.MintEnd? && e.t in s.calls && s.calls[e.t].Minting? &&
                                        s'.mints[|s.mints|] == Mint(s.calls[e.t].key, e.token))
  {}

  lemma StepNewOnly(base: State, s: State, e: Event, key: string)
    requires NewOnly(base, s, key)
    ensures NewOnly(base, Step(s, e), key)
  {
    var s' := Step(s, e);
    MintsGrow(s, e);
    NewMintsStep(base, s, s', key);
    forall t ensures AnsweredSince(base, s', key, t) { assert AnsweredSince(base, s, key, t); }
  }

  lemma {:induction false} RunNewOnly(base: State, s: State, events: seq<Event>, key: string)
    requires NewOnly(base, s, key)
    ensures NewOnly(base, RunFrom(s, events), key)
  {
    if events != [] {
      RunNewOnly(base, s, events[..|events| - 1], key);
      StepNewOnly(base, RunFrom(s, events[..|events| - 1]), events[|events| - 1], key);
    }
  }

  /** After an invalidation every call that answers, also one that was waiting at the time, answers a
      token whose mint ended after it. */
  lemma InvalidatedNeverAnswered(base: State, key: string, events: seq<Event>, t: SF.Task)
    requires var s := RunFrom(Step(base, Drop(key)), events);
             t in s.calls && s.calls[t].Returned? && s.calls[t].key == key && !Settled(base, t)
    ensures var s := RunFrom(Step(base, Drop(key)), events);
            base.mints <= s.mints && Mint(key, s.calls[t].token) in s.mints[|base.mints|..]
  {
    var dropped := Step(base, Drop(key));
    forall u ensures AnsweredSince(base, dropped, key, u) {}
    RunNewOnly(base, dropped, events, key);
    var s := RunFrom(dropped, events);
    assert AnsweredSince(base, s, key, t);
    MintsOfThem(s.mints[|base.mints|..], key, Mint(key, s.calls[t].token));
  }

  lemma {:induction false} MintsOfThem(mints: seq<Mint>, key: string, m: Mint)
    requires m in MintsOf(mints, key)
    ensures m in mints
  {
    if m !in [mints[|mints| - 1]] { MintsOfThem(mints[..|mints| - 1], key, m); }
  }
}
