/** Fixed-window counter in Redis: INCR, and EXPIRE by whoever saw the count become 1.

    The two commands of one call are separate events; the second may come late or never (the
    caller crashed), and then lands on whatever counter is there at that moment.  `Clear` is
    `clear_rate_limit`, which deletes the counter.  Times are in milliseconds, as Redis keeps
    expiries, so calls within one second are told apart.
 */
module RateLimit {
  import opened Wrappers

  /** `expires` is absent until somebody sets it. */
  datatype Counter = Counter(count: int, expires: Option<int>)

  predicate Live(c: Option<Counter>, now: int) {
    c.Some? && (c.value.expires.None? || now < c.value.expires.value)
  }

  /** INCR: a missing or expired counter starts again at 1 without an expiry. */
  function Increment(c: Option<Counter>, now: int): Counter {
    if Live(c, now) then c.value.(count := c.value.count + 1) else Counter(1, None)
  }

  /** EXPIRE with a non-positive time deletes the key. */
  function SetExpiry(c: Option<Counter>, now: int, window: int): Option<Counter> {
    if window <= 0 then None else if !Live(c, now) then c else Some(c.value.(expires := Some(now + window)))
  }

  // ---------------------------------------------------------------- runs

  /** An admitted call: when its INCR was executed and in which counter lifetime. */
  datatype Admission = Admission(at: int, life: nat)

  /** `born[i]` is when lifetime `i` began; `owing` are the callers that still have to set the
      expiry; `cleared` is when a clear deleted a live counter.  Time starts at 0. */
  datatype State = State(
    limit: int, window: int, now: nat, counter: Option<Counter>,
    owing: set<nat>, log: seq<Admission>, born: seq<int>, cleared: seq<int>)

  datatype Event = Tick(d: nat) | Check(caller: nat) | Expire(caller: nat) | Clear

  /** The window is given to the source in seconds. */
  function Init(limit: int, seconds: int): State { State(limit, 1000 * seconds, 0, None, {}, [], [], []) }

  function Step(s: State, e: Event): State {
    match e
    case Tick(d) => s.(now := s.now + d)
    case Check(caller) =>
      var c := Increment(s.counter, s.now);
      var born := if Live(s.counter, s.now) then s.born else s.born + [s.now as int];
      s.(counter := Some(c), born := born,
         owing := if c.count == 1 then s.owing + {caller} else s.owing,
         log := if c.count > s.limit || born == [] then s.log else s.log + [Admission(s.now, |born| - 1)])
    case Expire(caller) =>
      if caller in s.owing
      then s.(counter := SetExpiry(s.counter, s.now, s.window), owing := s.owing - {caller})
      else s
    case Clear => s.(counter := None, cleared := if Live(s.counter, s.now) then s.cleared + [s.now as int] else s.cleared)
  }

  function Run(limit: int, seconds: int, events: seq<Event>): State {
    if events == [] then Init(limit, seconds)
    else Step(Run(limit, seconds, events[..|events| - 1]), events[|events| - 1])
  }

  function CountIn(log: seq<Admission>, from: int, to: int): nat {
    if log == [] then 0 else
    var e := log[|log| - 1];
    CountIn(log[..|log| - 1], from, to) + if from <= e.at < to then 1 else 0
  }

  function CountTimes(times: seq<int>, from: int, to: int): nat {
    if times == [] then 0 else
    var t := times[|times| - 1];
    CountTimes(times[..|times| - 1], from, to) + if from <= t < to then 1 else 0
  }

  function CountLife(log: seq<Admission>, life: nat): nat {
    if log == [] then 0 else
    CountLife(log[..|log| - 1], life) + if log[|log| - 1].life == life then 1 else 0
  }

  ghost predicate BornApart(s: State, i: nat) { i + 1 < |s.born| ==> s.born[i] + s.window <= s.born[i + 1] }

  ghost predicate AdmissionOk(s: State, a: Admission) {
    && a.life < |s.born| && s.born[a.life] <= a.at <= s.now
    && (a.life + 1 < |s.born| ==> a.at < s.born[a.life + 1])
    && (a.life + 1 == |s.born| && s.counter.Some? && s.counter.value.expires.Some? ==> a.at < s.counter.value.expires.value)
  }

  /** No lifetime admits more than the limit, and each one admits the call that began it. */
  ghost predicate LifeOk(s: State, i: nat) {
    && CountLife(s.log, i) <= Max(0, s.limit)
    && (i < |s.born| && s.limit >= 1 ==> Admission(s.born[i], i) in s.log)
  }

  function Max(a: int, b: int): int { if a > b then a else b }

  ghost predicate CounterOk(s: State) {
    && (s.counter.None? ==> s.born == [])
    && (s.counter.Some? ==>
          && s.born != [] && s.counter.value.count >= 1
          && CountLife(s.log, |s.born| - 1) <= s.counter.value.count
          && (s.counter.value.expires.Some? ==> s.born[|s.born| - 1] + s.window <= s.counter.value.expires.value))
    && (forall i: nat :: i >= |s.born| ==> CountLife(s.log, i) == 0)
    && (s.born != [] ==> s.born[|s.born| - 1] <= s.now)
  }

  ghost predicate Inv(s: State) {
    && s.window >= 1
    && CounterOk(s)
    && (forall i: nat :: BornApart(s, i))
    && (forall i: nat :: LifeOk(s, i))
    && (forall a :: a in s.log ==> AdmissionOk(s, a))
  }

  lemma CountLifeAppend(log: seq<Admission>, a: Admission, life: nat)
    ensures CountLife(log + [a], life) == CountLife(log, life) + if a.life == life then 1 else 0
  {
    assert (log + [a])[..|log|] == log;
  }

  lemma CheckCounterOk(s: State, caller: nat)
    requires s.window >= 1 && CounterOk(s)
    ensures CounterOk(Step(s, Check(caller)))
  {
    var s' := Step(s, Check(caller));
    forall i: nat ensures s'.log != s.log ==>
                            CountLife(s'.log, i) == CountLife(s.log, i) + if i == |s'.born| - 1 then 1 else 0 {
      if s'.log != s.log { CountLifeAppend(s.log, Admission(s.now, |s'.born| - 1), i); }
    }
  }

  lemma CheckLivesOk(s: State, caller: nat, i: nat)
    requires s.window >= 1 && CounterOk(s) && LifeOk(s, i) && BornApart(s, i)
    ensures LifeOk(Step(s, Check(caller)), i) && BornApart(Step(s, Check(caller)), i)
  {
    var s' := Step(s, Check(caller));
    CountLifeAppend(s.log, Admission(s.now, |s'.born| - 1), i);
  }

  lemma CheckKeeps(s: State, caller: nat)
    requires Inv(s)
    ensures Inv(Step(s, Check(caller)))
  {
    CheckCounterOk(s, caller);
    var s' := Step(s, Check(caller));
    forall i: nat ensures LifeOk(s', i) && BornApart(s', i) {
      assert LifeOk(s, i) && BornApart(s, i);
      CheckLivesOk(s, caller, i);
    }
    forall a | a in s'.log ensures AdmissionOk(s', a) {
      if a in s.log { assert AdmissionOk(s, a); }
    }
  }

  lemma StepKeeps(s: State, e: Event)
    requires Inv(s) && !e.Clear?
    ensures Inv(Step(s, e)) && Step(s, e).window == s.window && Step(s, e).limit == s.limit
  {
    var s' := Step(s, e);
    if e.Check? {
      CheckKeeps(s, e.caller);
    } else {
      forall i: nat ensures BornApart(s', i) { assert BornApart(s, i); }
      forall i: nat ensures LifeOk(s', i) { assert LifeOk(s, i); }
      forall a | a in s'.log ensures AdmissionOk(s', a) { assert AdmissionOk(s, a); }
    }
  }

  /** Nobody deletes the counter. */
  ghost predicate NoClear(events: seq<Event>) { forall e :: e in events ==> !e.Clear? }

  lemma {:induction false} RunKeeps(limit: int, seconds: int, events: seq<Event>)
    requires seconds >= 1 && NoClear(events)
    ensures var s := Run(limit, seconds, events); Inv(s) && s.limit == limit && s.window == 1000 * seconds
  {
    if events != [] {
      assert events[|events| - 1] in events;
      RunKeeps(limit, seconds, events[..|events| - 1]);
      StepKeeps(Run(limit, seconds, events[..|events| - 1]), events[|events| - 1]);
    }
  }

  // ---------------------------------------------------------------- bounds

  /** What one lifetime has admitted is within its count, and within the limit. */
  ghost predicate LivesOk(s: State) {
    && (s.counter.Some? ==> s.born != [] && s.counter.value.count >= 1)
    && (s.counter.Some? ==> CountLife(s.log, |s.born| - 1) <= s.counter.value.count)
    && (forall i: nat :: CountLife(s.log, i) <= if i < |s.born| then Max(0, s.limit) else 0)
  }

  lemma StepLivesOk(s: State, e: Event)
    requires LivesOk(s)
    ensures LivesOk(Step(s, e)) && Step(s, e).limit == s.limit
  {
    var s' := Step(s, e);
    if s'.log != s.log {
      forall i: nat ensures CountLife(s'.log, i) == CountLife(s.log, i) + if i == |s'.born| - 1 then 1 else 0 {
        CountLifeAppend(s.log, Admission(s.now, |s'.born| - 1), i);
      }
    }
  }

  lemma {:induction false} RunLivesOk(limit: int, seconds: int, events: seq<Event>)
    ensures LivesOk(Run(limit, seconds, events)) && Run(limit, seconds, events).limit == limit
  {
    if events != [] {
      RunLivesOk(limit, seconds, events[..|events| - 1]);
      StepLivesOk(Run(limit, seconds, events[..|events| - 1]), events[|events| - 1]);
    }
  }

  /** In one counter lifetime at most `limit` calls are admitted, whatever happens to the counter. */
  lemma PerLifetime(limit: int, seconds: int, events: seq<Event>, life: nat)
    ensures CountLife(Run(limit, seconds, events).log, life) <= Max(0, limit)
  {
    RunLivesOk(limit, seconds, events);
  }

  // How many admissions an interval of one window sees.  A counter from before the interval counted
  // its first call before it, and may expire inside; one that starts inside ends inside only when it
  // is cleared.

  lemma CountInAppend(log: seq<Admission>, a: Admission, from: int, to: int)
    ensures CountIn(log + [a], from, to) == CountIn(log, from, to) + if from <= a.at < to then 1 else 0
  {
    assert (log + [a])[..|log|] == log;
  }

  lemma CountTimesAppend(times: seq<int>, t: int, from: int, to: int)
    ensures CountTimes(times + [t], from, to) == CountTimes(times, from, to) + if from <= t < to then 1 else 0
  {
    assert (times + [t])[..|times|] == times;
  }

  /** What `k` full lifetimes admit. */
  function Full(limit: int, k: nat): int { if k == 0 then 0 else Full(limit, k - 1) + limit }

  lemma {:induction false} FullIsProduct(limit: int, k: nat)
    ensures Full(limit, k) == k * limit
  {
    if k > 0 { FullIsProduct(limit, k - 1); }
  }

  function ClearsIn(s: State, from: int): nat { CountTimes(s.cleared, from, from + s.window) }

  function AdmittedIn(s: State, from: int): nat { CountIn(s.log, from, from + s.window) }

  /** What may have been admitted by now, `k` clears into the interval that ends at `to`: the current
      counter gives what it has counted, and those before it a limit each. */
  function Allowance(s: State, k: nat, to: int): int {
    match s.counter
    case None => Full(s.limit, k + 1) - 1
    case Some(c) =>
      Full(s.limit, if c.expires.Some? && c.expires.value < to then k else k + 1) - 1 + Min(c.count, s.limit)
  }

  function Min(a: int, b: int): int { if a < b then a else b }

  ghost predicate WithinAllowance(s: State, from: int) {
    var to, k := from + s.window, ClearsIn(s, from);
    && s.limit >= 1 && s.window >= 1
    && (s.counter.Some? ==> s.counter.value.count >= 1)
    && (s.now < from ==> AdmittedIn(s, from) == 0 && k == 0)
    && (from <= s.now < to ==> AdmittedIn(s, from) <= Allowance(s, k, to))
    && AdmittedIn(s, from) <= Full(s.limit, k + 2) - 1
  }

  lemma CheckCounts(s: State, caller: nat, from: int)
    ensures var s', c := Step(s, Check(caller)), Increment(s.counter, s.now);
            && s'.limit == s.limit && s'.window == s.window && s'.now == s.now && s'.cleared == s.cleared
            && s'.counter == Some(c)
            && AdmittedIn(s', from)
               <= AdmittedIn(s, from) + if from <= s.now < from + s.window && c.count <= s.limit then 1 else 0
  {
    var s' := Step(s, Check(caller));
    if s'.log != s.log { CountInAppend(s.log, Admission(s.now, |s'.born| - 1), from, from + s.window); }
  }

  lemma CheckAllowed(s: State, from: int, k: nat)
    requires WithinAllowance(s, from) && k == ClearsIn(s, from) && from <= s.now < from + s.window
    ensures var c := Increment(s.counter, s.now);
            AdmittedIn(s, from) + (if c.count <= s.limit then 1 else 0)
            <= Allowance(s.(counter := Some(c)), k, from + s.window) <= Full(s.limit, k + 2) - 1
  {
    assert Full(s.limit, k + 1) == Full(s.limit, k) + s.limit;
    assert Full(s.limit, k + 2) == Full(s.limit, k + 1) + s.limit;
  }

  lemma CheckWithinAllowance(s: State, caller: nat, from: int)
    requires WithinAllowance(s, from)
    ensures WithinAllowance(Step(s, Check(caller)), from)
  {
    CheckCounts(s, caller, from);
    if from <= s.now < from + s.window { CheckAllowed(s, from, ClearsIn(s, from)); }
  }

  lemma ClearWithinAllowance(s: State, from: int)
    requires WithinAllowance(s, from)
    ensures WithinAllowance(Step(s, Clear), from)
  {
    var k := ClearsIn(s, from);
    assert Full(s.limit, k + 2) == Full(s.limit, k + 1) + s.limit;
    CountTimesAppend(s.cleared, s.now, from, from + s.window);
  }

  lemma StepWithinAllowance(s: State, e: Event, from: int)
    requires WithinAllowance(s, from)
    ensures WithinAllowance(Step(s, e), from)
  {
    assert Full(s.limit, ClearsIn(s, from) + 1) == Full(s.limit, ClearsIn(s, from)) + s.limit;
    assert Full(s.limit, 0) == 0;
    match e
    case Check(caller) => CheckWithinAllowance(s, caller, from);
    case Clear => ClearWithinAllowance(s, from);
    case _ =>
  }

  lemma {:induction false} RunWithinAllowance(limit: int, seconds: int, events: seq<Event>, from: int)
    requires limit >= 1 && seconds >= 1
    ensures var s := Run(limit, seconds, events);
            WithinAllowance(s, from) && s.limit == limit && s.window == 1000 * seconds
  {
    if events == [] {
      assert Full(limit, 2) == Full(limit, 1) + limit;
    } else {
      RunWithinAllowance(limit, seconds, events[..|events| - 1], from);
      StepWithinAllowance(Run(limit, seconds, events[..|events| - 1]), events[|events| - 1], from);
    }
  }

  /** The most admissions an interval of one window can see if `k` clears fall into it. */
  function WindowBound(limit: int, seconds: int, k: nat): int {
    if limit <= 0 || seconds <= 0 then 0 else (k + 2) * limit - 1
  }

  lemma {:induction false} NothingAdmitted(limit: int, seconds: int, events: seq<Event>)
    requires limit <= 0
    ensures var s := Run(limit, seconds, events);
            s.log == [] && s.limit == limit && (s.counter.Some? ==> s.counter.value.count >= 1)
  {
    if events != [] { NothingAdmitted(limit, seconds, events[..|events| - 1]); }
  }

  lemma {:induction false} EmptyInterval(log: seq<Admission>, from: int, to: int)
    requires to <= from
    ensures CountIn(log, from, to) == 0
  {
    if log != [] { EmptyInterval(log[..|log| - 1], from, to); }
  }

  /** In every run, also when the caller that owes the expiry crashes or is slow, a half-open interval
      of one window with `k` clears in it sees fewer than `k + 2` times the limit; so fewer than twice
      the limit if nobody clears the key. */
  lemma PerWindow(limit: int, seconds: int, events: seq<Event>, from: int)
    ensures var s := Run(limit, seconds, events);
            CountIn(s.log, from, from + 1000 * seconds)
            <= WindowBound(limit, seconds, CountTimes(s.cleared, from, from + 1000 * seconds))
  {
    if limit <= 0 {
      NothingAdmitted(limit, seconds, events);
    } else if seconds <= 0 {
      EmptyInterval(Run(limit, seconds, events).log, from, from + 1000 * seconds);
    } else {
      RunWithinAllowance(limit, seconds, events, from);
      FullIsProduct(limit, ClearsIn(Run(limit, seconds, events), from) + 2);
    }
  }

  // The bound is met: one call opens a lifetime, the rest of the limit follows just before it
  // expires, a full new lifetime follows at once, and another one after each clear.

  lemma RunThen(limit: int, seconds: int, events: seq<Event>, e: Event)
    ensures Run(limit, seconds, events + [e]) == Step(Run(limit, seconds, events), e)
  {
    assert (events + [e])[..|events|] == events;
  }

  /** `n` more calls were counted, and those inside the interval are the ones of this moment. */
  ghost predicate Counted(s: State, s': State, n: nat, from: int, to: int) {
    && s.counter.Some?
    && s' == s.(counter := Some(s.counter.value.(count := s.counter.value.count + n)), log := s'.log)
    && CountIn(s'.log, from, to) == CountIn(s.log, from, to) + if from <= s.now < to then n else 0
  }

  /** One more call of a live lifetime. */
  lemma OneMoreAdmits(s: State, from: int, to: int)
    requires Live(s.counter, s.now) && s.born != [] && 1 <= s.counter.value.count < s.limit
    ensures Counted(s, Step(s, Check(1)), 1, from, to)
  {
    CountInAppend(s.log, Admission(s.now, |s.born| - 1), from, to);
  }

  lemma CountedOnce(s: State, mid: State, s': State, n: nat, from: int, to: int)
    requires Counted(s, mid, n, from, to) && Counted(mid, s', 1, from, to)
    ensures Counted(s, s', n + 1, from, to)
  {}

  /** Further calls of a live lifetime, up to the limit. */
  lemma {:induction false} MoreCalls(limit: int, seconds: int, events: seq<Event>, n: nat, from: int, to: int)
    returns (more: seq<Event>)
    requires var s := Run(limit, seconds, events);
             && s.limit == limit && Live(s.counter, s.now) && s.born != [] && 1 <= s.counter.value.count
             && s.counter.value.count + n <= limit
    ensures Counted(Run(limit, seconds, events), Run(limit, seconds, more), n, from, to)
    ensures forall e :: e in more ==> e in events || e.Check?
  {
    more := events;
    if n > 0 {
      var mid := MoreCalls(limit, seconds, events, n - 1, from, to);
      more := mid + [Check(1)];
      RunThen(limit, seconds, mid, Check(1));
      OneMoreAdmits(Run(limit, seconds, mid), from, to);
      CountedOnce(Run(limit, seconds, events), Run(limit, seconds, mid), Run(limit, seconds, more), n - 1, from, to);
    }
  }

  /** The call that opens a lifetime. */
  lemma OpeningAdmits(s: State, from: int, to: int)
    requires s.limit >= 1 && !Live(s.counter, s.now)
    ensures var s' := Step(s, Check(0));
            && s'.counter == Some(Counter(1, None)) && s'.now == s.now && s'.born != [] && 0 in s'.owing
            && s'.window == s.window && s'.limit == s.limit && s'.cleared == s.cleared
            && CountIn(s'.log, from, to) == CountIn(s.log, from, to) + if from <= s.now < to then 1 else 0
  {
    CountInAppend(s.log, Admission(s.now, |s.born|), from, to);
  }

  lemma Opened(limit: int, seconds: int, from: int, to: int)
    requires limit >= 1
    ensures var s := Run(limit, seconds, [Check(0)]);
            && s.counter == Some(Counter(1, None)) && s.now == 0 && s.born != [] && 0 in s.owing && s.cleared == []
            && s.limit == limit && s.window == 1000 * seconds && CountIn(s.log, from, to) == if from <= 0 < to then 1 else 0
  {
    assert [] + [Check(0)] == [Check(0)];
    RunThen(limit, seconds, [], Check(0));
    OpeningAdmits(Init(limit, seconds), from, to);
  }

  /** `k` clears and `n` admissions so far in the window that begins just before the first expiry. */
  ghost predicate InWave(s: State, limit: int, seconds: int, now: int, k: nat, n: int) {
    && s.limit == limit && s.window == 1000 * seconds && s.now == now
    && ClearsIn(s, s.window - 1) == k && AdmittedIn(s, s.window - 1) == n
  }

  ghost predicate Wave(s: State, limit: int, seconds: int, now: int, k: nat, n: int) {
    InWave(s, limit, seconds, now, k, n) && s.counter.Some? && s.born != []
  }

  /** One call, its expiry, and then just enough time to be outside the interval. */
  lemma OpenedAndWaited(limit: int, seconds: int) returns (events: seq<Event>)
    requires limit >= 1 && seconds >= 1
    ensures var s := Run(limit, seconds, events);
            s.counter == Some(Counter(1, Some(s.window))) && Wave(s, limit, seconds, 1000 * seconds - 1, 0, 0)
  {
    Opened(limit, seconds, 1000 * seconds - 1, 2000 * seconds - 1);
    RunThen(limit, seconds, [Check(0)], Expire(0));
    RunThen(limit, seconds, [Check(0)] + [Expire(0)], Tick(1000 * seconds - 1));
    events := [Check(0)] + [Expire(0)] + [Tick(1000 * seconds - 1)];
  }

  /** A new lifetime begins. */
  lemma Opening(limit: int, seconds: int, events: seq<Event>, now: int, k: nat, n: int) returns (more: seq<Event>)
    requires limit >= 1 && 1000 * seconds - 1 <= now < 2000 * seconds - 1
    requires var s := Run(limit, seconds, events); !Live(s.counter, s.now) && InWave(s, limit, seconds, now, k, n)
    ensures var s' := Run(limit, seconds, more);
            s'.counter == Some(Counter(1, None)) && Wave(s', limit, seconds, now, k, n + 1)
  {
    more := events + [Check(0)];
    RunThen(limit, seconds, events, Check(0));
    OpeningAdmits(Run(limit, seconds, events), 1000 * seconds - 1, 2000 * seconds - 1);
  }

  lemma StillInWave(s: State, s': State, limit: int, seconds: int, now: int, k: nat, n: int)
    requires limit >= 1 && 1000 * seconds - 1 <= now < 2000 * seconds - 1
    requires Wave(s, limit, seconds, now, k, n)
    requires Counted(s, s', limit - 1, 1000 * seconds - 1, 2000 * seconds - 1)
    ensures Wave(s', limit, seconds, now, k, n + limit - 1)
  {}

  /** The rest of the limit of the current lifetime. */
  lemma Filling(limit: int, seconds: int, events: seq<Event>, now: int, k: nat, n: int) returns (more: seq<Event>)
    requires limit >= 1 && 1000 * seconds - 1 <= now < 2000 * seconds - 1
    requires var s := Run(limit, seconds, events);
             s.counter.Some? && s.counter.value.count == 1 && Live(s.counter, s.now) && Wave(s, limit, seconds, now, k, n)
    ensures var s, s' := Run(limit, seconds, events), Run(limit, seconds, more);
            && s'.counter == Some(Counter(limit, s.counter.value.expires))
            && Wave(s', limit, seconds, now, k, n + limit - 1)
  {
    more := MoreCalls(limit, seconds, events, limit - 1, 1000 * seconds - 1, 2000 * seconds - 1);
    ghost var s, s' := Run(limit, seconds, events), Run(limit, seconds, more);
    StillInWave(s, s', limit, seconds, now, k, n);
  }

  lemma FirstWaves(limit: int, seconds: int) returns (events: seq<Event>)
    requires limit >= 1 && seconds >= 1
    ensures FullWave(Run(limit, seconds, events), limit, seconds, 0, 2 * limit - 1)
  {
    var w := 1000 * seconds;
    var begun := OpenedAndWaited(limit, seconds);
    var filled := Filling(limit, seconds, begun, w - 1, 0, 0);
    RunThen(limit, seconds, filled, Tick(1));
    var reopened := Opening(limit, seconds, filled + [Tick(1)], w, 0, limit - 1);
    events := Filling(limit, seconds, reopened, w, 0, limit);
  }

  ghost predicate FullWave(s: State, limit: int, seconds: int, k: nat, n: int) {
    Wave(s, limit, seconds, 1000 * seconds, k, n) && s.counter.value.expires.None?
  }

  lemma ClearedWave(s: State, limit: int, seconds: int, k: nat, n: int)
    requires seconds >= 1 && FullWave(s, limit, seconds, k, n)
    ensures var s' := Step(s, Clear); s'.counter.None? && InWave(s', limit, seconds, 1000 * seconds, k + 1, n)
  {
    CountTimesAppend(s.cleared, s.now, s.window - 1, 2 * s.window - 1);
  }

  lemma NextWave(limit: int, seconds: int, earlier: seq<Event>, k: nat, n: int) returns (events: seq<Event>)
    requires limit >= 1 && seconds >= 1 && FullWave(Run(limit, seconds, earlier), limit, seconds, k, n)
    ensures FullWave(Run(limit, seconds, events), limit, seconds, k + 1, n + limit)
  {
    RunThen(limit, seconds, earlier, Clear);
    ClearedWave(Run(limit, seconds, earlier), limit, seconds, k, n);
    var begun := Opening(limit, seconds, earlier + [Clear], 1000 * seconds, k + 1, n);
    events := Filling(limit, seconds, begun, 1000 * seconds, k + 1, n + 1);
  }

  lemma {:induction false} Waves(limit: int, seconds: int, k: nat) returns (events: seq<Event>)
    requires limit >= 1 && seconds >= 1
    ensures FullWave(Run(limit, seconds, events), limit, seconds, k, Full(limit, k + 2) - 1)
  {
    if k == 0 {
      events := FirstWaves(limit, seconds);
      assert Full(limit, 2) == Full(limit, 1) + limit;
    } else {
      events := Waves(limit, seconds, k - 1);
      events := NextWave(limit, seconds, events, k - 1, Full(limit, k + 1) - 1);
    }
  }

  /** For every limit, window and number of clears some run and some interval meet the bound of
      `PerWindow`. */
  lemma WindowBoundIsMet(limit: int, seconds: int, k: nat) returns (events: seq<Event>, from: int)
    ensures var s, to := Run(limit, seconds, events), from + 1000 * seconds;
            && CountIn(s.log, from, to) == WindowBound(limit, seconds, k)
            && (limit >= 1 && seconds >= 1 ==> CountTimes(s.cleared, from, to) == k)
  {
    if limit <= 0 || seconds <= 0 {
      events, from := [], 0;
    } else {
      from := 1000 * seconds - 1;
      events := Waves(limit, seconds, k);
      FullIsProduct(limit, k + 2);
    }
  }

  lemma ClearAndCheck(s: State, from: int, to: int)
    requires s.limit >= 1 && from <= s.now < to
    ensures var s' := Step(Step(s, Clear), Check(0));
            s'.limit == s.limit && s'.now == s.now && CountIn(s'.log, from, to) == CountIn(s.log, from, to) + 1
  {
    OpeningAdmits(Step(s, Clear), from, to);
  }

  /** Clearing the key lifts the bound: any number of calls is admitted within one instant. */
  lemma {:induction false} ClearingLiftsBound(limit: int, seconds: int, n: nat) returns (events: seq<Event>)
    requires limit >= 1
    ensures var s := Run(limit, seconds, events); s.limit == limit && s.now == 0 && CountIn(s.log, 0, 1) == n
  {
    if n == 0 {
      events := [];
    } else {
      var fewer := ClearingLiftsBound(limit, seconds, n - 1);
      events := fewer + [Clear] + [Check(0)];
      RunThen(limit, seconds, fewer, Clear);
      RunThen(limit, seconds, fewer + [Clear], Check(0));
      ClearAndCheck(Run(limit, seconds, fewer), 0, 1);
    }
  }

  // ---------------------------------------------------------------- the lost expiry

  function RunFrom(s: State, events: seq<Event>): State {
    if events == [] then s else Step(RunFrom(s, events[..|events| - 1]), events[|events| - 1])
  }

  /** The limit is used up and nobody has set the expiry. */
  predicate Stuck(s: State) {
    s.counter.Some? && s.counter.value.expires.None? && s.counter.value.count >= s.limit && s.counter.value.count >= 1
  }

  /** Nobody clears the key, and the callers that owe an expiry have crashed. */
  ghost predicate Abandoned(events: seq<Event>) { forall e :: e in events ==> !e.Clear? && !e.Expire? }

  /** If whoever owes the expiry crashed, a used-up counter admits no call ever again. */
  lemma {:induction false} LockedOut(s: State, events: seq<Event>)
    requires Stuck(s) && Abandoned(events)
    ensures RunFrom(s, events).log == s.log && Stuck(RunFrom(s, events)) && RunFrom(s, events).limit == s.limit
  {
    if events != [] {
      assert events[|events| - 1] in events;
      LockedOut(s, events[..|events| - 1]);
    }
  }

  lemma FromOne(s: State, e: Event)
    ensures RunFrom(s, [e]) == Step(s, e)
  {
    assert [e][..0] == [];
  }

  lemma FromTwo(s: State, e: Event, f: Event)
    ensures RunFrom(s, [e, f]) == Step(Step(s, e), f)
  {
    FromOne(s, e);
    assert [e, f][..1] == [e];
  }

  /** And only such a counter: without the clears and the missing expiries, no call is admitted ever
      again exactly when the limit is used up and the counter has no expiry.  Any other key gets
      going again by itself, as soon as its counter has expired. */
  lemma LockedOutExactly(s: State)
    requires LivesOk(s) && s.limit >= 1
    ensures (forall events :: Abandoned(events) ==> RunFrom(s, events).log == s.log) <==> Stuck(s)
  {
    if Stuck(s) {
      forall events | Abandoned(events) ensures RunFrom(s, events).log == s.log { LockedOut(s, events); }
    } else {
      var d := if s.counter.Some? && s.counter.value.expires.Some? then Max(0, s.counter.value.expires.value - s.now) else 0;
      FromTwo(s, Tick(d), Check(0));
      assert Abandoned([Tick(d), Check(0)]);
      assert |RunFrom(s, [Tick(d), Check(0)]).log| == |s.log| + 1;
    }
  }

  /** And a single crash between the two commands can lead there, for every limit and window. */
  lemma CrashCanLockOut(limit: int, seconds: int) returns (events: seq<Event>)
    requires limit >= 1
    ensures Abandoned(events) && Stuck(Run(limit, seconds, events))
  {
    Opened(limit, seconds, 0, 0);
    events := MoreCalls(limit, seconds, [Check(0)], limit - 1, 0, 0);
  }

  lemma {:induction false} ExpiryIsNear(limit: int, seconds: int, events: seq<Event>)
    ensures var s := Run(limit, seconds, events);
            && s.limit == limit && s.window == 1000 * seconds
            && (s.counter.Some? && s.counter.value.expires.Some? ==> s.counter.value.expires.value <= s.now + s.window)
  {
    if events != [] { ExpiryIsNear(limit, seconds, events[..|events| - 1]); }
  }

  /** In every run a key whose counter has an expiry, or that has no counter, admits a call again once
      a whole window has passed, however many calls were refused. */
  lemma RecoversWithinWindow(limit: int, seconds: int, events: seq<Event>, d: nat, caller: nat)
    requires limit >= 1 && d >= 1000 * seconds
    requires var c := Run(limit, seconds, events).counter; c.None? || c.value.expires.Some?
    ensures var s := Run(limit, seconds, events); |Step(Step(s, Tick(d)), Check(caller)).log| == |s.log| + 1
  {
    ExpiryIsNear(limit, seconds, events);
  }

  /** With no window at all the expiry deletes the counter, so calls that run uninterrupted are all
      admitted. */
  lemma NoWindowAdmitsAll(s: State, caller: nat)
    requires s.window <= 0 && s.limit >= 1 && s.counter.None?
    ensures var s' := Step(Step(s, Check(caller)), Expire(caller)); s'.counter.None? && |s'.log| == |s.log| + 1
  {}

  /** A clear gets the key going again. */
  lemma ClearUnlocks(s: State, caller: nat)
    requires s.limit >= 1
    ensures |Step(Step(s, Clear), Check(caller)).log| == |s.log| + 1
  {}

  // ---------------------------------------------------------------- commands

  predicate WouldAdmit(s: State, caller: nat) { Increment(s.counter, s.now).count <= s.limit }

  predicate Enforced(s: State) { Live(s.counter, s.now) ==> s.counter.value.count <= s.limit }

  /** `enforce_rate_limit` and `check_rate_limit` disagree in one case only: at exactly the limit the
      first still lets the caller through and the second refuses it. */
  lemma EnforceLagsByOne(s: State, caller: nat)
    requires LivesOk(s) && s.limit >= 1
    ensures WouldAdmit(s, caller) <==> |Step(s, Check(caller)).log| > |s.log|
    ensures WouldAdmit(s, caller) ==> Enforced(s)
    ensures Enforced(s) && !WouldAdmit(s, caller) <==> Live(s.counter, s.now) && s.counter.value.count == s.limit
  {}

  /** The counter under one key of Redis, and the limiter's calls on it run without interruption;
      `state` is the state of the model. */
  class LimitedKey {
    const limit: int
    const windowSeconds: int
    var counter: Option<Counter>
    var now: nat
    ghost var state: State

    ghost predicate Valid()
      reads this
    {
      state.limit == limit && state.window == 1000 * windowSeconds && state.counter == counter && state.now == now && LivesOk(state)
    }

    constructor (limit: int, windowSeconds: int)
      ensures Valid() && state == Init(limit, windowSeconds)
    {
      this.limit, this.windowSeconds, counter, now := limit, windowSeconds, None, 0;
      state := Init(limit, windowSeconds);
    }

    /** `check_rate_limit`: counts the call, sets the expiry if it is the first, and admits it while
        the count is within the limit. */
    method CheckRateLimit(ghost caller: nat) returns (allowed: bool)
      requires Valid() && caller !in state.owing
      modifies this`counter, this`state
      ensures Valid() && state == Step(Step(old(state), Check(caller)), Expire(caller))
      ensures allowed <==> |state.log| == |old(state).log| + 1
    {
      StepLivesOk(state, Check(caller));
      StepLivesOk(Step(state, Check(caller)), Expire(caller));
      var c := Increment(counter, now);
      counter := Some(c);
      if c.count == 1 {
        counter := SetExpiry(counter, now, 1000 * windowSeconds);
      }
      allowed := c.count <= limit;
      state := Step(Step(state, Check(caller)), Expire(caller));
    }

    /** `clear_rate_limit`. */
    method ClearRateLimit()
      requires Valid()
      modifies this`counter, this`state
      ensures Valid() && state == Step(old(state), Clear)
    {
      StepLivesOk(state, Clear);
      counter := None;
      state := Step(state, Clear);
    }

    /** `enforce_rate_limit`: only looks. */
    method EnforceRateLimit() returns (allowed: bool)
      requires Valid()
      ensures allowed == Enforced(state)
    {
      allowed := true;
      if counter.Some? && (counter.value.expires.None? || now < counter.value.expires.value) {
        allowed := counter.value.count <= limit;
      }
    }
  }
}
