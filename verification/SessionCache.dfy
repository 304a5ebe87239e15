/** How stale an accepted session can be: the cached validity bit against the committed row.

    Requests, commits of the identity service and cache invalidations interleave freely; in
    particular a service call invalidates the cache before it commits, so a request may read the
    old row after the invalidation and store the bit again.  Cache commands may fail (the request
    then reads the row, or simply does not store).
 */
module SessionCache {
  import opened Wrappers
  import opened Rounding

  // ---------------------------------------------------------------- entry lifetime

  /** `max(0, min(ratio, 0.5))`. */
  function Jitter(ratio: real): real { if ratio < 0.0 then 0.0 else if ratio > 0.5 then 0.5 else ratio }

  /** `ttl_for`, given the factor drawn uniformly from [1 - jitter, 1 + jitter]. */
  function TtlFor(base: int, factor: real): int {
    AtLeastOne(Round(Scaled(base, factor)))
  }

  function Scaled(base: int, factor: real): real { base as real * factor }

  function AtLeastOne(t: int): int { if t < 1 then 1 else t }

  lemma ScaledMonotone(base: int, x: real, y: real)
    requires 0.0 <= x <= y
    ensures if base >= 0 then Scaled(base, x) <= Scaled(base, y) else Scaled(base, x) <= 0.0 && Scaled(base, y) <= 0.0
  {}

  lemma TtlMonotone(base: int, x: real, y: real)
    requires 0.0 <= x <= y
    ensures 1 <= TtlFor(base, x) <= TtlFor(base, y)
  {
    ScaledMonotone(base, x, y);
    if base >= 0 {
      RoundMonotone(Scaled(base, x), Scaled(base, y));
    } else {
      RoundMonotone(Scaled(base, x), 0.0);
      RoundMonotone(Scaled(base, y), 0.0);
    }
  }

  /** Every draw gives at least a second and lies between the two extreme draws. */
  lemma TtlForBounds(base: int, ratio: real, factor: real)
    requires 1.0 - Jitter(ratio) <= factor <= 1.0 + Jitter(ratio)
    ensures 1 <= TtlFor(base, 1.0 - Jitter(ratio)) <= TtlFor(base, factor) <= TtlFor(base, 1.0 + Jitter(ratio))
  {
    TtlMonotone(base, 1.0 - Jitter(ratio), factor);
    TtlMonotone(base, factor, 1.0 + Jitter(ratio));
  }

  /** The ratio is cut to between 0 and one half. */
  lemma JitterCut(ratio: real)
    ensures 0.0 <= Jitter(ratio) <= 0.5
    ensures forall x: real :: 0.0 <= x <= 0.5 ==> Distance(ratio, Jitter(ratio)) <= Distance(ratio, x)
  {}

  function Distance(x: real, y: real): real { if x < y then y - x else x - y }

  /** The lifetime is the drawn one to the nearest second, and at least one second. */
  lemma TtlIsNearest(base: int, factor: real)
    ensures var drawn := base as real * factor;
            if drawn < 1.0 then TtlFor(base, factor) == 1 else drawn - 0.5 <= TtlFor(base, factor) as real <= drawn + 0.5
  {
    RoundIsNearest(Scaled(base, factor), Round(Scaled(base, factor)));
  }

  const SESSION_TTL_SECONDS := 60
  const SESSION_JITTER := 0.05

  /** With the shipped settings the bit lives between 57 and 63 seconds. */
  lemma SessionTtl(factor: real)
    requires 1.0 - SESSION_JITTER <= factor <= 1.0 + SESSION_JITTER
    ensures 57 <= TtlFor(SESSION_TTL_SECONDS, factor) <= 63
  {
    TtlForBounds(SESSION_TTL_SECONDS, SESSION_JITTER, factor);
    assert 60.0 * 0.95 == 57.0 && 60.0 * 1.05 == 63.0;
    assert (57.0).Floor == 57 && (63.0).Floor == 63;
  }

  // ---------------------------------------------------------------- state

  /** A committed row with the times of its commits; `revokedAt` absent means not revoked. */
  datatype Row = Row(userId: string, createdAt: int, expiresAt: int, revokedAt: Option<int>)

  /** The row was committed, unrevoked, unexpired and this user's at time `t`. */
  predicate ValidAt(rows: map<nat, Row>, userId: string, id: nat, t: int) {
    && id in rows && rows[id].userId == userId
    && rows[id].createdAt <= t < rows[id].expiresAt
    && (rows[id].revokedAt.Some? ==> t <= rows[id].revokedAt.value)
  }

  /** The cached bit: until when, and when the row behind it was read and the bit stored. */
  datatype Bit = Bit(until: int, checkedAt: int, storedAt: int)

  datatype Name = Name(userId: string, id: nat)

  /** `Accepted` records the time of acceptance, when the row behind it was read, and how long the
      request that read it took to store the bit. */
  datatype Request =
    | Begun(name: Name)
    | Missed(name: Name)
    | Checked(name: Name, at: int)
    | Accepted(name: Name, time: int, checkedAt: int, gap: int)
    | Refused

  datatype State = State(
    maxTtl: int, now: int, rows: map<nat, Row>, bits: map<Name, Bit>, requests: map<nat, Request>)

  datatype Event =
    | Tick(d: nat)
    | CommitRow(id: nat, userId: string, expiresAt: int)
    | CommitRevoke(id: nat)
    | Invalidate(name: Name)
    | InvalidateUser(userId: string)
    | Begin(r: nat, name: Name)
    | ReadBit(r: nat)
    | ReadFails(r: nat)
    | ReadRow(r: nat)
    | StoreBit(r: nat, ttl: int)
    | StoreFails(r: nat)

  function Init(maxTtl: int, now: int): State { State(maxTtl, now, map[], map[], map[]) }

  predicate RowActive(row: Row, now: int) { row.revokedAt.None? && now < row.expiresAt }

  function Step(s: State, e: Event): State {
    match e
    case Tick(d) => s.(now := s.now + d)
    case CommitRow(id, userId, expiresAt) =>
      if id in s.rows then s else s.(rows := s.rows[id := Row(userId, s.now, expiresAt, None)])
    case CommitRevoke(id) =>
      if id in s.rows && s.rows[id].revokedAt.None?
      then s.(rows := s.rows[id := s.rows[id].(revokedAt := Some(s.now))]) else s
    case Invalidate(name) => s.(bits := s.bits - {name})
    case InvalidateUser(userId) => s.(bits := map n | n in s.bits && n.userId != userId :: s.bits[n])
    case Begin(r, name) => if r in s.requests then s else s.(requests := s.requests[r := Begun(name)])
    case ReadBit(r) =>
      if r in s.requests && s.requests[r].Begun? then
        var name := s.requests[r].name;
        s.(requests := s.requests[r :=
          if name in s.bits && s.now < s.bits[name].until
          then Accepted(name, s.now, s.bits[name].checkedAt, s.bits[name].storedAt - s.bits[name].checkedAt)
          else Missed(name)])
      else s
    case ReadFails(r) =>
      if r in s.requests && s.requests[r].Begun? then s.(requests := s.requests[r := Missed(s.requests[r].name)]) else s
    case ReadRow(r) =>
      if r in s.requests && s.requests[r].Missed? then
        var name := s.requests[r].name;
        if name.id in s.rows && RowActive(s.rows[name.id], s.now) && s.rows[name.id].userId == name.userId
        then s.(requests := s.requests[r := Checked(name, s.now)])
        else s.(requests := s.requests[r := Refused], bits := s.bits - {name})
      else s
    case StoreBit(r, ttl) =>
      if r in s.requests && s.requests[r].Checked? && 1 <= ttl <= s.maxTtl then
        var c := s.requests[r];
        s.(bits := s.bits[c.name := Bit(s.now + ttl, c.at, s.now)],
           requests := s.requests[r := Accepted(c.name, s.now, c.at, s.now - c.at)])
      else s
    case StoreFails(r) =>
      if r in s.requests && s.requests[r].Checked? then
        var c := s.requests[r];
        s.(requests := s.requests[r := Accepted(c.name, s.now, c.at, s.now - c.at)])
      else s
  }

  function Run(maxTtl: int, now: int, events: seq<Event>): State {
    if events == [] then Init(maxTtl, now)
    else Step(Run(maxTtl, now, events[..|events| - 1]), events[|events| - 1])
  }

  // ---------------------------------------------------------------- staleness

  ghost predicate BitOk(s: State, n: Name) {
    n in s.bits ==>
      && s.bits[n].checkedAt <= s.bits[n].storedAt <= s.now
      && s.bits[n].until <= s.bits[n].storedAt + s.maxTtl
      && ValidAt(s.rows, n.userId, n.id, s.bits[n].checkedAt)
  }

  ghost predicate RequestOk(s: State, r: nat) {
    r in s.requests ==>
      match s.requests[r]
      case Checked(n, at) => at <= s.now && ValidAt(s.rows, n.userId, n.id, at)
      case Accepted(n, time, at, gap) =>
        && at <= time <= s.now && ValidAt(s.rows, n.userId, n.id, at)
        && gap >= 0 && (time - at < s.maxTtl + gap || time - at == gap)
      case _ => true
  }

  ghost predicate RowOk(s: State, id: nat) {
    id in s.rows ==> s.rows[id].createdAt <= s.now && (s.rows[id].revokedAt.Some? ==> s.rows[id].revokedAt.value <= s.now)
  }

  ghost predicate Inv(s: State) {
    && (forall id :: RowOk(s, id))
    && (forall n :: BitOk(s, n))
    && (forall r :: RequestOk(s, r))
  }

  lemma BitStaysOk(s: State, e: Event, n: Name)
    requires BitOk(s, n) && RowOk(s, n.id) && (e.StoreBit? ==> RequestOk(s, e.r))
    ensures BitOk(Step(s, e), n)
  {}

  lemma RequestStaysOk(s: State, e: Event, r: nat)
    requires RequestOk(s, r)
    requires r in s.requests && !s.requests[r].Refused? ==>
               BitOk(s, s.requests[r].name) && RowOk(s, s.requests[r].name.id)
    ensures RequestOk(Step(s, e), r)
  {}

  lemma StepKeeps(s: State, e: Event)
    requires Inv(s)
    ensures Inv(Step(s, e)) && Step(s, e).maxTtl == s.maxTtl
  {
    var s' := Step(s, e);
    forall id ensures RowOk(s', id) { assert RowOk(s, id); }
    forall n ensures BitOk(s', n) {
      assert BitOk(s, n) && RowOk(s, n.id);
      if e.StoreBit? { assert RequestOk(s, e.r); }
      BitStaysOk(s, e, n);
    }
    forall r ensures RequestOk(s', r) {
      assert RequestOk(s, r);
      if r in s.requests && !s.requests[r].Refused? {
        assert BitOk(s, s.requests[r].name) && RowOk(s, s.requests[r].name.id);
      }
      RequestStaysOk(s, e, r);
    }
  }

  lemma {:induction false} RunKeeps(maxTtl: int, now: int, events: seq<Event>)
    ensures Inv(Run(maxTtl, now, events)) && Run(maxTtl, now, events).maxTtl == maxTtl
  {
    if events != [] {
      RunKeeps(maxTtl, now, events[..|events| - 1]);
      StepKeeps(Run(maxTtl, now, events[..|events| - 1]), events[|events| - 1]);
    }
  }

  /** A session accepted at time t was committed, unrevoked, unexpired and this user's at a time
      less than the longest lifetime plus the check-to-store gap before t (or exactly the gap). */
  lemma AcceptedWasValid(maxTtl: int, now: int, events: seq<Event>, r: nat)
    requires maxTtl >= 1
    requires r in Run(maxTtl, now, events).requests && Run(maxTtl, now, events).requests[r].Accepted?
    ensures var s := Run(maxTtl, now, events); var a := s.requests[r];
            && a.gap >= 0 && ValidAt(s.rows, a.name.userId, a.name.id, a.checkedAt)
            && a.time - (maxTtl + a.gap) < a.checkedAt <= a.time
  {
    RunKeeps(maxTtl, now, events);
    assert RequestOk(Run(maxTtl, now, events), r);
  }

  /** Once the revocation is committed, acceptances stop before the longest lifetime plus the
      longest gap has passed. */
  lemma RevocationTakesEffect(maxTtl: int, now: int, events: seq<Event>, r: nat)
    requires maxTtl >= 1
    requires var s := Run(maxTtl, now, events);
             && r in s.requests && s.requests[r].Accepted?
             && s.requests[r].name.id in s.rows && s.rows[s.requests[r].name.id].revokedAt.Some?
    ensures var s := Run(maxTtl, now, events); var a := s.requests[r];
            a.time < s.rows[a.name.id].revokedAt.value + maxTtl + a.gap
  {
    AcceptedWasValid(maxTtl, now, events, r);
  }

  // The bound is met although the service invalidates: it does so before it commits.

  lemma Extended(maxTtl: int, now: int, events: seq<Event>, e: Event) returns (more: seq<Event>)
    ensures Run(maxTtl, now, more) == Step(Run(maxTtl, now, events), e)
  {
    more := events + [e];
    assert more[..|events|] == events;
  }

  lemma ExtendedThrice(maxTtl: int, now: int, events: seq<Event>, a: Event, b: Event, c: Event) returns (more: seq<Event>)
    ensures Run(maxTtl, now, more) == Step(Step(Step(Run(maxTtl, now, events), a), b), c)
  {
    more := Extended(maxTtl, now, events, a);
    more := Extended(maxTtl, now, more, b);
    more := Extended(maxTtl, now, more, c);
  }

  lemma ReadMissed(s: State, name: Name)
    requires s.rows == map[] && s.bits == map[] && s.requests == map[]
    ensures Step(Step(Step(s, CommitRow(name.id, name.userId, s.now + 1)), Begin(0, name)), ReadBit(0))
            == s.(rows := map[name.id := Row(name.userId, s.now, s.now + 1, None)], requests := map[0 := Missed(name)])
  {}

  lemma ReadThenRevoked(s: State, name: Name)
    requires s.rows == map[name.id := Row(name.userId, s.now, s.now + 1, None)]
    requires s.bits == map[] && s.requests == map[0 := Missed(name)]
    ensures Step(Step(Step(s, Invalidate(name)), ReadRow(0)), CommitRevoke(name.id))
            == s.(rows := map[name.id := Row(name.userId, s.now, s.now + 1, Some(s.now))],
                  requests := map[0 := Checked(name, s.now)])
  {}

  lemma StoredThenAccepted(s: State, name: Name, at: int, gap: nat)
    requires s.requests == map[0 := Checked(name, at)] && s.maxTtl >= 1 && s.now == at
    ensures var stored := Step(Step(s, Tick(gap)), StoreBit(0, s.maxTtl));
            var s' := Step(Step(Step(stored, Tick(s.maxTtl - 1)), Begin(1, name)), ReadBit(1));
            && s'.rows == s.rows && 1 in s'.requests
            && s'.requests[1] == Accepted(name, at + gap + s.maxTtl - 1, at, gap)
  {
    var stored := Step(Step(s, Tick(gap)), StoreBit(0, s.maxTtl));
    assert name in stored.bits && stored.bits[name] == Bit(at + gap + s.maxTtl, at, at + gap);
  }

  lemma ReachRevoked(maxTtl: int, now: int, name: Name) returns (events: seq<Event>)
    ensures Run(maxTtl, now, events) == Init(maxTtl, now).(
              rows := map[name.id := Row(name.userId, now, now + 1, Some(now))],
              requests := map[0 := Checked(name, now)])
  {
    events := ExtendedThrice(maxTtl, now, [], CommitRow(name.id, name.userId, now + 1), Begin(0, name), ReadBit(0));
    ReadMissed(Init(maxTtl, now), name);
    ReadThenRevoked(Run(maxTtl, now, events), name);
    events := ExtendedThrice(maxTtl, now, events, Invalidate(name), ReadRow(0), CommitRevoke(name.id));
  }

  lemma StoreAndUse(maxTtl: int, now: int, events: seq<Event>, name: Name, gap: nat) returns (more: seq<Event>)
    requires maxTtl >= 1
    ensures var stored := Step(Step(Run(maxTtl, now, events), Tick(gap)), StoreBit(0, maxTtl));
            Run(maxTtl, now, more) == Step(Step(Step(stored, Tick(maxTtl - 1)), Begin(1, name)), ReadBit(1))
  {
    more := Extended(maxTtl, now, events, Tick(gap));
    more := Extended(maxTtl, now, more, StoreBit(0, maxTtl));
    more := ExtendedThrice(maxTtl, now, more, Tick(maxTtl - 1), Begin(1, name), ReadBit(1));
  }

  /** Request 0 reads the row between the invalidation and the commit of a revocation and stores
      the bit `gap` later; request 1 is accepted in the last instant of that bit. */
  lemma BoundIsMet(maxTtl: int, gap: nat, now: int, name: Name) returns (events: seq<Event>)
    requires maxTtl >= 1
    ensures var s := Run(maxTtl, now, events);
            && name.id in s.rows && s.rows[name.id].revokedAt == Some(now)
            && 1 in s.requests && s.requests[1] == Accepted(name, now + gap + maxTtl - 1, now, gap)
  {
    var reached := ReachRevoked(maxTtl, now, name);
    StoredThenAccepted(Run(maxTtl, now, reached), name, now, gap);
    events := StoreAndUse(maxTtl, now, reached, name, gap);
  }

  /** With the shipped settings, where the longest draw gives 63 seconds: an accepted session was
      valid less than 63 seconds plus the check-to-store gap before, and after a committed revocation
      acceptances stop within that time. */
  lemma ShippedBound(now: int, events: seq<Event>, r: nat)
    requires var s := Run(TtlFor(SESSION_TTL_SECONDS, 1.0 + SESSION_JITTER), now, events);
             r in s.requests && s.requests[r].Accepted?
    ensures TtlFor(SESSION_TTL_SECONDS, 1.0 + SESSION_JITTER) == 63
    ensures var s := Run(TtlFor(SESSION_TTL_SECONDS, 1.0 + SESSION_JITTER), now, events); var a := s.requests[r];
            && ValidAt(s.rows, a.name.userId, a.name.id, a.checkedAt) && a.time - 63 - a.gap < a.checkedAt <= a.time
            && (a.name.id in s.rows && s.rows[a.name.id].revokedAt.Some? ==>
                  a.time < s.rows[a.name.id].revokedAt.value + 63 + a.gap)
  {
    LongestShippedTtl();
    AcceptedWasValid(63, now, events, r);
  }

  lemma LongestShippedTtl()
    ensures TtlFor(SESSION_TTL_SECONDS, 1.0 + SESSION_JITTER) == 63
  {
    assert 60.0 * 1.05 == 63.0;
    assert (63.0).Floor == 63;
  }

  /** Every lifetime that the shipped settings can draw is allowed in such a run. */
  lemma ShippedDrawsAllowed(factor: real)
    requires 1.0 - SESSION_JITTER <= factor <= 1.0 + SESSION_JITTER
    ensures 1 <= TtlFor(SESSION_TTL_SECONDS, factor) <= TtlFor(SESSION_TTL_SECONDS, 1.0 + SESSION_JITTER)
  {
    TtlForBounds(SESSION_TTL_SECONDS, SESSION_JITTER, factor);
  }

  // ---------------------------------------------------------------- how long a bit and a row are good

  /** Nobody drops or stores the bit of this session. */
  ghost predicate BitLeftAlone(s: State, e: Event, name: Name) {
    && e != Invalidate(name) && e != InvalidateUser(name.userId)
    && (e.StoreBit? && e.r in s.requests && s.requests[e.r].Checked? ==> s.requests[e.r].name != name)
    && (e.ReadRow? && e.r in s.requests && s.requests[e.r].Missed? ==> s.requests[e.r].name != name)
  }

  function RunFrom(s: State, events: seq<Event>): State {
    if events == [] then s else Step(RunFrom(s, events[..|events| - 1]), events[|events| - 1])
  }

  ghost predicate RunBitLeftAlone(s: State, events: seq<Event>, name: Name) {
    events == [] ||
    (RunBitLeftAlone(s, events[..|events| - 1], name) &&
     BitLeftAlone(RunFrom(s, events[..|events| - 1]), events[|events| - 1], name))
  }

  lemma StepLeavesBit(s: State, e: Event, name: Name)
    requires BitLeftAlone(s, e, name)
    ensures name in Step(s, e).bits <==> name in s.bits
    ensures name in s.bits ==> Step(s, e).bits[name] == s.bits[name]
  {}

  lemma {:induction false} RunLeavesBit(s: State, events: seq<Event>, name: Name)
    requires RunBitLeftAlone(s, events, name)
    ensures name in RunFrom(s, events).bits <==> name in s.bits
    ensures name in s.bits ==> RunFrom(s, events).bits[name] == s.bits[name]
  {
    if events != [] {
      RunLeavesBit(s, events[..|events| - 1], name);
      StepLeavesBit(RunFrom(s, events[..|events| - 1]), events[|events| - 1], name);
    }
  }

  /** A request looks for the bit and is accepted on it. */
  ghost predicate AcceptedOnBit(s: State, r: nat, name: Name) {
    var asked := Step(Step(s, Begin(r, name)), ReadBit(r));
    r in asked.requests && asked.requests[r].Accepted? && asked.rows == s.rows && asked.bits == s.bits
  }

  /** A stored bit lets requests in for exactly its lifetime, as long as nobody drops it or stores it
      again. */
  lemma BitGoodForItsTtl(s: State, w: nat, name: Name, at: int, ttl: int, events: seq<Event>, r: nat)
    requires w in s.requests && s.requests[w] == Checked(name, at) && 1 <= ttl <= s.maxTtl
    requires RunBitLeftAlone(Step(s, StoreBit(w, ttl)), events, name)
    requires r !in RunFrom(Step(s, StoreBit(w, ttl)), events).requests
    ensures var later := RunFrom(Step(s, StoreBit(w, ttl)), events);
            AcceptedOnBit(later, r, name) <==> later.now < s.now + ttl
  {
    RunLeavesBit(Step(s, StoreBit(w, ttl)), events, name);
  }

  /** After an invalidation of the session or of its user no request is accepted on the bit until
      somebody who read the row stores it again; sessions of other users keep their bits. */
  lemma InvalidatedUntilStored(s: State, e: Event, name: Name, events: seq<Event>, r: nat)
    requires e == Invalidate(name) || e == InvalidateUser(name.userId)
    requires RunBitLeftAlone(Step(s, e), events, name) && r !in RunFrom(Step(s, e), events).requests
    ensures !AcceptedOnBit(RunFrom(Step(s, e), events), r, name)
    ensures forall m :: m in s.bits && m.userId != name.userId ==> m in Step(s, e).bits && Step(s, e).bits[m] == s.bits[m]
  {
    RunLeavesBit(Step(s, e), events, name);
  }

  lemma {:induction false} RunLeavesRow(s: State, events: seq<Event>, id: nat)
    requires id in s.rows && CommitRevoke(id) !in events
    ensures id in RunFrom(s, events).rows && RunFrom(s, events).rows[id] == s.rows[id]
  {
    if events != [] {
      assert events == events[..|events| - 1] + [events[|events| - 1]];
      RunLeavesRow(s, events[..|events| - 1], id);
    }
  }

  ghost predicate Admitted(s: State, r: nat, name: Name, ttl: int) {
    r in Uninterrupted(s, r, name, ttl).requests && Uninterrupted(s, r, name, ttl).requests[r].Accepted?
  }

  lemma AdmittedExactly(s: State, r: nat, name: Name, ttl: int)
    requires r !in s.requests && 1 <= ttl <= s.maxTtl && !BitLive(s, name)
    ensures Admitted(s, r, name, ttl) <==>
            && name.id in s.rows && s.rows[name.id].userId == name.userId
            && s.rows[name.id].revokedAt.None? && s.now < s.rows[name.id].expiresAt
  {
    UninterruptedOutcome(s, r, name, ttl);
  }

  /** A session without a live bit is accepted for its own user from its commit until it expires, and
      not once its revocation is committed. */
  lemma RowDecides(s: State, id: nat, userId: string, expiresAt: int, events: seq<Event>, r: nat, name: Name, ttl: int)
    requires id !in s.rows && CommitRevoke(id) !in events && name.id == id
    requires var later := RunFrom(Step(s, CommitRow(id, userId, expiresAt)), events);
             r !in later.requests && 1 <= ttl <= later.maxTtl && !BitLive(later, name)
    ensures var later := RunFrom(Step(s, CommitRow(id, userId, expiresAt)), events);
            var revoked := Step(later, CommitRevoke(id));
            && (Admitted(later, r, name, ttl) <==> name.userId == userId && later.now < expiresAt)
            && !Admitted(revoked, r, name, ttl)
  {
    RunLeavesRow(Step(s, CommitRow(id, userId, expiresAt)), events, id);
    var later := RunFrom(Step(s, CommitRow(id, userId, expiresAt)), events);
    AdmittedExactly(later, r, name, ttl);
    AdmittedExactly(Step(later, CommitRevoke(id)), r, name, ttl);
  }

  // ---------------------------------------------------------------- one request

  /** A request that nobody interrupts; the last two events do nothing if it is decided already. */
  function Uninterrupted(s: State, r: nat, name: Name, ttl: int): State {
    Step(Step(Step(Step(s, Begin(r, name)), ReadBit(r)), ReadRow(r)), StoreBit(r, ttl))
  }

  predicate BitLive(s: State, name: Name) { name in s.bits && s.now < s.bits[name].until }

  lemma UninterruptedOutcome(s: State, r: nat, name: Name, ttl: int)
    requires r !in s.requests && 1 <= ttl <= s.maxTtl
    ensures var s' := Uninterrupted(s, r, name, ttl);
            var valid := name.id in s.rows && s.rows[name.id].userId == name.userId
                         && s.rows[name.id].revokedAt.None? && s.now < s.rows[name.id].expiresAt;
            && s'.rows == s.rows && s'.now == s.now && s'.maxTtl == s.maxTtl && r in s'.requests
            && (s'.requests[r].Accepted? <==> BitLive(s, name) || valid)
            && s'.bits == (if BitLive(s, name) then s.bits
                           else if valid then s.bits[name := Bit(s.now + ttl, s.now, s.now)] else s.bits - {name})
  {}

  /** `_get_authenticated_user`: the user row, the token type, the cached bit, then the session row.
      `state` is the state of the model. */
  class SessionGate {
    var activeUsers: map<string, bool>
    var now: int
    var rows: map<nat, Row>
    var validUntil: map<Name, int>
    ghost var state: State

    ghost predicate Valid()
      reads this
    {
      && state.now == now && state.rows == rows
      && validUntil == map n | n in state.bits :: state.bits[n].until
    }

    constructor (maxTtl: int, now: int)
      ensures Valid() && state == Init(maxTtl, now)
    {
      activeUsers, this.now, rows, validUntil := map[], now, map[], map[];
      state := Init(maxTtl, now);
    }

    /** `get_cached_session_valid`. */
    method GetCachedValid(name: Name) returns (valid: bool)
      requires Valid()
      ensures valid == BitLive(state, name)
    {
      valid := name in validUntil && now < validUntil[name];
    }

    /** The session part: the cached bit, then the row; `ttl` is the lifetime drawn for the bit. */
    method CheckSession(ghost r: nat, name: Name, ttl: int) returns (ok: bool)
      requires Valid() && r !in state.requests && 1 <= ttl <= state.maxTtl
      modifies this`validUntil, this`state
      ensures Valid()
      ensures state == Uninterrupted(old(state), r, name, ttl) && ok == state.requests[r].Accepted?
      ensures ok == BitLive(state, name) && (!ok ==> name !in state.bits)
    {
      UninterruptedOutcome(state, r, name, ttl);
      ghost var after := Uninterrupted(state, r, name, ttl);
      ok := GetCachedValid(name);
      if !ok {
        if name.id !in rows || rows[name.id].revokedAt.Some? || rows[name.id].expiresAt <= now
           || rows[name.id].userId != name.userId {
          validUntil := validUntil - {name};
        } else {
          validUntil := validUntil[name := now + ttl];
          ok := true;
        }
      }
      state := after;
    }

    /** The user row and the token type come first; neither touches the cache. */
    method Authenticate(ghost r: nat, name: Name, isAccessToken: bool, ttl: int) returns (ok: bool)
      requires Valid() && r !in state.requests && 1 <= ttl <= state.maxTtl
      modifies this`validUntil, this`state
      ensures Valid()
      ensures var known := name.userId in activeUsers && activeUsers[name.userId] && isAccessToken;
              if known then
                && state == Uninterrupted(old(state), r, name, ttl) && ok == state.requests[r].Accepted?
                && ok == BitLive(state, name) && (!ok ==> name !in state.bits)
              else !ok && state == old(state)
    {
      if name.userId !in activeUsers || !activeUsers[name.userId] || !isAccessToken {
        return false;
      }
      ok := CheckSession(r, name, ttl);
    }
  }
}
