/** Refresh sessions of the identity service, operations run one after another.

    A token stands for its hash: hashing is taken to be injective, and `generate_refresh_token`
    never repeats.  Credentials, one-time codes and reset tokens are checked by code outside this
    model; their outcome is a parameter.
 */
module Sessions {
  import opened Wrappers

  datatype User = User(isActive: bool, isVerified: bool)

  /** The row id is its index; the token of row `i` is `i` as well, so both are unique. */
  datatype Session = Session(userId: string, revoked: bool, expiresAt: int)

  datatype Config = Config(refreshLifetime: nat, requireVerification: bool)

  /** The committed tables, the clock, and the log of refresh tokens that `refresh` accepted. */
  datatype Db = Db(now: int, users: map<string, User>, sessions: seq<Session>, accepted: seq<nat>)

  predicate Usable(u: User, cfg: Config) { u.isActive && (u.isVerified || !cfg.requireVerification) }

  /** `get_active_session_by_id` and the filter of `list_active_sessions`. */
  predicate Active(db: Db, id: nat) {
    id < |db.sessions| && !db.sessions[id].revoked && db.sessions[id].expiresAt > db.now
  }

  datatype Refusal = InvalidToken | Expired | UserGone | Unverified

  /** Why `refresh` refuses a token, in the order of its checks; `None` if it accepts. */
  function RefreshRefusal(db: Db, cfg: Config, token: nat): Option<Refusal> {
    if token >= |db.sessions| || db.sessions[token].revoked then Some(InvalidToken)
    else
      var s := db.sessions[token];
      if s.expiresAt < db.now then Some(Expired)
      else if s.userId !in db.users || !db.users[s.userId].isActive then Some(UserGone)
      else if cfg.requireVerification && !db.users[s.userId].isVerified then Some(Unverified)
      else None
  }

  function Revoke(db: Db, id: nat): Db {
    if id < |db.sessions| then db.(sessions := db.sessions[id := db.sessions[id].(revoked := true)]) else db
  }

  function Create(db: Db, cfg: Config, userId: string): Db {
    db.(sessions := db.sessions + [Session(userId, false, db.now + cfg.refreshLifetime)])
  }

  function RevokeActiveFrom(db: Db, userId: string, from: nat): Db
    requires from <= |db.sessions|
    decreases |db.sessions| - from
  {
    if from == |db.sessions| then db
    else RevokeActiveFrom(if db.sessions[from].userId == userId && Active(db, from) then Revoke(db, from) else db, userId, from + 1)
  }

  datatype Event =
    | Tick(d: nat)
    | SetUser(userId: string, user: User)
    | SignIn(userId: string, credentialsOk: bool)
    | Refresh(token: nat)
    | Logout(token: nat)
    | ResetPassword(userId: string)

  function Step(db: Db, cfg: Config, e: Event): Db {
    match e
    case Tick(d) => db.(now := db.now + d)
    case SetUser(id, user) => db.(users := db.users[id := user])
    case SignIn(id, ok) => if ok && id in db.users && Usable(db.users[id], cfg) then Create(db, cfg, id) else db
    case Refresh(token) =>
      if RefreshRefusal(db, cfg, token).Some? then db
      else Create(Revoke(db, token), cfg, db.sessions[token].userId).(accepted := db.accepted + [token])
    case Logout(token) => Revoke(db, token)
    case ResetPassword(id) => if id in db.users then RevokeActiveFrom(db, id, 0) else db
  }

  function RunFrom(db: Db, cfg: Config, events: seq<Event>): Db {
    if events == [] then db else Step(RunFrom(db, cfg, events[..|events| - 1]), cfg, events[|events| - 1])
  }

  function Init(now: int): Db { Db(now, map[], [], []) }

  // ---------------------------------------------------------------- what never changes back

  ghost predicate RowKept(db: Db, db': Db, i: nat) {
    i < |db.sessions| ==>
      && i < |db'.sessions|
      && db'.sessions[i].userId == db.sessions[i].userId
      && db'.sessions[i].expiresAt == db.sessions[i].expiresAt
      && (db.sessions[i].revoked ==> db'.sessions[i].revoked)
  }

  ghost predicate Later(db: Db, db': Db) {
    db.now <= db'.now && forall i: nat :: RowKept(db, db', i)
  }

  /** What revoking all of a user's active sessions does, row by row. */
  lemma {:induction false} RevokeActiveRows(db: Db, userId: string, from: nat)
    requires from <= |db.sessions|
    ensures var db' := RevokeActiveFrom(db, userId, from);
            && db' == db.(sessions := db'.sessions) && |db'.sessions| == |db.sessions|
            && forall i: nat :: i < |db.sessions| ==>
                 db'.sessions[i] ==
                   if i >= from && db.sessions[i].userId == userId && Active(db, i)
                   then db.sessions[i].(revoked := true) else db.sessions[i]
    decreases |db.sessions| - from
  {
    if from < |db.sessions| {
      var mid := if db.sessions[from].userId == userId && Active(db, from) then Revoke(db, from) else db;
      RevokeActiveRows(mid, userId, from + 1);
    }
  }

  lemma StepLater(db: Db, cfg: Config, e: Event)
    ensures Later(db, Step(db, cfg, e))
  {
    if e.ResetPassword? && e.userId in db.users { RevokeActiveRows(db, e.userId, 0); }
    forall i: nat ensures RowKept(db, Step(db, cfg, e), i) {}
  }

  /** Revocation is never undone and a session never changes owner or expiry, over every run. */
  lemma {:induction false} RunLater(db: Db, cfg: Config, events: seq<Event>)
    ensures Later(db, RunFrom(db, cfg, events))
  {
    if events != [] {
      var mid := RunFrom(db, cfg, events[..|events| - 1]);
      RunLater(db, cfg, events[..|events| - 1]);
      StepLater(mid, cfg, events[|events| - 1]);
      var last := Step(mid, cfg, events[|events| - 1]);
      forall i: nat ensures RowKept(db, last, i) {
        assert RowKept(db, mid, i) && RowKept(mid, last, i);
      }
    } else {
      forall i: nat ensures RowKept(db, db, i) {}
    }
  }

  // ---------------------------------------------------------------- rotation

  ghost predicate AcceptedOnce(db: Db) {
    && (forall k: nat :: k < |db.accepted| ==> db.accepted[k] < |db.sessions| && db.sessions[db.accepted[k]].revoked)
    && (forall j: nat, k: nat :: j < k < |db.accepted| ==> db.accepted[j] != db.accepted[k])
  }

  lemma StepAcceptedOnce(db: Db, cfg: Config, e: Event)
    requires AcceptedOnce(db)
    ensures AcceptedOnce(Step(db, cfg, e))
  {
    StepLater(db, cfg, e);
    if e.ResetPassword? && e.userId in db.users { RevokeActiveRows(db, e.userId, 0); }
    var db' := Step(db, cfg, e);
    forall k: nat | k < |db'.accepted| ensures db'.accepted[k] < |db'.sessions| && db'.sessions[db'.accepted[k]].revoked {
      assert RowKept(db, db', db'.accepted[k]);
    }
  }

  /** Each refresh token is accepted at most once in every serial run, and stays revoked after. */
  lemma {:induction false} EachTokenAcceptedOnce(now: int, cfg: Config, events: seq<Event>)
    ensures AcceptedOnce(RunFrom(Init(now), cfg, events))
  {
    if events != [] {
      EachTokenAcceptedOnce(now, cfg, events[..|events| - 1]);
      StepAcceptedOnce(RunFrom(Init(now), cfg, events[..|events| - 1]), cfg, events[|events| - 1]);
    }
  }

  /** A successful rotation: the old session is no longer active, the new one is active for the
      same user, and every other session is untouched. */
  lemma RotationReplaces(db: Db, cfg: Config, token: nat)
    requires RefreshRefusal(db, cfg, token).None? && cfg.refreshLifetime > 0
    ensures var db' := Step(db, cfg, Refresh(token)); var newId := |db.sessions|;
            && !Active(db', token) && Active(db', newId) && |db'.sessions| == newId + 1
            && db'.sessions[newId].userId == db.sessions[token].userId
            && (forall i: nat :: i < newId && i != token ==> db'.sessions[i] == db.sessions[i])
            && RefreshRefusal(db', cfg, token) == Some(InvalidToken)
  {}

  // ---------------------------------------------------------------- how long a token is good

  /** Nobody uses, logs out or resets away the session `token` of the user. */
  ghost predicate LeftAlone(events: seq<Event>, token: nat, userId: string) {
    Refresh(token) !in events && Logout(token) !in events && ResetPassword(userId) !in events
  }

  lemma StepLeavesSession(db: Db, cfg: Config, e: Event, token: nat)
    requires token < |db.sessions| && LeftAlone([e], token, db.sessions[token].userId)
    ensures var db' := Step(db, cfg, e); token < |db'.sessions| && db'.sessions[token] == db.sessions[token]
  {
    assert e in [e];
    if e.ResetPassword? && e.userId in db.users { RevokeActiveRows(db, e.userId, 0); }
  }

  lemma {:induction false} RunLeavesSession(db: Db, cfg: Config, events: seq<Event>, token: nat)
    requires token < |db.sessions| && LeftAlone(events, token, db.sessions[token].userId)
    ensures var db' := RunFrom(db, cfg, events); token < |db'.sessions| && db'.sessions[token] == db.sessions[token]
  {
    if events != [] {
      assert events == events[..|events| - 1] + [events[|events| - 1]];
      RunLeavesSession(db, cfg, events[..|events| - 1], token);
      StepLeavesSession(RunFrom(db, cfg, events[..|events| - 1]), cfg, events[|events| - 1], token);
    }
  }

  /** `refresh` accepted `token`, and began an active session of the user in its place. */
  ghost predicate Rotated(db: Db, db': Db, token: nat, userId: string, expiresAt: int) {
    && db'.accepted == db.accepted + [token]
    && |db'.sessions| == |db.sessions| + 1
    && db'.sessions[|db.sessions|] == Session(userId, false, expiresAt)
    && token < |db.sessions| && db'.sessions[token].revoked
  }

  /** After a sign-in, and as long as nobody ends the session, its token is good up to and including
      the instant of expiry, and exactly while the user is there, enabled and verified if that is
      required; what refuses it otherwise is the first of these that fails. */
  lemma TokenGoodUntilExpiry(db: Db, cfg: Config, userId: string, events: seq<Event>)
    requires userId in db.users && Usable(db.users[userId], cfg) && LeftAlone(events, |db.sessions|, userId)
    ensures var token, now := |db.sessions|, RunFrom(Step(db, cfg, SignIn(userId, true)), cfg, events);
            var next := Step(now, cfg, Refresh(token)); var expiry := db.now + cfg.refreshLifetime;
            && (Rotated(now, next, token, userId, now.now + cfg.refreshLifetime) <==>
                  && now.now <= expiry
                  && userId in now.users && now.users[userId].isActive
                  && (now.users[userId].isVerified || !cfg.requireVerification))
            && (next.accepted != now.accepted ==> Rotated(now, next, token, userId, now.now + cfg.refreshLifetime))
            && (RefreshRefusal(now, cfg, token) == Some(Expired) <==> now.now > expiry)
            && (RefreshRefusal(now, cfg, token) == Some(UserGone) <==>
                  now.now <= expiry && !(userId in now.users && now.users[userId].isActive))
            && RefreshRefusal(now, cfg, token) != Some(InvalidToken)
  {
    RunLeavesSession(Step(db, cfg, SignIn(userId, true)), cfg, events, |db.sessions|);
  }

  /** Nobody is signed in with wrong credentials, as an unknown or disabled user, or unverified where
      that is required. */
  lemma SignInRefused(db: Db, cfg: Config, userId: string, ok: bool)
    requires !ok || userId !in db.users || !db.users[userId].isActive
             || (cfg.requireVerification && !db.users[userId].isVerified)
    ensures Step(db, cfg, SignIn(userId, ok)) == db
  {}

  /** After a logout, as after its use, a token is invalid in every run and its session never active. */
  lemma EndedForGood(db: Db, cfg: Config, e: Event, token: nat, events: seq<Event>)
    requires token < |db.sessions|
    requires e == Logout(token) || (e == Refresh(token) && Step(db, cfg, e).accepted != db.accepted)
    ensures var now := RunFrom(Step(db, cfg, e), cfg, events);
            RefreshRefusal(now, cfg, token) == Some(InvalidToken) && !Active(now, token)
  {
    var ended := Step(db, cfg, e);
    RunLater(ended, cfg, events);
    assert RowKept(ended, RunFrom(ended, cfg, events), token);
  }

  /** A logout leaves every other session as it was. */
  lemma LogoutEndsOne(db: Db, cfg: Config, token: nat, other: nat)
    requires other < |db.sessions| && other != token
    ensures var db' := Step(db, cfg, Logout(token)); |db'.sessions| == |db.sessions| && db'.sessions[other] == db.sessions[other]
  {}

  // ---------------------------------------------------------------- password reset

  /** No run after a reset ever sees an earlier session of that user active again. */
  lemma ResetEndsSessions(db: Db, cfg: Config, userId: string, events: seq<Event>, id: nat)
    requires userId in db.users && id < |db.sessions| && db.sessions[id].userId == userId
    ensures !Active(RunFrom(Step(db, cfg, ResetPassword(userId)), cfg, events), id)
  {
    var reset := Step(db, cfg, ResetPassword(userId));
    RevokeActiveRows(db, userId, 0);
    RunLater(reset, cfg, events);
    assert RowKept(reset, RunFrom(reset, cfg, events), id);
  }

  /** After a reset the token is refused in every run unless it was unrevoked and its session
      expired at the very instant of the reset, which is also now. */
  lemma RefusedAfterReset(db: Db, cfg: Config, userId: string, events: seq<Event>, token: nat)
    requires userId in db.users && token < |db.sessions| && db.sessions[token].userId == userId
    requires RefreshRefusal(RunFrom(Step(db, cfg, ResetPassword(userId)), cfg, events), cfg, token).None?
    ensures !db.sessions[token].revoked && db.sessions[token].expiresAt == db.now
    ensures RunFrom(Step(db, cfg, ResetPassword(userId)), cfg, events).now == db.now
  {
    var reset := Step(db, cfg, ResetPassword(userId));
    RevokeActiveRows(db, userId, 0);
    RunLater(reset, cfg, events);
    assert RowKept(reset, RunFrom(reset, cfg, events), token);
  }

  lemma OneEvent(db: Db, cfg: Config, e: Event)
    ensures RunFrom(db, cfg, [e]) == Step(db, cfg, e)
  {
    assert [e][..0] == [];
  }

  /** `refresh` still accepts a token at its expiry instant while a reset no longer counts that
      session as active.  So an earlier token of the user can be accepted by some run after the reset
      exactly when it was unrevoked and expired at the very instant of the reset; and by a refresh
      right after the reset exactly when the user may refresh, too. */
  lemma RefreshAfterReset(db: Db, cfg: Config, userId: string, token: nat)
    requires userId in db.users && token < |db.sessions| && db.sessions[token].userId == userId
    ensures var reset := Step(db, cfg, ResetPassword(userId));
            var boundary := !db.sessions[token].revoked && db.sessions[token].expiresAt == db.now;
            && ((exists events :: RefreshRefusal(RunFrom(reset, cfg, events), cfg, token).None?) <==> boundary)
            && (RefreshRefusal(reset, cfg, token).None? <==> boundary && Usable(db.users[userId], cfg))
  {
    var reset := Step(db, cfg, ResetPassword(userId));
    RevokeActiveRows(db, userId, 0);
    if events :| RefreshRefusal(RunFrom(reset, cfg, events), cfg, token).None? {
      RefusedAfterReset(db, cfg, userId, events, token);
    }
    if !db.sessions[token].revoked && db.sessions[token].expiresAt == db.now {
      var restore := SetUser(userId, User(true, true));
      OneEvent(reset, cfg, restore);
      assert RefreshRefusal(RunFrom(reset, cfg, [restore]), cfg, token).None?;
    }
  }

  lemma RunThen(db: Db, cfg: Config, events: seq<Event>, e: Event)
    ensures RunFrom(db, cfg, events + [e]) == Step(RunFrom(db, cfg, events), cfg, e)
  {
    assert (events + [e])[..|events|] == events;
  }

  /** The case is reached: sign in, let the session run out, reset at that instant, refresh. */
  lemma BoundaryTokenSurvivesReset(now: int, cfg: Config, userId: string) returns (events: seq<Event>)
    ensures var db := RunFrom(Init(now), cfg, events + [ResetPassword(userId)]);
            && userId in db.users && |db.sessions| == 1 && db.sessions[0].userId == userId
            && RefreshRefusal(db, cfg, 0).None?
  {
    var join, enter, wait := SetUser(userId, User(true, true)), SignIn(userId, true), Tick(cfg.refreshLifetime);
    events := [join] + [enter] + [wait];
    OneEvent(Init(now), cfg, join);
    RunThen(Init(now), cfg, [join], enter);
    RunThen(Init(now), cfg, [join] + [enter], wait);
    RunThen(Init(now), cfg, events, ResetPassword(userId));
    var db := RunFrom(Init(now), cfg, events);
    assert db.sessions == [Session(userId, false, db.now)];
    RefreshAfterReset(db, cfg, userId, 0);
    RevokeActiveRows(db, userId, 0);
  }

  // ---------------------------------------------------------------- objects

  /** The repository and the service over it.  `validUntil` holds the cached validity bits, by user
      and session, with the times they expire. */
  class IdentityService {
    const cfg: Config
    var now: int
    var users: map<string, User>
    var sessions: seq<Session>
    var validUntil: map<(string, nat), int>
    ghost var accepted: seq<nat>

    ghost function Abs(): Db
      reads this
    {
      Db(now, users, sessions, accepted)
    }

    constructor (cfg: Config, now: int)
      ensures Abs() == Init(now) && this.cfg == cfg && validUntil == map[]
    {
      this.cfg, this.now := cfg, now;
      users, sessions, validUntil, accepted := map[], [], map[], [];
    }

    /** `revoke_all_refresh_sessions_for_user`: first select, then mark. */
    method RevokeAll(userId: string)
      modifies this`sessions
      ensures Abs() == RevokeActiveFrom(old(Abs()), userId, 0)
    {
      ghost var before := Abs();
      var listed := seq(|sessions|, i requires 0 <= i < |sessions| reads this =>
        sessions[i].userId == userId && !sessions[i].revoked && sessions[i].expiresAt > now);
      var i := 0;
      while i < |sessions|
        invariant i <= |sessions| == |listed| == |before.sessions|
        invariant forall k :: 0 <= k < i ==>
          sessions[k] == if listed[k] then before.sessions[k].(revoked := true) else before.sessions[k]
        invariant forall k :: i <= k < |sessions| ==> sessions[k] == before.sessions[k]
      {
        if listed[i] {
          sessions := sessions[i := sessions[i].(revoked := true)];
        }
        i := i + 1;
      }
      RevokeActiveRows(before, userId, 0);
      assert sessions == RevokeActiveFrom(before, userId, 0).sessions;
    }

    method RefreshToken(token: nat) returns (outcome: Option<Refusal>, newId: nat)
      modifies this
      ensures outcome == RefreshRefusal(old(Abs()), cfg, token)
      ensures Abs() == Step(old(Abs()), cfg, Refresh(token))
      ensures outcome.None? ==> newId == |old(sessions)| && validUntil == old(validUntil) - {(old(sessions)[token].userId, token)}
      ensures outcome.Some? ==> validUntil == old(validUntil)
    {
      newId := 0;
      outcome := RefreshRefusal(Abs0(), cfg, token);
      if outcome.Some? {
        return;
      }
      var s := sessions[token];
      sessions := sessions[token := s.(revoked := true)];
      validUntil := validUntil - {(s.userId, token)};
      newId := |sessions|;
      sessions := sessions + [Session(s.userId, false, now + cfg.refreshLifetime)];
      accepted := accepted + [token];
    }

    /** The tables as read by the operations. */
    function Abs0(): (db: Db)
      reads this
      ensures db.now == now && db.users == users && db.sessions == sessions
    {
      Db(now, users, sessions, [])
    }

    method LogoutToken(token: nat)
      modifies this`sessions, this`validUntil
      ensures Abs() == Step(old(Abs()), cfg, Logout(token))
      ensures validUntil == if token < |sessions| then old(validUntil) - {(sessions[token].userId, token)} else old(validUntil)
    {
      if token < |sessions| {
        sessions := sessions[token := sessions[token].(revoked := true)];
        validUntil := validUntil - {(sessions[token].userId, token)};
      }
    }

    /** `userId` is what the reset token stood for, if anything. */
    method ResetUserPassword(userId: Option<string>) returns (ok: bool)
      modifies this`sessions, this`validUntil
      ensures ok <==> userId.Some? && userId.value in users
      ensures Abs() == if ok then Step(old(Abs()), cfg, ResetPassword(userId.value)) else old(Abs())
      ensures validUntil ==
                if ok then map k | k in old(validUntil) && k.0 != userId.value :: old(validUntil)[k] else old(validUntil)
    {
      ok := userId.Some? && userId.value in users;
      if ok {
        RevokeAll(userId.value);
        validUntil := map k | k in validUntil && k.0 != userId.value :: validUntil[k];
      }
    }
  }
}
