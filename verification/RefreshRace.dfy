/** `refresh` without a row lock: one request reads and checks the session, and later, in the same
    transaction, marks it revoked and inserts its successor.  Requests overlap freely, with each other
    and with the other operations; nothing is checked again at the commit.
 */
module RefreshRace {
  import opened Wrappers
  import S = Sessions

  type Request = nat

  /** A request that read the token at `readAt` and found it acceptable; times count events. */
  datatype Pending = Pending(token: nat, readAt: nat)

  datatype Acceptance = Acceptance(request: Request, token: nat, readAt: nat, committedAt: nat)

  datatype State = State(db: S.Db, clock: nat, seen: set<Request>, pending: map<Request, Pending>, log: seq<Acceptance>)

  /** `Serial` is any operation of the service that runs without interruption. */
  datatype Event = Serial(e: S.Event) | Read(r: Request, token: nat) | Commit(r: Request)

  function Rotate(db: S.Db, cfg: S.Config, token: nat): S.Db
    requires token < |db.sessions|
  {
    S.Create(S.Revoke(db, token), cfg, db.sessions[token].userId).(accepted := db.accepted + [token])
  }

  function Step(s: State, cfg: S.Config, e: Event): State {
    var ticked := s.(clock := s.clock + 1);
    match e
    case Serial(se) => ticked.(db := S.Step(s.db, cfg, se))
    case Read(r, token) =>
      if r in s.seen then ticked
      else if S.RefreshRefusal(s.db, cfg, token).Some? then ticked.(seen := s.seen + {r})
      else ticked.(seen := s.seen + {r}, pending := s.pending[r := Pending(token, s.clock)])
    case Commit(r) =>
      if r in s.pending && s.pending[r].token < |s.db.sessions| then
        var p := s.pending[r];
        ticked.(db := Rotate(s.db, cfg, p.token), pending := s.pending - {r},
                log := s.log + [Acceptance(r, p.token, p.readAt, s.clock)])
      else ticked
  }

  function RunFrom(s: State, cfg: S.Config, events: seq<Event>): State {
    if events == [] then s else Step(RunFrom(s, cfg, events[..|events| - 1]), cfg, events[|events| - 1])
  }

  function Init(now: int): State { State(S.Init(now), 0, {}, map[], []) }

  // ---------------------------------------------------------------- accepted twice means overlapped

  ghost predicate PendingOk(s: State, r: Request) {
    r in s.pending ==>
      && r in s.seen && s.pending[r].token < |s.db.sessions| && s.pending[r].readAt < s.clock
      && forall k :: 0 <= k < |s.log| && s.log[k].token == s.pending[r].token ==> s.pending[r].readAt < s.log[k].committedAt
  }

  ghost predicate AcceptanceOk(s: State, k: nat)
    requires k < |s.log|
  {
    var a := s.log[k];
    && a.request in s.seen && a.request !in s.pending && a.readAt < a.committedAt < s.clock
    && a.token < |s.db.sessions| && s.db.sessions[a.token].revoked
  }

  ghost predicate Overlapped(a: Acceptance, b: Acceptance) { a.readAt < b.committedAt && b.readAt < a.committedAt }

  ghost predicate Inv(s: State) {
    && (forall r :: PendingOk(s, r))
    && (forall k :: 0 <= k < |s.log| ==> AcceptanceOk(s, k))
    && (forall j, k :: 0 <= j < k < |s.log| ==> s.log[j].request != s.log[k].request)
    && (forall j, k :: 0 <= j < k < |s.log| && s.log[j].token == s.log[k].token ==> Overlapped(s.log[j], s.log[k]))
  }

  lemma DbLater(s: State, cfg: S.Config, e: Event)
    ensures S.Later(s.db, Step(s, cfg, e).db)
  {
    match e
    case Serial(se) => S.StepLater(s.db, cfg, se);
    case _ => forall i: nat ensures S.RowKept(s.db, Step(s, cfg, e).db, i) {}
  }

  lemma LogStays(s: State, cfg: S.Config, e: Event, k: nat)
    requires Inv(s) && k < |s.log|
    ensures var s' := Step(s, cfg, e); k < |s'.log| && s'.log[k] == s.log[k] && AcceptanceOk(s', k)
  {
    assert AcceptanceOk(s, k);
    DbLater(s, cfg, e);
    assert S.RowKept(s.db, Step(s, cfg, e).db, s.log[k].token);
  }

  lemma ReadFindsUnrevoked(s: State, cfg: S.Config, token: nat)
    requires Inv(s) && S.RefreshRefusal(s.db, cfg, token).None?
    ensures forall k :: 0 <= k < |s.log| ==> s.log[k].token != token
  {
    forall k | 0 <= k < |s.log| ensures s.log[k].token != token { assert AcceptanceOk(s, k); }
  }

  lemma PendingStays(s: State, cfg: S.Config, e: Event, r: Request)
    requires Inv(s)
    ensures PendingOk(Step(s, cfg, e), r)
  {
    assert PendingOk(s, r);
    if r in s.pending {
      DbLater(s, cfg, e);
      assert S.RowKept(s.db, Step(s, cfg, e).db, s.pending[r].token);
    } else if e.Read? && S.RefreshRefusal(s.db, cfg, e.token).None? {
      ReadFindsUnrevoked(s, cfg, e.token);
    }
  }

  lemma CommitLogs(s: State, cfg: S.Config, r: Request)
    requires Inv(s) && r in s.pending
    ensures var s' := Step(s, cfg, Commit(r)); var n := |s.log|;
            && |s'.log| == n + 1 && s'.log[n] == Acceptance(r, s.pending[r].token, s.pending[r].readAt, s.clock)
            && AcceptanceOk(s', n)
            && (forall k :: 0 <= k < n ==> s.log[k].request != r)
            && (forall k :: 0 <= k < n && s.log[k].token == s.pending[r].token ==> Overlapped(s.log[k], s'.log[n]))
  {
    assert PendingOk(s, r);
    forall k | 0 <= k < |s.log|
      ensures s.log[k].request != r
      ensures s.log[k].token == s.pending[r].token ==> Overlapped(s.log[k], Step(s, cfg, Commit(r)).log[|s.log|])
    {
      assert AcceptanceOk(s, k);
    }
  }

  lemma StepKeeps(s: State, cfg: S.Config, e: Event)
    requires Inv(s)
    ensures Inv(Step(s, cfg, e))
  {
    var s' := Step(s, cfg, e);
    forall r ensures PendingOk(s', r) { PendingStays(s, cfg, e, r); }
    if e.Commit? && e.r in s.pending {
      CommitLogs(s, cfg, e.r);
    }
    forall k | 0 <= k < |s'.log| ensures AcceptanceOk(s', k) {
      if k < |s.log| { LogStays(s, cfg, e, k); }
    }
  }

  lemma {:induction false} RunKeeps(s: State, cfg: S.Config, events: seq<Event>)
    requires Inv(s)
    ensures Inv(RunFrom(s, cfg, events))
  {
    if events != [] {
      RunKeeps(s, cfg, events[..|events| - 1]);
      StepKeeps(RunFrom(s, cfg, events[..|events| - 1]), cfg, events[|events| - 1]);
    }
  }

  /** In every run, if two requests were accepted for one token, each read it before the other
      committed.  So a token is accepted at most once unless requests for it overlap. */
  lemma AcceptedTwiceOverlapped(now: int, cfg: S.Config, events: seq<Event>, j: nat, k: nat)
    requires var s := RunFrom(Init(now), cfg, events); j < k < |s.log| && s.log[j].token == s.log[k].token
    ensures var s := RunFrom(Init(now), cfg, events);
            s.log[j].request != s.log[k].request && Overlapped(s.log[j], s.log[k])
  {
    RunKeeps(Init(now), cfg, events);
  }

  // ---------------------------------------------------------------- and overlapped means accepted

  /** Nothing but its own commit ends a pending request. */
  lemma {:induction false} StaysPending(s: State, cfg: S.Config, events: seq<Event>, r: Request)
    requires Inv(s) && r in s.pending && Commit(r) !in events
    ensures r in RunFrom(s, cfg, events).pending && RunFrom(s, cfg, events).pending[r] == s.pending[r]
  {
    if events != [] {
      var earlier, last := events[..|events| - 1], events[|events| - 1];
      assert events == earlier + [last];
      StaysPending(s, cfg, earlier, r);
      RunKeeps(s, cfg, earlier);
      assert PendingOk(RunFrom(s, cfg, earlier), r);
    }
  }

  ghost predicate AcceptedIn(s: State, r: Request, token: nat) {
    exists k :: 0 <= k < |s.log| && s.log[k].request == r && s.log[k].token == token
  }

  lemma {:induction false} LogGrows(s: State, cfg: S.Config, events: seq<Event>)
    ensures s.log <= RunFrom(s, cfg, events).log
  {
    if events != [] { LogGrows(s, cfg, events[..|events| - 1]); }
  }

  /** A commit of a pending request is accepted, whatever happened since it read. */
  lemma PendingCommits(s: State, cfg: S.Config, x: seq<Event>, r: Request)
    requires Inv(s) && r in s.pending && Commit(r) !in x
    ensures AcceptedIn(Step(RunFrom(s, cfg, x), cfg, Commit(r)), r, s.pending[r].token)
  {
    RunKeeps(s, cfg, x);
    StaysPending(s, cfg, x, r);
    CommitLogs(RunFrom(s, cfg, x), cfg, r);
  }

  lemma StillAccepted(s: State, cfg: S.Config, events: seq<Event>, r: Request, token: nat)
    requires AcceptedIn(s, r, token)
    ensures AcceptedIn(RunFrom(s, cfg, events), r, token)
  {
    LogGrows(s, cfg, events);
  }

  ghost function Both(s: State, cfg: S.Config, a: Request, b: Request, x: seq<Event>, y: seq<Event>): State {
    Step(RunFrom(Step(RunFrom(s, cfg, x), cfg, Commit(a)), cfg, y), cfg, Commit(b))
  }

  /** Two requests pending on one token are both accepted when they commit, whatever happens in
      between. */
  lemma OverlappedBothAccepted(s: State, cfg: S.Config, a: Request, b: Request, x: seq<Event>, y: seq<Event>)
    requires Inv(s) && a != b && a in s.pending && b in s.pending && s.pending[a].token == s.pending[b].token
    requires Commit(a) !in x && Commit(b) !in x && Commit(b) !in y
    ensures var s' := Both(s, cfg, a, b, x, y); var token := s.pending[a].token;
            AcceptedIn(s', a, token) && AcceptedIn(s', b, token)
  {
    var mid := Step(RunFrom(s, cfg, x), cfg, Commit(a));
    PendingCommits(s, cfg, x, a);
    RunKeeps(s, cfg, x);
    StaysPending(s, cfg, x, b);
    StepKeeps(RunFrom(s, cfg, x), cfg, Commit(a));
    PendingCommits(mid, cfg, y, b);
    StillAccepted(mid, cfg, y, a, s.pending[a].token);
    LastStep(RunFrom(mid, cfg, y), cfg, Commit(b), a, s.pending[a].token);
  }

  lemma LastStep(s: State, cfg: S.Config, e: Event, r: Request, token: nat)
    requires AcceptedIn(s, r, token)
    ensures AcceptedIn(Step(s, cfg, e), r, token)
  {
    var k :| 0 <= k < |s.log| && s.log[k].request == r && s.log[k].token == token;
    assert Step(s, cfg, e).log[k] == s.log[k];
  }

  /** `a` has read the token and found it acceptable.  A second request is accepted as well exactly
      when it reads an acceptable token before `a` commits: `w` happens before that read, `x` and `y`
      after it, and `early` says whether `a` commits in between or has committed before the read. */
  lemma SecondAcceptedExactly(s: State, cfg: S.Config, a: Request, b: Request, token: nat, early: bool,
                              w: seq<Event>, x: seq<Event>, y: seq<Event>)
    requires Inv(s) && a in s.pending && s.pending[a].token == token && b !in s.seen && a != b
    requires forall e :: e in w || e in x || e in y ==> e != Commit(a) && e != Commit(b) && !(e.Read? && e.r == b)
    ensures var s' := Schedule(s, cfg, a, b, token, early, w, x, y);
            && AcceptedIn(s', a, token)
            && (AcceptedIn(s', b, token) <==> !early && S.RefreshRefusal(RunFrom(s, cfg, w).db, cfg, token).None?)
  {
    RunKeeps(s, cfg, w);
    StaysPending(s, cfg, w, a);
    NeverSeen(s, cfg, w, b);
    var before := RunFrom(s, cfg, w);
    if early {
      EarlyCommit(before, cfg, a, b, token, x, y);
    } else {
      LateCommit(before, cfg, a, b, token, x, y);
    }
  }

  /** Early: `w`, commit `a`, read `b`, `x`, `y`, commit `b`.  Otherwise: `w`, read `b`, `x`, commit
      `a`, `y`, commit `b`. */
  ghost function Schedule(s: State, cfg: S.Config, a: Request, b: Request, token: nat, early: bool,
                          w: seq<Event>, x: seq<Event>, y: seq<Event>): State {
    var before := RunFrom(s, cfg, w);
    if early then
      Step(RunFrom(RunFrom(Step(Step(before, cfg, Commit(a)), cfg, Read(b, token)), cfg, x), cfg, y), cfg, Commit(b))
    else Both(Step(before, cfg, Read(b, token)), cfg, a, b, x, y)
  }

  lemma {:induction false} NeverSeen(s: State, cfg: S.Config, events: seq<Event>, b: Request)
    requires b !in s.seen && forall e :: e in events ==> !(e.Read? && e.r == b)
    ensures b !in RunFrom(s, cfg, events).seen
  {
    if events != [] {
      assert events[|events| - 1] in events;
      NeverSeen(s, cfg, events[..|events| - 1], b);
    }
  }

  /** A request that was refused at its read is never accepted. */
  ghost predicate Refused(s: State, b: Request) {
    b in s.seen && b !in s.pending && forall k :: 0 <= k < |s.log| ==> s.log[k].request != b
  }

  lemma {:induction false} StaysRefused(s: State, cfg: S.Config, events: seq<Event>, b: Request)
    requires Refused(s, b)
    ensures Refused(RunFrom(s, cfg, events), b)
  {
    if events != [] { StaysRefused(s, cfg, events[..|events| - 1], b); }
  }

  lemma NotYetAccepted(s: State, b: Request)
    requires Inv(s) && b !in s.seen
    ensures b !in s.pending && forall k :: 0 <= k < |s.log| ==> s.log[k].request != b
  {
    assert PendingOk(s, b);
    forall k | 0 <= k < |s.log| ensures s.log[k].request != b { assert AcceptanceOk(s, k); }
  }

  lemma RefusedRead(s: State, cfg: S.Config, b: Request, token: nat)
    requires Inv(s) && b !in s.seen && S.RefreshRefusal(s.db, cfg, token).Some?
    ensures Refused(Step(s, cfg, Read(b, token)), b)
  {
    NotYetAccepted(s, b);
  }

  lemma EarlyCommit(s: State, cfg: S.Config, a: Request, b: Request, token: nat, x: seq<Event>, y: seq<Event>)
    requires Inv(s) && a in s.pending && s.pending[a].token == token && b !in s.seen && a != b
    ensures var read := Step(Step(s, cfg, Commit(a)), cfg, Read(b, token));
            var s' := Step(RunFrom(RunFrom(read, cfg, x), cfg, y), cfg, Commit(b));
            AcceptedIn(s', a, token) && !AcceptedIn(s', b, token)
  {
    assert PendingOk(s, a);
    var committed := Step(s, cfg, Commit(a));
    StepKeeps(s, cfg, Commit(a));
    CommitLogs(s, cfg, a);
    RefusedRead(committed, cfg, b, token);
    var read := Step(committed, cfg, Read(b, token));
    LastStep(committed, cfg, Read(b, token), a, token);
    StaysRefused(read, cfg, x, b);
    StaysRefused(RunFrom(read, cfg, x), cfg, y, b);
    StillAccepted(read, cfg, x, a, token);
    StillAccepted(RunFrom(read, cfg, x), cfg, y, a, token);
    LastStep(RunFrom(RunFrom(read, cfg, x), cfg, y), cfg, Commit(b), a, token);
  }

  lemma LateCommit(s: State, cfg: S.Config, a: Request, b: Request, token: nat, x: seq<Event>, y: seq<Event>)
    requires Inv(s) && a in s.pending && s.pending[a].token == token && b !in s.seen && a != b
    requires Commit(a) !in x && Commit(b) !in x && Commit(b) !in y
    ensures var s' := Both(Step(s, cfg, Read(b, token)), cfg, a, b, x, y);
            && AcceptedIn(s', a, token)
            && (AcceptedIn(s', b, token) <==> S.RefreshRefusal(s.db, cfg, token).None?)
  {
    var read := Step(s, cfg, Read(b, token));
    StepKeeps(s, cfg, Read(b, token));
    if S.RefreshRefusal(s.db, cfg, token).None? {
      OverlappedBothAccepted(read, cfg, a, b, x, y);
    } else {
      RefusedRead(s, cfg, b, token);
      StaysRefused(read, cfg, x, b);
      var mid := Step(RunFrom(read, cfg, x), cfg, Commit(a));
      StaysRefused(RunFrom(read, cfg, x), cfg, [Commit(a)], b);
      assert [Commit(a)][..0] == [];
      assert RunFrom(RunFrom(read, cfg, x), cfg, [Commit(a)]) == mid;
      StaysRefused(mid, cfg, y, b);
      PendingCommits(read, cfg, x, a);
      StillAccepted(mid, cfg, y, a, token);
      LastStep(RunFrom(mid, cfg, y), cfg, Commit(b), a, token);
    }
  }

  // ---------------------------------------------------------------- a password reset meanwhile

  predicate OwnedBy(db: S.Db, id: nat, userId: string) { id < |db.sessions| && db.sessions[id].userId == userId }

  ghost predicate HasActiveSession(db: S.Db, userId: string) { exists id: nat :: OwnedBy(db, id, userId) && S.Active(db, id) }

  ghost predicate NoSignIn(events: seq<Event>, userId: string) {
    forall e :: e in events ==> !(e.Serial? && e.e.SignIn? && e.e.userId == userId)
  }

  /** A refresh of the user has read its token and not committed. */
  ghost predicate RefreshUnderWay(s: State, userId: string) {
    exists r :: r in s.pending && OwnedBy(s.db, s.pending[r].token, userId)
  }

  /** An unrevoked session of the user that expires at this very instant. */
  ghost predicate ExpiringNow(db: S.Db, userId: string) {
    exists id: nat :: OwnedBy(db, id, userId) && !db.sessions[id].revoked && db.sessions[id].expiresAt == db.now
  }

  /** No session of the user is active or can be refreshed, and no refresh of the user is pending. */
  ghost predicate SignedOut(s: State, userId: string) {
    && (forall id: nat :: OwnedBy(s.db, id, userId) ==> s.db.sessions[id].revoked || s.db.sessions[id].expiresAt < s.db.now)
    && (forall r :: r in s.pending ==> s.pending[r].token < |s.db.sessions| && !OwnedBy(s.db, s.pending[r].token, userId))
  }

  lemma StepSignedOut(s: State, cfg: S.Config, e: Event, userId: string)
    requires SignedOut(s, userId) && NoSignIn([e], userId)
    ensures SignedOut(Step(s, cfg, e), userId)
  {
    var s' := Step(s, cfg, e);
    assert e in [e];
    if e.Serial? && e.e.ResetPassword? { S.RevokeActiveRows(s.db, e.e.userId, 0); }
    DbLater(s, cfg, e);
    forall id: nat | OwnedBy(s'.db, id, userId)
      ensures s'.db.sessions[id].revoked || s'.db.sessions[id].expiresAt < s'.db.now
    {
      assert S.RowKept(s.db, s'.db, id);
      assert OwnedBy(s.db, id, userId);
    }
    forall r | r in s'.pending ensures s'.pending[r].token < |s'.db.sessions| && !OwnedBy(s'.db, s'.pending[r].token, userId) {
      assert S.RowKept(s.db, s'.db, s'.pending[r].token);
    }
  }

  lemma {:induction false} StaysSignedOut(s: State, cfg: S.Config, events: seq<Event>, userId: string)
    requires SignedOut(s, userId) && NoSignIn(events, userId)
    ensures SignedOut(RunFrom(s, cfg, events), userId)
  {
    if events != [] {
      assert events[|events| - 1] in events;
      StaysSignedOut(s, cfg, events[..|events| - 1], userId);
      StepSignedOut(RunFrom(s, cfg, events[..|events| - 1]), cfg, events[|events| - 1], userId);
    }
  }

  /** What holds when new sessions are created expired. */
  ghost predicate NoneActive(db: S.Db, userId: string) { forall id: nat :: OwnedBy(db, id, userId) ==> !S.Active(db, id) }

  lemma {:induction false} StaysInactive(s: State, cfg: S.Config, events: seq<Event>, userId: string)
    requires NoneActive(s.db, userId) && cfg.refreshLifetime <= 0
    ensures NoneActive(RunFrom(s, cfg, events).db, userId)
  {
    if events != [] {
      var before, e := RunFrom(s, cfg, events[..|events| - 1]), events[|events| - 1];
      StaysInactive(s, cfg, events[..|events| - 1], userId);
      if e.Serial? && e.e.ResetPassword? { S.RevokeActiveRows(before.db, e.e.userId, 0); }
      DbLater(before, cfg, e);
      forall id: nat | OwnedBy(Step(before, cfg, e).db, id, userId) ensures !S.Active(Step(before, cfg, e).db, id) {
        assert S.RowKept(before.db, Step(before, cfg, e).db, id);
        assert id < |before.db.sessions| ==> OwnedBy(before.db, id, userId);
      }
    }
  }

  lemma ResetSignsOut(s: State, cfg: S.Config, userId: string)
    requires Inv(s) && userId in s.db.users
    ensures var reset := Step(s, cfg, Serial(S.ResetPassword(userId)));
            && NoneActive(reset.db, userId)
            && (!RefreshUnderWay(s, userId) && !ExpiringNow(s.db, userId) ==> SignedOut(reset, userId))
  {
    S.RevokeActiveRows(s.db, userId, 0);
    var reset := Step(s, cfg, Serial(S.ResetPassword(userId)));
    if !RefreshUnderWay(s, userId) && !ExpiringNow(s.db, userId) {
      forall id: nat | OwnedBy(reset.db, id, userId)
        ensures reset.db.sessions[id].revoked || reset.db.sessions[id].expiresAt < reset.db.now
      {
        assert OwnedBy(s.db, id, userId);
      }
      forall r | r in reset.pending
        ensures reset.pending[r].token < |reset.db.sessions| && !OwnedBy(reset.db, reset.pending[r].token, userId)
      {
        assert PendingOk(s, r);
        assert OwnedBy(s.db, s.pending[r].token, userId) == OwnedBy(reset.db, s.pending[r].token, userId);
      }
    }
  }

  /** A refresh that had read its token before the reset commits after it, whatever happens in
      between: its new session belongs to the same user, and is active if sessions last at all. */
  lemma RefreshSurvivesReset(s: State, cfg: S.Config, userId: string, r: Request, x: seq<Event>)
    requires Inv(s) && userId in s.db.users && r in s.pending && OwnedBy(s.db, s.pending[r].token, userId) && Commit(r) !in x
    ensures var reset := Step(s, cfg, Serial(S.ResetPassword(userId)));
            var before := RunFrom(reset, cfg, x); var after := Step(before, cfg, Commit(r)).db; var id := |before.db.sessions|;
            OwnedBy(after, id, userId) && (S.Active(after, id) <==> cfg.refreshLifetime > 0)
  {
    var e := Serial(S.ResetPassword(userId));
    var reset := Step(s, cfg, e);
    StepKeeps(s, cfg, e);
    StaysPending(reset, cfg, x, r);
    RunKeeps(reset, cfg, x);
    var before := RunFrom(reset, cfg, x);
    assert PendingOk(before, r);
    DbLater(s, cfg, e);
    RunDbLater(reset, cfg, x);
    assert S.RowKept(s.db, reset.db, s.pending[r].token) && S.RowKept(reset.db, before.db, s.pending[r].token);
  }

  lemma {:induction false} RunDbLater(s: State, cfg: S.Config, events: seq<Event>)
    ensures S.Later(s.db, RunFrom(s, cfg, events).db)
  {
    if events == [] {
      S.RunLater(s.db, cfg, []);
    } else {
      var before := RunFrom(s, cfg, events[..|events| - 1]);
      RunDbLater(s, cfg, events[..|events| - 1]);
      DbLater(before, cfg, events[|events| - 1]);
      forall i: nat ensures S.RowKept(s.db, RunFrom(s, cfg, events).db, i) {
        assert S.RowKept(s.db, before.db, i) && S.RowKept(before.db, RunFrom(s, cfg, events).db, i);
      }
    }
  }

  lemma OneEvent(s: State, cfg: S.Config, e: Event)
    ensures RunFrom(s, cfg, [e]) == Step(s, cfg, e)
  {
    assert [e][..0] == [];
  }

  lemma TwoEvents(s: State, cfg: S.Config, e: Event, f: Event)
    ensures RunFrom(s, cfg, [e, f]) == Step(Step(s, cfg, e), cfg, f)
  {
    OneEvent(s, cfg, e);
    assert [e, f][..1] == [e];
  }

  /** The session that `userId` still gets after the reset. */
  lemma ActiveAgain(s: State, cfg: S.Config, userId: string) returns (events: seq<Event>)
    requires Inv(s) && userId in s.db.users && cfg.refreshLifetime > 0
    requires RefreshUnderWay(s, userId) || ExpiringNow(s.db, userId)
    ensures NoSignIn(events, userId)
    ensures HasActiveSession(RunFrom(Step(s, cfg, Serial(S.ResetPassword(userId))), cfg, events).db, userId)
  {
    var reset := Step(s, cfg, Serial(S.ResetPassword(userId)));
    if RefreshUnderWay(s, userId) {
      var r :| r in s.pending && OwnedBy(s.db, s.pending[r].token, userId);
      events := [Commit(r)];
      RefreshSurvivesReset(s, cfg, userId, r, []);
      OneEvent(reset, cfg, Commit(r));
    } else {
      var id: nat :| OwnedBy(s.db, id, userId) && !s.db.sessions[id].revoked && s.db.sessions[id].expiresAt == s.db.now;
      var restore, refresh := Serial(S.SetUser(userId, S.User(true, true))), Serial(S.Refresh(id));
      events := [restore, refresh];
      TwoEvents(reset, cfg, restore, refresh);
      S.RevokeActiveRows(s.db, userId, 0);
      S.RotationReplaces(Step(reset, cfg, restore).db, cfg, id);
      assert OwnedBy(RunFrom(reset, cfg, events).db, |s.db.sessions|, userId);
    }
  }

  /** After a reset the user can have an active session again without signing in exactly when a
      refresh was under way at the reset, or a session expired at that very instant.  This covers
      everything that can follow, sessions refreshed from refreshed ones included. */
  lemma ActiveAfterResetExactly(s: State, cfg: S.Config, userId: string)
    requires Inv(s) && userId in s.db.users
    ensures var reset := Step(s, cfg, Serial(S.ResetPassword(userId)));
            (exists events :: NoSignIn(events, userId) && HasActiveSession(RunFrom(reset, cfg, events).db, userId))
            <==> cfg.refreshLifetime > 0 && (RefreshUnderWay(s, userId) || ExpiringNow(s.db, userId))
  {
    var reset := Step(s, cfg, Serial(S.ResetPassword(userId)));
    ResetSignsOut(s, cfg, userId);
    if cfg.refreshLifetime > 0 && (RefreshUnderWay(s, userId) || ExpiringNow(s.db, userId)) {
      var events := ActiveAgain(s, cfg, userId);
    } else {
      forall events | NoSignIn(events, userId) ensures !HasActiveSession(RunFrom(reset, cfg, events).db, userId) {
        if cfg.refreshLifetime <= 0 {
          StaysInactive(reset, cfg, events, userId);
        } else {
          StaysSignedOut(reset, cfg, events, userId);
        }
      }
    }
  }
}
