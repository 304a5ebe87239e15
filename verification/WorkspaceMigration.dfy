/** A default workspace for every user, then a workspace for every owned row.

    Rows are kept in the order the database returns them.  Each migration runs in one
    transaction, so a migration that raises leaves the database as it was.
 */
module WorkspaceMigration {
  import opened Wrappers

  datatype Outcome<+T> = Done(value: T) | Raised(failure: Failure)

  datatype Failure =
    | UniqueViolation(user: string)
    | NoOwnerColumn(table: string)
    | NoSuchTable(table: string)
    | OwnerColumnMissing(table: string)
    | NullsRemain(table: string, count: nat)

  // ---------------------------------------------------------------- the bootstrap

  const DEFAULT_SLUG := "default"

  datatype Workspace = Workspace(id: nat, owner: string, slug: string, isDefault: bool)

  datatype Membership = Membership(id: nat, workspace: nat, user: string, role: string, status: string)

  /** `next` is the next identifier nobody uses. */
  datatype Accounts = Accounts(workspaces: seq<Workspace>, memberships: seq<Membership>, next: nat)

  /** The first default workspace of an owner. */
  function DefaultOf(ws: seq<Workspace>, user: string): Option<nat> {
    if ws == [] then None
    else
      var before := DefaultOf(ws[..|ws| - 1], user);
      var w := ws[|ws| - 1];
      if before.None? && w.owner == user && w.isDefault then Some(w.id) else before
  }

  predicate SlugTaken(ws: seq<Workspace>, user: string) {
    exists i :: 0 <= i < |ws| && ws[i].owner == user && ws[i].slug == DEFAULT_SLUG
  }

  /** No default workspace yet, but its slug is already used by the owner. */
  predicate Blocked(ws: seq<Workspace>, user: string) { DefaultOf(ws, user).None? && SlugTaken(ws, user) }

  function NewWorkspace(a: Accounts, user: string): Workspace { Workspace(a.next, user, DEFAULT_SLUG, true) }

  function NewMembership(a: Accounts, user: string): Membership {
    Membership(a.next + 1, a.next, user, "owner", "active")
  }

  function Enrol(a: Accounts, user: string): Outcome<Accounts> {
    if DefaultOf(a.workspaces, user).Some? then Done(a)
    else if SlugTaken(a.workspaces, user) then Raised(UniqueViolation(user))
    else Done(Accounts(a.workspaces + [NewWorkspace(a, user)], a.memberships + [NewMembership(a, user)], a.next + 2))
  }

  function Bootstrap(a: Accounts, users: seq<string>): Outcome<Accounts> {
    if users == [] then Done(a)
    else match Bootstrap(a, users[..|users| - 1])
      case Done(b) => Enrol(b, users[|users| - 1])
      case Raised(f) => Raised(f)
  }

  ghost predicate Distinct<T(!new)>(xs: seq<T>) { forall i, j :: 0 <= i < j < |xs| ==> xs[i] != xs[j] }

  /** What the partial unique index says: one default workspace an owner. */
  ghost predicate OneDefault(ws: seq<Workspace>) {
    forall i, j :: 0 <= i < j < |ws| && ws[i].isDefault && ws[j].isDefault ==> ws[i].owner != ws[j].owner
  }

  /** The lookup finds a default workspace of the owner exactly when there is one. */
  lemma {:induction false} DefaultOfFinds(ws: seq<Workspace>, user: string)
    ensures match DefaultOf(ws, user)
            case None => forall w :: w in ws ==> !(w.owner == user && w.isDefault)
            case Some(id) => exists w :: w in ws && w.owner == user && w.isDefault && w.id == id
  {
    if ws != [] {
      var shorter, last := ws[..|ws| - 1], ws[|ws| - 1];
      DefaultOfFinds(shorter, user);
      assert ws == shorter + [last];
      if DefaultOf(shorter, user).Some? {
        var w :| w in shorter && w.owner == user && w.isDefault && w.id == DefaultOf(shorter, user).value;
        assert w in ws;
      } else if last.owner == user && last.isDefault {
        assert last in ws;
      }
    }
  }

  /** With one default an owner, any default workspace of the owner is the one found. */
  lemma DefaultIsUnique(ws: seq<Workspace>, w: Workspace)
    requires OneDefault(ws) && w in ws && w.isDefault
    ensures DefaultOf(ws, w.owner) == Some(w.id)
  {
    DefaultOfFinds(ws, w.owner);
    assert DefaultOf(ws, w.owner).Some?;
    var v :| v in ws && v.owner == w.owner && v.isDefault && v.id == DefaultOf(ws, w.owner).value;
    var i :| 0 <= i < |ws| && ws[i] == v;
    var j :| 0 <= j < |ws| && ws[j] == w;
    assert i == j;
  }

  /** Enrolling one user decides that user and nobody else, and adds at most one pair of rows. */
  lemma EnrolOne(a: Accounts, user: string, other: string)
    requires Enrol(a, user).Done?
    ensures var b := Enrol(a, user).value;
            && DefaultOf(b.workspaces, user).Some?
            && (DefaultOf(a.workspaces, other).Some? ==> DefaultOf(b.workspaces, other) == DefaultOf(a.workspaces, other))
            && (other != user ==> DefaultOf(b.workspaces, other) == DefaultOf(a.workspaces, other))
            && (other != user ==> SlugTaken(b.workspaces, other) == SlugTaken(a.workspaces, other))
  {
    var b := Enrol(a, user).value;
    if b != a {
      assert b.workspaces[..|a.workspaces|] == a.workspaces;
      assert forall i :: 0 <= i < |a.workspaces| ==> b.workspaces[i] == a.workspaces[i];
    }
  }

  lemma EnrolKeepsOneDefault(a: Accounts, user: string)
    requires Enrol(a, user).Done? && OneDefault(a.workspaces)
    ensures OneDefault(Enrol(a, user).value.workspaces)
  {
    DefaultOfFinds(a.workspaces, user);
  }

  /** What the loop has done for one user, seen or not yet seen. */
  lemma {:induction false} BootstrapOne(a: Accounts, users: seq<string>, user: string)
    requires Bootstrap(a, users).Done?
    ensures var b := Bootstrap(a, users).value;
            && (user in users ==> DefaultOf(b.workspaces, user).Some?)
            && (DefaultOf(a.workspaces, user).Some? ==> DefaultOf(b.workspaces, user) == DefaultOf(a.workspaces, user))
            && (user !in users ==> Blocked(b.workspaces, user) == Blocked(a.workspaces, user))
            && (user !in users ==> DefaultOf(b.workspaces, user) == DefaultOf(a.workspaces, user))
  {
    if users != [] {
      var earlier, last := users[..|users| - 1], users[|users| - 1];
      assert users == earlier + [last];
      BootstrapOne(a, earlier, user);
      EnrolOne(Bootstrap(a, earlier).value, last, user);
    }
  }

  /** The bootstrap succeeds exactly when no user without a default workspace already owns one
      under the default slug. */
  lemma BootstrapSucceedsExactly(a: Accounts, users: seq<string>)
    requires Distinct(users)
    ensures Bootstrap(a, users).Done? <==>
            forall u :: u in users ==>
              || (exists w :: w in a.workspaces && w.owner == u && w.isDefault)
              || !(exists w :: w in a.workspaces && w.owner == u && w.slug == "default")
  {
    SucceedsUnlessBlocked(a, users);
    forall u | u in users
      ensures Blocked(a.workspaces, u) <==>
              && !(exists w :: w in a.workspaces && w.owner == u && w.isDefault)
              && (exists w :: w in a.workspaces && w.owner == u && w.slug == "default")
    {
      DefaultOfFinds(a.workspaces, u);
    }
  }

  lemma {:induction false} SucceedsUnlessBlocked(a: Accounts, users: seq<string>)
    requires Distinct(users)
    ensures Bootstrap(a, users).Done? <==> forall u :: u in users ==> !Blocked(a.workspaces, u)
  {
    if users != [] {
      var earlier, last := users[..|users| - 1], users[|users| - 1];
      assert users == earlier + [last];
      SucceedsUnlessBlocked(a, earlier);
      if Bootstrap(a, earlier).Done? {
        assert last !in earlier;
        BootstrapOne(a, earlier, last);
        assert last in users;
      } else {
        assert forall u :: u in earlier ==> u in users;
      }
    }
  }

  /** `b` is `a` with further workspaces and memberships, which come in pairs. */
  ghost predicate Appended(a: Accounts, b: Accounts, users: seq<string>) {
    && a.workspaces <= b.workspaces && a.memberships <= b.memberships
    && |b.workspaces| - |a.workspaces| == |b.memberships| - |a.memberships|
    && b.next == a.next + 2 * (|b.workspaces| - |a.workspaces|)
    && forall i :: |a.workspaces| <= i < |b.workspaces| ==>
         Paired(b.workspaces[i], b.memberships[|a.memberships| + i - |a.workspaces|], users)
  }

  lemma AppendedOne(a: Accounts, b: Accounts, users: seq<string>, last: string)
    requires Appended(a, b, users) && Enrol(b, last).Done?
    ensures Appended(a, Enrol(b, last).value, users + [last])
  {
    var c := Enrol(b, last).value;
    forall i | |a.workspaces| <= i < |c.workspaces|
      ensures Paired(c.workspaces[i], c.memberships[|a.memberships| + i - |a.workspaces|], users + [last])
    {
      if i < |b.workspaces| {
        assert Paired(b.workspaces[i], b.memberships[|a.memberships| + i - |a.workspaces|], users);
      }
    }
  }

  /** Existing rows stay where they are, new workspaces and memberships come in pairs, and there
      is still one default an owner. */
  lemma {:induction false} BootstrapAppends(a: Accounts, users: seq<string>)
    requires Bootstrap(a, users).Done? && OneDefault(a.workspaces)
    ensures Appended(a, Bootstrap(a, users).value, users) && OneDefault(Bootstrap(a, users).value.workspaces)
  {
    if users != [] {
      var earlier, last := users[..|users| - 1], users[|users| - 1];
      assert users == earlier + [last];
      BootstrapAppends(a, earlier);
      EnrolKeepsOneDefault(Bootstrap(a, earlier).value, last);
      AppendedOne(a, Bootstrap(a, earlier).value, earlier, last);
    }
  }

  /** A default workspace of some user, and the user's active owner membership in it. */
  predicate Paired(w: Workspace, m: Membership, users: seq<string>) {
    && w.isDefault && w.slug == DEFAULT_SLUG && w.owner in users
    && m.workspace == w.id && m.user == w.owner && m.role == "owner" && m.status == "active"
  }

  /** Running the bootstrap again, with the users in any order, inserts nothing. */
  lemma {:induction false} BootstrapTwice(a: Accounts, users: seq<string>, again: seq<string>)
    requires Bootstrap(a, users).Done? && forall u :: u in again ==> u in users
    ensures Bootstrap(Bootstrap(a, users).value, again) == Bootstrap(a, users)
  {
    if again != [] {
      assert again == again[..|again| - 1] + [again[|again| - 1]];
      BootstrapTwice(a, users, again[..|again| - 1]);
      BootstrapOne(a, users, again[|again| - 1]);
    }
  }

  /** From empty tables: user number `k` gets workspace number `k` and membership number `k`. */
  lemma {:induction false} FreshRows(next: nat, users: seq<string>)
    requires Distinct(users)
    ensures Bootstrap(Accounts([], [], next), users).Done?
    ensures var b := Bootstrap(Accounts([], [], next), users).value;
            && |b.workspaces| == |users| && |b.memberships| == |users| && b.next == next + 2 * |users|
            && forall k :: 0 <= k < |users| ==> RowsOf(b, users[k], k, next)
  {
    var a := Accounts([], [], next);
    SucceedsUnlessBlocked(a, users);
    if users != [] {
      var earlier, last := users[..|users| - 1], users[|users| - 1];
      FreshRows(next, earlier);
      assert last !in earlier;
      BootstrapOne(a, earlier, last);
      var before, b := Bootstrap(a, earlier).value, Bootstrap(a, users).value;
      forall k | 0 <= k < |users| ensures RowsOf(b, users[k], k, next) {
        if k < |earlier| { assert RowsOf(before, earlier[k], k, next); }
      }
    }
  }

  predicate RowsOf(b: Accounts, user: string, k: nat, next: nat)
    requires k < |b.workspaces| && k < |b.memberships|
  {
    && b.workspaces[k] == Workspace(next + 2 * k, user, DEFAULT_SLUG, true)
    && b.memberships[k] == Membership(next + 2 * k + 1, next + 2 * k, user, "owner", "active")
  }

  ghost predicate FreshTables(b: Accounts, users: seq<string>, next: nat) {
    && |b.workspaces| == |users| == |b.memberships|
    && forall k :: 0 <= k < |users| ==> RowsOf(b, users[k], k, next)
  }

  lemma OnlyWorkspace(b: Accounts, users: seq<string>, next: nat, k: nat, w: Workspace)
    requires Distinct(users) && FreshTables(b, users, next) && k < |users| && w in b.workspaces && w.owner == users[k]
    ensures w == Workspace(next + 2 * k, users[k], DEFAULT_SLUG, true)
  {
    var i :| 0 <= i < |b.workspaces| && b.workspaces[i] == w;
    assert RowsOf(b, users[i], i, next);
  }

  lemma OnlyMembership(b: Accounts, users: seq<string>, next: nat, k: nat, m: Membership)
    requires Distinct(users) && FreshTables(b, users, next) && k < |users| && m in b.memberships && m.user == users[k]
    ensures m == Membership(next + 2 * k + 1, next + 2 * k, users[k], "owner", "active")
  {
    var i :| 0 <= i < |b.memberships| && b.memberships[i] == m;
    assert RowsOf(b, users[i], i, next);
  }

  /** So every user has exactly one default workspace and one membership, as its owner. */
  lemma FreshBootstrap(next: nat, users: seq<string>, k: nat)
    requires Distinct(users) && k < |users|
    ensures Bootstrap(Accounts([], [], next), users).Done?
    ensures var b := Bootstrap(Accounts([], [], next), users).value;
            && (forall w :: w in b.workspaces && w.owner == users[k] ==> w == Workspace(next + 2 * k, users[k], DEFAULT_SLUG, true))
            && (forall m :: m in b.memberships && m.user == users[k] ==>
                m == Membership(next + 2 * k + 1, next + 2 * k, users[k], "owner", "active"))
            && (exists w :: w in b.workspaces && w.owner == users[k]) && (exists m :: m in b.memberships && m.user == users[k])
  {
    FreshRows(next, users);
    var b := Bootstrap(Accounts([], [], next), users).value;
    assert RowsOf(b, users[k], k, next);
    assert b.workspaces[k] in b.workspaces && b.memberships[k] in b.memberships;
    forall w | w in b.workspaces && w.owner == users[k] ensures w == Workspace(next + 2 * k, users[k], DEFAULT_SLUG, true) {
      OnlyWorkspace(b, users, next, k, w);
    }
    forall m | m in b.memberships && m.user == users[k]
      ensures m == Membership(next + 2 * k + 1, next + 2 * k, users[k], "owner", "active")
    {
      OnlyMembership(b, users, next, k, m);
    }
  }

  lemma RowDefault(b: Accounts, user: string, k: nat, next: nat)
    requires k < |b.workspaces| && k < |b.memberships| && OneDefault(b.workspaces) && RowsOf(b, user, k, next)
    ensures DefaultOf(b.workspaces, user) == Some(next + 2 * k)
  {
    assert b.workspaces[k] in b.workspaces;
    DefaultIsUnique(b.workspaces, b.workspaces[k]);
  }

  lemma BootstrapKeepsOneDefault(a: Accounts, users: seq<string>)
    requires Bootstrap(a, users).Done? && OneDefault(a.workspaces)
    ensures OneDefault(Bootstrap(a, users).value.workspaces)
  {
    BootstrapAppends(a, users);
  }

  /** And that workspace is the one the lookup finds. */
  lemma FreshDefault(next: nat, users: seq<string>, k: nat)
    requires Distinct(users) && k < |users|
    ensures Bootstrap(Accounts([], [], next), users).Done?
    ensures DefaultOf(Bootstrap(Accounts([], [], next), users).value.workspaces, users[k]) == Some(next + 2 * k)
  {
    FreshRows(next, users);
    BootstrapKeepsOneDefault(Accounts([], [], next), users);
    RowDefault(Bootstrap(Accounts([], [], next), users).value, users[k], k, next);
  }

  // ---------------------------------------------------------------- the targets

  datatype Entry = Entry(table: string, ownerColumn: Option<string>, phase: string)

  datatype Target = Target(table: string, ownerColumn: string)

  predicate Selected(e: Entry) { e.phase == "top_level" && e.table != "workspaces" }

  predicate Owned(e: Entry) { e.ownerColumn.Some? && e.ownerColumn.value != "" }

  function Targets(inventory: seq<Entry>): Outcome<seq<Target>> {
    if inventory == [] then Done([])
    else
      var e := inventory[|inventory| - 1];
      match Targets(inventory[..|inventory| - 1])
      case Raised(f) => Raised(f)
      case Done(ts) =>
        if !Selected(e) then Done(ts)
        else if !Owned(e) then Raised(NoOwnerColumn(e.table))
        else Done(ts + [Target(e.table, e.ownerColumn.value)])
  }

  method WorkspaceFkTargets(inventory: seq<Entry>) returns (targets: Outcome<seq<Target>>)
    ensures targets == Targets(inventory)
  {
    var found: seq<Target> := [];
    var i := 0;
    while i < |inventory|
      invariant i <= |inventory| && Targets(inventory[..i]) == Done(found)
    {
      var e := inventory[i];
      assert inventory[..i + 1][..i] == inventory[..i];
      if e.phase == "top_level" && e.table != "workspaces" {
        if e.ownerColumn.None? || e.ownerColumn.value == "" {
          TargetsRaise(inventory, i + 1);
          return Raised(NoOwnerColumn(e.table));
        }
        found := found + [Target(e.table, e.ownerColumn.value)];
      }
      i := i + 1;
    }
    assert inventory[..i] == inventory;
    targets := Done(found);
  }

  /** The first failure stands. */
  lemma {:induction false} TargetsRaise(inventory: seq<Entry>, i: nat)
    requires i <= |inventory| && Targets(inventory[..i]).Raised?
    ensures Targets(inventory) == Targets(inventory[..i])
    decreases |inventory| - i
  {
    if i == |inventory| {
      assert inventory[..i] == inventory;
    } else {
      assert inventory[..i + 1][..i] == inventory[..i];
      TargetsRaise(inventory, i + 1);
    }
  }

  ghost predicate Listed(inventory: seq<Entry>, t: Target) {
    exists e :: e in inventory && TopLevel(e) && e.table == t.table && e.ownerColumn == Some(t.ownerColumn)
  }

  /** A top-level table other than the workspaces themselves. */
  ghost predicate TopLevel(e: Entry) { e.phase == "top_level" && e.table != "workspaces" }

  /** The targets exist exactly when every selected entry names an owner column, and then they are
      exactly the selected entries. */
  lemma {:induction false} TargetsExactly(inventory: seq<Entry>, t: Target)
    ensures Targets(inventory).Done? <==>
            forall e :: e in inventory && TopLevel(e) ==> e.ownerColumn != None && e.ownerColumn != Some("")
    ensures Targets(inventory).Done? ==> (t in Targets(inventory).value <==> Listed(inventory, t))
  {
    if inventory != [] {
      var shorter, last := inventory[..|inventory| - 1], inventory[|inventory| - 1];
      assert inventory == shorter + [last];
      assert last in inventory && forall e :: e in shorter ==> e in inventory;
      TargetsExactly(shorter, t);
      if Targets(inventory).Done? && Listed(shorter, t) {
        var e :| e in shorter && TopLevel(e) && e.table == t.table && e.ownerColumn == Some(t.ownerColumn);
        assert e in inventory;
      }
    }
  }

  /** Distinct table names give distinct targets. */
  lemma {:induction false} TargetsDistinct(inventory: seq<Entry>)
    requires Targets(inventory).Done?
    requires forall i, j :: 0 <= i < j < |inventory| ==> inventory[i].table != inventory[j].table
    ensures DistinctTables(Targets(inventory).value)
  {
    if inventory != [] {
      var shorter, last := inventory[..|inventory| - 1], inventory[|inventory| - 1];
      TargetsDistinct(shorter);
      var ts := Targets(shorter).value;
      forall k | 0 <= k < |ts| ensures ts[k].table != last.table {
        TargetsExactly(shorter, ts[k]);
        assert Listed(shorter, ts[k]);
      }
    }
  }

  ghost predicate DistinctTables(ts: seq<Target>) { forall i, j :: 0 <= i < j < |ts| ==> ts[i].table != ts[j].table }

  // ---------------------------------------------------------------- the backfill

  const WORKSPACE_ID := "workspace_id"

  /** `cells` holds the columns of the row that are not NULL, `workspace` its `workspace_id`. */
  datatype Row = Row(cells: map<string, string>, workspace: Option<nat>)

  datatype Table = Table(columns: set<string>, rows: seq<Row>, notNull: bool)

  type Tables = map<string, Table>

  function FillRow(r: Row, column: string, ws: seq<Workspace>): Row {
    if r.workspace.None? && column in r.cells then r.(workspace := DefaultOf(ws, r.cells[column])) else r
  }

  /** The UPDATE. */
  function FillRows(rows: seq<Row>, column: string, ws: seq<Workspace>): (r: seq<Row>)
    ensures |r| == |rows|
  {
    seq(|rows|, i requires 0 <= i < |rows| => FillRow(rows[i], column, ws))
  }

  /** The COUNT. */
  function NullCount(rows: seq<Row>): nat {
    if rows == [] then 0 else (if rows[0].workspace.None? then 1 else 0) + NullCount(rows[1..])
  }

  lemma {:induction false} NullCountZero(rows: seq<Row>)
    ensures NullCount(rows) == 0 <==> forall i :: 0 <= i < |rows| ==> rows[i].workspace.Some?
  {
    if rows != [] {
      NullCountZero(rows[1..]);
      if forall i :: 0 <= i < |rows| ==> rows[i].workspace.Some? {
        assert forall i :: 0 <= i < |rows[1..]| ==> rows[1..][i] == rows[i + 1];
      }
      if NullCount(rows) == 0 {
        forall i | 0 <= i < |rows| ensures rows[i].workspace.Some? {
          if i > 0 { assert rows[i] == rows[1..][i - 1]; }
        }
      }
    }
  }

  /** The rows without a workspace. */
  ghost function Nulls(rows: seq<Row>): set<int> { set i | 0 <= i < |rows| && rows[i].workspace.None? }

  lemma {:induction false} NullCountAppend(rows: seq<Row>, r: Row)
    ensures NullCount(rows + [r]) == NullCount(rows) + if r.workspace.None? then 1 else 0
  {
    if rows != [] {
      assert (rows + [r])[1..] == rows[1..] + [r];
      NullCountAppend(rows[1..], r);
    }
  }

  /** The number that the failure reports. */
  lemma {:induction false} NullCountCounts(rows: seq<Row>)
    ensures NullCount(rows) == |Nulls(rows)|
  {
    if rows != [] {
      var earlier, last := rows[..|rows| - 1], rows[|rows| - 1];
      assert rows == earlier + [last];
      NullCountCounts(earlier);
      NullCountAppend(earlier, last);
      assert Nulls(rows) == Nulls(earlier) + if last.workspace.None? then {|earlier|} else {};
    }
  }

  function WithColumn(t: Table): Table { t.(columns := t.columns + {WORKSPACE_ID}) }

  function PrepareTable(db: Tables, t: Target): Outcome<Tables> {
    if t.table !in db then Raised(NoSuchTable(t.table))
    else if t.ownerColumn !in db[t.table].columns then Raised(OwnerColumnMissing(t.table))
    else Done(db[t.table := WithColumn(db[t.table])])
  }

  function Prepare(db: Tables, ts: seq<Target>): Outcome<Tables> {
    if ts == [] then Done(db)
    else match Prepare(db, ts[..|ts| - 1])
      case Raised(f) => Raised(f)
      case Done(d) => PrepareTable(d, ts[|ts| - 1])
  }

  function FillTable(db: Tables, t: Target, ws: seq<Workspace>): Tables {
    if t.table in db
    then db[t.table := db[t.table].(rows := FillRows(db[t.table].rows, t.ownerColumn, ws))]
    else db
  }

  function Fill(db: Tables, ts: seq<Target>, ws: seq<Workspace>): Tables {
    if ts == [] then db else FillTable(Fill(db, ts[..|ts| - 1], ws), ts[|ts| - 1], ws)
  }

  function CheckTable(db: Tables, t: Target): Outcome<Tables> {
    if t.table !in db then Raised(NoSuchTable(t.table))
    else
      var nulls := NullCount(db[t.table].rows);
      if nulls != 0 then Raised(NullsRemain(t.table, nulls))
      else Done(db[t.table := db[t.table].(notNull := true)])
  }

  function Check(db: Tables, ts: seq<Target>): Outcome<Tables> {
    if ts == [] then Done(db)
    else match Check(db, ts[..|ts| - 1])
      case Raised(f) => Raised(f)
      case Done(d) => CheckTable(d, ts[|ts| - 1])
  }

  function Upgrade(db: Tables, inventory: seq<Entry>, ws: seq<Workspace>): Outcome<Tables> {
    match Targets(inventory)
    case Raised(f) => Raised(f)
    case Done(ts) =>
      match Prepare(db, ts)
      case Raised(f) => Raised(f)
      case Done(d) => Check(Fill(d, ts, ws), ts)
  }

  // ---------------------------------------------------------------- what the sequence achieves

  /** The target of a table. */
  ghost predicate HasTarget(ts: seq<Target>, name: string) { exists k :: 0 <= k < |ts| && ts[k].table == name }

  lemma HasTargetPrefix(ts: seq<Target>, name: string)
    requires ts != []
    ensures HasTarget(ts, name) <==> HasTarget(ts[..|ts| - 1], name) || ts[|ts| - 1].table == name
  {
    var earlier := ts[..|ts| - 1];
    if HasTarget(ts, name) && ts[|ts| - 1].table != name {
      var k :| 0 <= k < |ts| && ts[k].table == name;
      assert earlier[k].table == name;
    }
    if HasTarget(earlier, name) {
      var k :| 0 <= k < |earlier| && earlier[k].table == name;
      assert ts[k].table == name;
    }
  }

  predicate Ready(db: Tables, t: Target) { t.table in db && t.ownerColumn in db[t.table].columns }

  /** The first loop passes exactly when every target table has its owner column; it only adds
      the new column. */
  lemma {:induction false} PrepareExactly(db: Tables, ts: seq<Target>)
    requires DistinctTables(ts)
    ensures Prepare(db, ts).Done? <==> forall k :: 0 <= k < |ts| ==> Ready(db, ts[k])
    ensures Prepare(db, ts).Done? ==>
              && Prepare(db, ts).value.Keys == db.Keys
              && (forall name :: name in db && HasTarget(ts, name) ==> Prepare(db, ts).value[name] == WithColumn(db[name]))
              && (forall name :: name in db && !HasTarget(ts, name) ==> Prepare(db, ts).value[name] == db[name])
  {
    if ts != [] {
      var earlier, last := ts[..|ts| - 1], ts[|ts| - 1];
      PrepareExactly(db, earlier);
      forall name ensures HasTarget(ts, name) <==> HasTarget(earlier, name) || last.table == name {
        HasTargetPrefix(ts, name);
      }
      assert !HasTarget(earlier, last.table);
      assert forall k :: 0 <= k < |earlier| ==> earlier[k] == ts[k];
      if Prepare(db, earlier).Done? {
        assert Ready(Prepare(db, earlier).value, last) <==> Ready(db, last);
      }
    }
  }

  /** The updates reach every target table once and nothing else. */
  lemma {:induction false} FillExactly(db: Tables, ts: seq<Target>, ws: seq<Workspace>, name: string)
    requires DistinctTables(ts) && name in db
    ensures Fill(db, ts, ws).Keys == db.Keys
    ensures !HasTarget(ts, name) ==> Fill(db, ts, ws)[name] == db[name]
    ensures forall k :: 0 <= k < |ts| && ts[k].table == name ==>
              Fill(db, ts, ws)[name] == db[name].(rows := FillRows(db[name].rows, ts[k].ownerColumn, ws))
  {
    if ts != [] {
      var earlier, last := ts[..|ts| - 1], ts[|ts| - 1];
      FillExactly(db, earlier, ws, name);
      HasTargetPrefix(ts, name);
      if last.table == name {
        assert !HasTarget(earlier, name);
      }
      assert forall k :: 0 <= k < |earlier| ==> earlier[k] == ts[k];
    }
  }

  ghost predicate NoNulls(t: Table) { forall i :: 0 <= i < |t.rows| ==> t.rows[i].workspace.Some? }

  /** The last loop passes exactly when no target table has a NULL left. */
  lemma {:induction false} CheckExactly(db: Tables, ts: seq<Target>)
    requires DistinctTables(ts) && forall k :: 0 <= k < |ts| ==> ts[k].table in db
    ensures Check(db, ts).Done? <==> forall k :: 0 <= k < |ts| ==> NoNulls(db[ts[k].table])
    ensures Check(db, ts).Done? ==>
              && Check(db, ts).value.Keys == db.Keys
              && (forall name :: name in db && HasTarget(ts, name) ==> Check(db, ts).value[name] == db[name].(notNull := true))
              && (forall name :: name in db && !HasTarget(ts, name) ==> Check(db, ts).value[name] == db[name])
  {
    if ts != [] {
      var earlier, last := ts[..|ts| - 1], ts[|ts| - 1];
      CheckExactly(db, earlier);
      forall name ensures HasTarget(ts, name) <==> HasTarget(earlier, name) || last.table == name {
        HasTargetPrefix(ts, name);
      }
      assert !HasTarget(earlier, last.table);
      assert forall k :: 0 <= k < |earlier| ==> earlier[k] == ts[k];
      NullCountZero(db[last.table].rows);
    }
  }

  /** The row has a workspace already, or its owner has a default one. */
  predicate Fillable(r: Row, column: string, ws: seq<Workspace>) {
    r.workspace.Some? || (column in r.cells && DefaultOf(ws, r.cells[column]).Some?)
  }

  ghost predicate AllFillable(t: Table, column: string, ws: seq<Workspace>) {
    forall i :: 0 <= i < |t.rows| ==> Fillable(t.rows[i], column, ws)
  }

  /** What the check sees of the table of one target. */
  lemma FilledTable(db: Tables, ts: seq<Target>, ws: seq<Workspace>, k: nat)
    requires DistinctTables(ts) && Prepare(db, ts).Done? && k < |ts|
    ensures ts[k].table in db && ts[k].table in Fill(Prepare(db, ts).value, ts, ws)
    ensures var name := ts[k].table; var t := Fill(Prepare(db, ts).value, ts, ws)[name];
            && t == Table(db[name].columns + {WORKSPACE_ID}, FillRows(db[name].rows, ts[k].ownerColumn, ws), db[name].notNull)
            && (NoNulls(t) <==> AllFillable(db[name], ts[k].ownerColumn, ws))
  {
    PrepareExactly(db, ts);
    var name := ts[k].table;
    assert Ready(db, ts[k]) && HasTarget(ts, name);
    FillExactly(Prepare(db, ts).value, ts, ws, name);
    var rows, filled := db[name].rows, FillRows(db[name].rows, ts[k].ownerColumn, ws);
    assert forall i :: 0 <= i < |rows| ==> (filled[i].workspace.Some? <==> Fillable(rows[i], ts[k].ownerColumn, ws));
  }

  /** The upgrade succeeds exactly when every target table has its owner column and every row
      without a workspace is owned by a user with a default workspace. */
  lemma UpgradeSucceedsExactly(db: Tables, inventory: seq<Entry>, ts: seq<Target>, ws: seq<Workspace>)
    requires Targets(inventory) == Done(ts) && DistinctTables(ts)
    ensures Upgrade(db, inventory, ws).Done? <==>
            forall k :: 0 <= k < |ts| ==> Ready(db, ts[k]) && AllFillable(db[ts[k].table], ts[k].ownerColumn, ws)
  {
    PrepareExactly(db, ts);
    if Prepare(db, ts).Done? {
      var filled := Fill(Prepare(db, ts).value, ts, ws);
      forall k | 0 <= k < |ts|
        ensures ts[k].table in filled && ts[k].table in db
        ensures NoNulls(filled[ts[k].table]) <==> AllFillable(db[ts[k].table], ts[k].ownerColumn, ws)
      {
        FilledTable(db, ts, ws, k);
      }
      CheckExactly(filled, ts);
    }
  }

  /** After a successful upgrade each target table has the same rows in the same order, a row
      without a workspace now has its owner's default one, and every other row is untouched;
      tables that are no target are untouched. */
  lemma UpgradeEffect(db: Tables, inventory: seq<Entry>, ts: seq<Target>, ws: seq<Workspace>)
    requires Targets(inventory) == Done(ts) && DistinctTables(ts) && Upgrade(db, inventory, ws).Done?
    ensures var d := Upgrade(db, inventory, ws).value;
            && d.Keys == db.Keys
            && (forall name :: name in db && !HasTarget(ts, name) ==> d[name] == db[name])
            && (forall k :: 0 <= k < |ts| ==> ts[k].table in db && MovedTo(db[ts[k].table], d[ts[k].table], ts[k].ownerColumn, ws))
  {
    PrepareExactly(db, ts);
    UpgradeSucceedsExactly(db, inventory, ts, ws);
    var prepared := Prepare(db, ts).value;
    var filled := Fill(prepared, ts, ws);
    forall name | name in db ensures filled.Keys == db.Keys && (!HasTarget(ts, name) ==> filled[name] == db[name]) {
      FillExactly(prepared, ts, ws, name);
    }
    if ts == [] {
    } else {
      forall k | 0 <= k < |ts| ensures ts[k].table in filled && HasTarget(ts, ts[k].table) {
        FilledTable(db, ts, ws, k);
      }
      FilledTable(db, ts, ws, 0);
      CheckExactly(filled, ts);
      var d := Check(filled, ts).value;
      forall k | 0 <= k < |ts| ensures ts[k].table in db && MovedTo(db[ts[k].table], d[ts[k].table], ts[k].ownerColumn, ws) {
        FilledTable(db, ts, ws, k);
        assert AllFillable(db[ts[k].table], ts[k].ownerColumn, ws);
      }
    }
  }

  ghost predicate MovedTo(was: Table, now: Table, column: string, ws: seq<Workspace>) {
    && now.notNull && now.columns == was.columns + {WORKSPACE_ID} && |now.rows| == |was.rows|
    && forall i :: 0 <= i < |was.rows| ==> RowMoved(was.rows[i], now.rows[i], column, ws)
  }

  predicate RowMoved(was: Row, now: Row, column: string, ws: seq<Workspace>) {
    if was.workspace.Some? then now == was
    else
      && now.cells == was.cells && column in was.cells
      && now.workspace.Some? && now.workspace == DefaultOf(ws, was.cells[column])
  }

  /** From fresh workspace tables, with owners that are users: the bootstrap followed by the
      upgrade goes through, and the row of user number `j` points at workspace number `j`. */
  lemma EndToEnd(db: Tables, inventory: seq<Entry>, ts: seq<Target>, users: seq<string>, next: nat)
    requires Distinct(users)
    requires Targets(inventory) == Done(ts) && DistinctTables(ts)
    requires forall k :: 0 <= k < |ts| ==> Ready(db, ts[k])
    ensures Bootstrap(Accounts([], [], next), users).Done?
    ensures var ws := Bootstrap(Accounts([], [], next), users).value.workspaces;
            && (Upgrade(db, inventory, ws).Done? <==>
                forall k :: 0 <= k < |ts| ==> OwnersAreUsers(db, ts[k], users))
            && (Upgrade(db, inventory, ws).Done? ==>
                forall k :: 0 <= k < |ts| ==>
                  PointAtOwners(db, Upgrade(db, inventory, ws).value, ts[k], users, next))
  {
    FreshRows(next, users);
    var ws := Bootstrap(Accounts([], [], next), users).value.workspaces;
    UpgradeSucceedsExactly(db, inventory, ts, ws);
    forall k | 0 <= k < |ts|
      ensures AllFillable(db[ts[k].table], ts[k].ownerColumn, ws) <==> OwnersAreUsers(db, ts[k], users)
    {
      FillableOwners(db, ts[k], users, next);
    }
    if Upgrade(db, inventory, ws).Done? {
      UpgradeEffect(db, inventory, ts, ws);
      forall k | 0 <= k < |ts| ensures PointAtOwners(db, Upgrade(db, inventory, ws).value, ts[k], users, next) {
        MovedPointAtOwners(db, Upgrade(db, inventory, ws).value, ts[k], users, next);
      }
    }
  }

  /** Every row without a workspace is owned by an existing user. */
  ghost predicate OwnersAreUsers(db: Tables, t: Target, users: seq<string>) {
    t.table in db && forall i :: 0 <= i < |db[t.table].rows| ==> OwnerIsUser(db[t.table].rows[i], t.ownerColumn, users)
  }

  predicate OwnerIsUser(r: Row, column: string, users: seq<string>) {
    r.workspace.Some? || (column in r.cells && r.cells[column] in users)
  }

  ghost predicate PointAtOwners(was: Tables, now: Tables, t: Target, users: seq<string>, next: nat) {
    && t.table in was && t.table in now && |now[t.table].rows| == |was[t.table].rows|
    && forall i :: 0 <= i < |was[t.table].rows| ==>
         RowPointsAtOwner(was[t.table].rows[i], now[t.table].rows[i], t.ownerColumn, users, next)
  }

  ghost predicate RowPointsAtOwner(was: Row, now: Row, column: string, users: seq<string>, next: nat) {
    if was.workspace.Some? then now == was
    else forall j :: 0 <= j < |users| && column in was.cells && was.cells[column] == users[j] ==>
           now == was.(workspace := Some(next + 2 * j))
  }

  lemma FillableOwners(db: Tables, t: Target, users: seq<string>, next: nat)
    requires Distinct(users) && t.table in db
    requires Bootstrap(Accounts([], [], next), users).Done?
    ensures var ws := Bootstrap(Accounts([], [], next), users).value.workspaces;
            AllFillable(db[t.table], t.ownerColumn, ws) <==> OwnersAreUsers(db, t, users)
  {
    var a := Accounts([], [], next);
    var ws := Bootstrap(a, users).value.workspaces;
    var rows := db[t.table].rows;
    forall i | 0 <= i < |rows| ensures Fillable(rows[i], t.ownerColumn, ws) <==> OwnerIsUser(rows[i], t.ownerColumn, users) {
      if t.ownerColumn in rows[i].cells { BootstrapOne(a, users, rows[i].cells[t.ownerColumn]); }
    }
  }

  lemma MovedPointAtOwners(was: Tables, now: Tables, t: Target, users: seq<string>, next: nat)
    requires Distinct(users) && t.table in was && t.table in now
    requires Bootstrap(Accounts([], [], next), users).Done?
    requires MovedTo(was[t.table], now[t.table], t.ownerColumn, Bootstrap(Accounts([], [], next), users).value.workspaces)
    ensures PointAtOwners(was, now, t, users, next)
  {
    var ws := Bootstrap(Accounts([], [], next), users).value.workspaces;
    forall i | 0 <= i < |was[t.table].rows|
      ensures RowPointsAtOwner(was[t.table].rows[i], now[t.table].rows[i], t.ownerColumn, users, next)
    {
      assert RowMoved(was[t.table].rows[i], now[t.table].rows[i], t.ownerColumn, ws);
      forall j | 0 <= j < |users| ensures DefaultOf(ws, users[j]) == Some(next + 2 * j) { FreshDefault(next, users, j); }
    }
  }

  // ---------------------------------------------------------------- which failure is reported

  /** The first user who is blocked. */
  lemma {:induction false} BootstrapFailure(a: Accounts, users: seq<string>) returns (k: nat)
    requires Distinct(users) && Bootstrap(a, users).Raised?
    ensures k < |users| && Blocked(a.workspaces, users[k]) && Bootstrap(a, users) == Raised(UniqueViolation(users[k]))
    ensures forall j :: 0 <= j < k ==> !Blocked(a.workspaces, users[j])
  {
    var earlier, last := users[..|users| - 1], users[|users| - 1];
    if Bootstrap(a, earlier).Raised? {
      k := BootstrapFailure(a, earlier);
    } else {
      k := |earlier|;
      SucceedsUnlessBlocked(a, earlier);
      assert last !in earlier;
      BootstrapOne(a, earlier, last);
      forall j | 0 <= j < k ensures !Blocked(a.workspaces, users[j]) { assert earlier[j] in earlier; }
    }
  }

  /** The first top-level table without an owner column. */
  lemma {:induction false} TargetsFailure(inventory: seq<Entry>) returns (k: nat)
    requires Targets(inventory).Raised?
    ensures k < |inventory| && TopLevel(inventory[k]) && Targets(inventory) == Raised(NoOwnerColumn(inventory[k].table))
    ensures inventory[k].ownerColumn == None || inventory[k].ownerColumn == Some("")
    ensures Targets(inventory[..k]).Done?
  {
    var n := |inventory| - 1;
    if Targets(inventory[..n]).Raised? {
      k := TargetsFailure(inventory[..n]);
      assert inventory[..n][..k] == inventory[..k];
    } else {
      k := n;
    }
  }

  /** The first target that is not ready: its table is missing, or the owner column is. */
  lemma {:induction false} PrepareFailure(db: Tables, ts: seq<Target>) returns (k: nat)
    requires DistinctTables(ts) && Prepare(db, ts).Raised?
    ensures k < |ts| && !Ready(db, ts[k]) && forall j :: 0 <= j < k ==> Ready(db, ts[j])
    ensures Prepare(db, ts) == Raised(if ts[k].table in db then OwnerColumnMissing(ts[k].table) else NoSuchTable(ts[k].table))
  {
    var earlier := ts[..|ts| - 1];
    assert forall j :: 0 <= j < |earlier| ==> earlier[j] == ts[j];
    if Prepare(db, earlier).Raised? {
      k := PrepareFailure(db, earlier);
    } else {
      k := |earlier|;
      PrepareExactly(db, earlier);
      assert !HasTarget(earlier, ts[k].table);
    }
  }

  /** The first target with a NULL left, and how many it has. */
  lemma {:induction false} CheckFailure(db: Tables, ts: seq<Target>) returns (k: nat)
    requires DistinctTables(ts) && (forall j :: 0 <= j < |ts| ==> ts[j].table in db) && Check(db, ts).Raised?
    ensures k < |ts| && forall j :: 0 <= j < k ==> NoNulls(db[ts[j].table])
    ensures Check(db, ts) == Raised(NullsRemain(ts[k].table, |Nulls(db[ts[k].table].rows)|))
    ensures |Nulls(db[ts[k].table].rows)| > 0
  {
    var earlier := ts[..|ts| - 1];
    assert forall j :: 0 <= j < |earlier| ==> earlier[j] == ts[j];
    if Check(db, earlier).Raised? {
      k := CheckFailure(db, earlier);
    } else {
      k := |earlier|;
      CheckExactly(db, earlier);
      assert !HasTarget(earlier, ts[k].table);
      NullCountCounts(db[ts[k].table].rows);
    }
  }

  // ---------------------------------------------------------------- the migrations

  class Database {
    var users: seq<string>
    var accounts: Accounts
    var tables: Tables

    constructor (users: seq<string>, accounts: Accounts, tables: Tables)
      ensures this.users == users && this.accounts == accounts && this.tables == tables
    {
      this.users, this.accounts, this.tables := users, accounts, tables;
    }

    /** The data part of the workspace foundation. */
    method BootstrapWorkspaces() returns (failure: Option<Failure>)
      modifies this`accounts
      ensures match Bootstrap(old(accounts), users)
              case Done(a) => failure == None && accounts == a
              case Raised(f) => failure == Some(f) && accounts == old(accounts)
    {
      var before := accounts;
      var i := 0;
      while i < |users|
        invariant i <= |users| && Bootstrap(before, users[..i]) == Done(accounts)
      {
        var user := users[i];
        assert users[..i + 1][..i] == users[..i];
        var existing := DefaultOf(accounts.workspaces, user);
        if existing.None? {
          if SlugTaken(accounts.workspaces, user) {
            BootstrapRaises(before, users, i + 1);
            accounts := before;
            return Some(UniqueViolation(user));
          }
          var workspace := NewWorkspace(accounts, user);
          var membership := NewMembership(accounts, user);
          accounts := Accounts(accounts.workspaces + [workspace], accounts.memberships + [membership], accounts.next + 2);
        }
        i := i + 1;
      }
      assert users[..i] == users;
      failure := None;
    }

    /** The data part of the `workspace_id` upgrade. */
    method UpgradeWorkspaceIds(inventory: seq<Entry>) returns (failure: Option<Failure>)
      modifies this`tables
      ensures match Upgrade(old(tables), inventory, accounts.workspaces)
              case Done(d) => failure == None && tables == d
              case Raised(f) => failure == Some(f) && tables == old(tables)
    {
      var before := tables;
      var targets := WorkspaceFkTargets(inventory);
      if targets.Raised? { return Some(targets.failure); }
      failure := AddColumns(targets.value);
      if failure.Some? {
        tables := before;
        return;
      }
      RunUpdates(targets.value);
      failure := AssertNoNulls(targets.value);
      if failure.Some? { tables := before; }
    }

    method AddColumns(ts: seq<Target>) returns (failure: Option<Failure>)
      modifies this`tables
      ensures match Prepare(old(tables), ts)
              case Done(d) => failure == None && tables == d
              case Raised(f) => failure == Some(f)
    {
      var i := 0;
      while i < |ts|
        invariant i <= |ts| && Prepare(old(tables), ts[..i]) == Done(tables)
      {
        var t := ts[i];
        assert ts[..i + 1][..i] == ts[..i];
        if t.table !in tables || t.ownerColumn !in tables[t.table].columns {
          PrepareRaises(old(tables), ts, i + 1);
          return Some(if t.table !in tables then NoSuchTable(t.table) else OwnerColumnMissing(t.table));
        }
        if WORKSPACE_ID !in tables[t.table].columns {
          tables := tables[t.table := WithColumn(tables[t.table])];
        } else {
          assert tables[t.table].columns + {WORKSPACE_ID} == tables[t.table].columns;
          assert tables[t.table := tables[t.table]] == tables;
        }
        i := i + 1;
      }
      assert ts[..i] == ts;
      failure := None;
    }

    method RunUpdates(ts: seq<Target>)
      modifies this`tables
      ensures tables == Fill(old(tables), ts, accounts.workspaces)
    {
      var i := 0;
      while i < |ts|
        invariant i <= |ts| && tables == Fill(old(tables), ts[..i], accounts.workspaces)
      {
        assert ts[..i + 1][..i] == ts[..i];
        tables := FillTable(tables, ts[i], accounts.workspaces);
        i := i + 1;
      }
      assert ts[..i] == ts;
    }

    method AssertNoNulls(ts: seq<Target>) returns (failure: Option<Failure>)
      modifies this`tables
      ensures match Check(old(tables), ts)
              case Done(d) => failure == None && tables == d
              case Raised(f) => failure == Some(f)
    {
      var i := 0;
      while i < |ts|
        invariant i <= |ts| && Check(old(tables), ts[..i]) == Done(tables)
      {
        var t := ts[i];
        assert ts[..i + 1][..i] == ts[..i];
        if t.table !in tables {
          CheckRaises(old(tables), ts, i + 1);
          return Some(NoSuchTable(t.table));
        }
        var nulls := NullCount(tables[t.table].rows);
        if nulls != 0 {
          CheckRaises(old(tables), ts, i + 1);
          return Some(NullsRemain(t.table, nulls));
        }
        tables := tables[t.table := tables[t.table].(notNull := true)];
        i := i + 1;
      }
      assert ts[..i] == ts;
      failure := None;
    }
  }

  lemma {:induction false} BootstrapRaises(a: Accounts, users: seq<string>, i: nat)
    requires i <= |users| && Bootstrap(a, users[..i]).Raised?
    ensures Bootstrap(a, users) == Bootstrap(a, users[..i])
    decreases |users| - i
  {
    if i == |users| {
      assert users[..i] == users;
    } else {
      assert users[..i + 1][..i] == users[..i];
      BootstrapRaises(a, users, i + 1);
    }
  }

  lemma {:induction false} PrepareRaises(db: Tables, ts: seq<Target>, i: nat)
    requires i <= |ts| && Prepare(db, ts[..i]).Raised?
    ensures Prepare(db, ts) == Prepare(db, ts[..i])
    decreases |ts| - i
  {
    if i == |ts| {
      assert ts[..i] == ts;
    } else {
      assert ts[..i + 1][..i] == ts[..i];
      PrepareRaises(db, ts, i + 1);
    }
  }

  lemma {:induction false} CheckRaises(db: Tables, ts: seq<Target>, i: nat)
    requires i <= |ts| && Check(db, ts[..i]).Raised?
    ensures Check(db, ts) == Check(db, ts[..i])
    decreases |ts| - i
  {
    if i == |ts| {
      assert ts[..i] == ts;
    } else {
      assert ts[..i + 1][..i] == ts[..i];
      CheckRaises(db, ts, i + 1);
    }
  }
}
