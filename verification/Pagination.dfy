/** Cursor pagination over (created_at, id), newest first. */
module Pagination {
  import opened Wrappers

  datatype Row = Row(createdAt: int, id: string)

  // ---------------------------------------------------------------- order

  predicate StrLess(a: string, b: string) {
    if b == "" then false
    else if a == "" then true
    else a[0] < b[0] || (a[0] == b[0] && StrLess(a[1..], b[1..]))
  }

  lemma {:induction false} StrLessTotal(a: string, b: string)
    ensures StrLess(a, b) || a == b || StrLess(b, a)
    ensures !(StrLess(a, b) && StrLess(b, a)) && !StrLess(a, a)
  {
    if a != "" {
      StrLessTotal(a[1..], a[1..]);
      if b != "" {
        StrLessTotal(a[1..], b[1..]);
        assert a == [a[0]] + a[1..] && b == [b[0]] + b[1..];
      }
    }
  }

  lemma {:induction false} StrLessTransitive(a: string, b: string, c: string)
    requires StrLess(a, b) && StrLess(b, c)
    ensures StrLess(a, c)
  {
    if a != "" && a[0] == b[0] == c[0] { StrLessTransitive(a[1..], b[1..], c[1..]); }
  }

  /** Tuple comparison. */
  predicate Less(r: Row, s: Row) {
    r.createdAt < s.createdAt || (r.createdAt == s.createdAt && StrLess(r.id, s.id))
  }

  lemma LessTotal(r: Row, s: Row)
    ensures Less(r, s) || r == s || Less(s, r)
    ensures !(Less(r, s) && Less(s, r)) && !Less(r, r)
  {
    StrLessTotal(r.id, s.id);
    StrLessTotal(r.id, r.id);
  }

  lemma LessTransitive(r: Row, s: Row, t: Row)
    requires Less(r, s) && Less(s, t)
    ensures Less(r, t)
  {
    if r.createdAt == s.createdAt == t.createdAt { StrLessTransitive(r.id, s.id, t.id); }
  }

  // The two orders are stated through a predicate on positions, so that a proof looks only at the
  // pairs it names.

  ghost predicate NotBefore(rows: seq<Row>, i: nat, j: nat) {
    i < j < |rows| ==> !Less(rows[i], rows[j])
  }

  ghost predicate Behind(rows: seq<Row>, i: nat, j: nat) {
    i < j < |rows| ==> Less(rows[j], rows[i])
  }

  ghost predicate Descending(rows: seq<Row>) { forall i: nat, j: nat :: NotBefore(rows, i, j) }

  ghost predicate StrictlyDescending(rows: seq<Row>) { forall i: nat, j: nat :: Behind(rows, i, j) }

  lemma SuffixDescending(rows: seq<Row>, k: nat)
    requires k <= |rows|
    ensures Descending(rows) ==> Descending(rows[k..])
    ensures StrictlyDescending(rows) ==> StrictlyDescending(rows[k..])
  {
    if Descending(rows) {
      forall i: nat, j: nat ensures NotBefore(rows[k..], i, j) { assert NotBefore(rows, k + i, k + j); }
    }
    if StrictlyDescending(rows) {
      forall i: nat, j: nat ensures Behind(rows[k..], i, j) { assert Behind(rows, k + i, k + j); }
    }
  }

  /** A table as the database returns it: unique non-empty ids, newest first. */
  ghost predicate Table(rows: seq<Row>) {
    StrictlyDescending(rows) && forall r :: r in rows ==> r.id != ""
  }

  function InsertDesc(row: Row, rows: seq<Row>): seq<Row> {
    if rows == [] || !Less(row, rows[0]) then [row] + rows else [rows[0]] + InsertDesc(row, rows[1..])
  }

  function SortDesc(rows: seq<Row>): seq<Row> {
    if rows == [] then [] else InsertDesc(rows[0], SortDesc(rows[1..]))
  }

  /** A row that is not before the head goes in front of all. */
  lemma InFront(row: Row, rows: seq<Row>)
    requires Descending(rows) && (rows == [] || !Less(row, rows[0]))
    ensures Descending([row] + rows)
  {
    forall i: nat, j: nat ensures NotBefore([row] + rows, i, j) {
      if 0 < i < j { assert NotBefore(rows, i - 1, j - 1); }
      else if i == 0 < j <= |rows| && Less(row, rows[j - 1]) {
        assert NotBefore(rows, 0, j - 1);
        LessTotal(rows[0], rows[j - 1]);
        LessTotal(row, rows[0]);
        if row != rows[0] && rows[0] != rows[j - 1] { LessTransitive(row, rows[j - 1], rows[0]); }
      }
    }
  }

  lemma {:induction false} InsertDescSame(row: Row, rows: seq<Row>)
    ensures multiset(InsertDesc(row, rows)) == multiset{row} + multiset(rows)
  {
    if rows != [] && Less(row, rows[0]) {
      InsertDescSame(row, rows[1..]);
      assert rows == [rows[0]] + rows[1..];
    }
  }

  lemma {:induction false} InsertDescSorted(row: Row, rows: seq<Row>)
    requires Descending(rows)
    ensures Descending(InsertDesc(row, rows))
  {
    if rows == [] || !Less(row, rows[0]) {
      InFront(row, rows);
    } else {
      SuffixDescending(rows, 1);
      InsertDescSorted(row, rows[1..]);
      LessTotal(row, rows[0]);
      if |rows| > 1 { assert NotBefore(rows, 0, 1); }
      InFront(rows[0], InsertDesc(row, rows[1..]));
    }
  }

  lemma {:induction false} SortDescSorted(rows: seq<Row>)
    ensures Descending(SortDesc(rows)) && multiset(SortDesc(rows)) == multiset(rows)
  {
    if rows != [] {
      SortDescSorted(rows[1..]);
      InsertDescSorted(rows[0], SortDesc(rows[1..]));
      InsertDescSame(rows[0], SortDesc(rows[1..]));
      assert rows == [rows[0]] + rows[1..];
    }
  }

  // ---------------------------------------------------------------- cursors and pages

  /** The cursor predicate; an empty id counts as absent, as in the source. */
  predicate After(row: Row, cursor: Option<Row>) {
    match cursor
    case None => true
    case Some(c) => if c.id != "" then Less(row, c) else row.createdAt < c.createdAt
  }

  lemma AfterDownward(r: Row, s: Row, cursor: Option<Row>)
    requires After(s, cursor) && !Less(s, r)
    ensures After(r, cursor)
  {
    if cursor.Some? {
      LessTotal(r, s);
      if r != s && cursor.value.id != "" { LessTransitive(r, s, cursor.value); }
    }
  }

  lemma NotAfterItself(r: Row)
    ensures !After(r, Some(r))
  {
    LessTotal(r, r);
  }

  function Filter(rows: seq<Row>, cursor: Option<Row>): seq<Row> {
    if rows == [] then []
    else (if After(rows[0], cursor) then [rows[0]] else []) + Filter(rows[1..], cursor)
  }

  function FetchLimit(limit: int): nat { (if limit > 1 then limit else 1) + 1 }

  function Take(rows: seq<Row>, n: nat): seq<Row> { if |rows| <= n then rows else rows[..n] }

  /** `rows[:limit]`, which counts from the end for a negative limit. */
  function SliceTo(rows: seq<Row>, limit: int): seq<Row> {
    if limit >= 0 then Take(rows, limit) else if |rows| + limit <= 0 then [] else rows[..|rows| + limit]
  }

  /** `IndexError`: the source takes the last row of an empty page. */
  datatype Page = Page(rows: seq<Row>, next: Option<Row>) | IndexError

  function Paginate(rows: seq<Row>, limit: int): Page {
    if |rows| > limit then
      var page := SliceTo(rows, limit);
      if page == [] then IndexError else Page(page, Some(page[|page| - 1]))
    else Page(rows, None)
  }

  /** One fetch: the rows after the cursor, one more than the page needs, cut into a page. */
  function Fetch(rows: seq<Row>, cursor: Option<Row>, limit: int): Page {
    Paginate(Take(Filter(rows, cursor), FetchLimit(limit)), limit)
  }

  lemma PaginateFetched(left: seq<Row>, limit: int)
    requires limit >= 1
    ensures Paginate(Take(left, limit + 1), limit)
            == Page(Take(left, limit), if |left| <= limit then None else Some(left[limit - 1]))
  {
    if |left| > limit + 1 { assert left[..limit + 1][..limit] == left[..limit]; }
  }

  /** A page holds the next `limit` rows, and its cursor is absent exactly when nothing is left. */
  lemma FetchIsNextPage(rows: seq<Row>, cursor: Option<Row>, limit: int)
    requires limit >= 1
    ensures var left := Filter(rows, cursor);
            Fetch(rows, cursor, limit) == Page(Take(left, limit), if |left| <= limit then None else Some(left[limit - 1]))
  {
    PaginateFetched(Filter(rows, cursor), limit);
  }

  // ---------------------------------------------------------------- fixed table

  /** How many rows a descending table has before the rows after the cursor. */
  function Skip(rows: seq<Row>, cursor: Option<Row>): (n: nat)
    ensures n <= |rows|
    ensures forall i :: 0 <= i < n ==> !After(rows[i], cursor)
    ensures n < |rows| ==> After(rows[n], cursor)
  {
    if rows == [] || After(rows[0], cursor) then 0 else 1 + Skip(rows[1..], cursor)
  }

  lemma {:induction false} FilterIsSuffix(rows: seq<Row>, cursor: Option<Row>)
    requires Descending(rows)
    ensures Filter(rows, cursor) == rows[Skip(rows, cursor)..]
  {
    if rows != [] {
      SuffixDescending(rows, 1);
      FilterIsSuffix(rows[1..], cursor);
      if After(rows[0], cursor) {
        if |rows| > 1 {
          assert NotBefore(rows, 0, 1);
          AfterDownward(rows[1], rows[0], cursor);
          assert Skip(rows[1..], cursor) == 0;
        }
        assert rows == [rows[0]] + rows[1..];
      }
    }
  }

  lemma SkipPasses(rows: seq<Row>, k: nat)
    requires Descending(rows) && k < |rows|
    ensures k < Skip(rows, Some(rows[k]))
    ensures Skip(rows, Some(rows[k])) == k + 1 <==> (k + 1 == |rows| || After(rows[k + 1], Some(rows[k])))
  {
    var n := Skip(rows, Some(rows[k]));
    NotAfterItself(rows[k]);
    if n < k {
      assert NotBefore(rows, n, k);
      AfterDownward(rows[k], rows[n], Some(rows[k]));
    }
  }

  function Joined(pages: seq<seq<Row>>, rest: Option<seq<seq<Row>>>): Option<seq<seq<Row>>> {
    if rest.None? then None else Some(pages + rest.value)
  }

  lemma JoinedStep(pages: seq<seq<Row>>, page: seq<Row>, rest: Option<seq<seq<Row>>>)
    ensures Joined(pages, Joined([page], rest)) == Joined(pages + [page], rest)
  {
    if rest.Some? { assert pages + ([page] + rest.value) == (pages + [page]) + rest.value; }
  }

  function PageAt(rows: seq<Row>, limit: int, k: nat): Page
    requires k <= |rows|
  {
    Paginate(Take(rows[k..], FetchLimit(limit)), limit)
  }

  lemma NextIsPassed(rows: seq<Row>, limit: int, k: nat)
    requires Descending(rows) && k <= |rows|
    ensures var p := PageAt(rows, limit, k); p.Page? && p.next.Some? ==> k < Skip(rows, p.next)
  {
    var p := PageAt(rows, limit, k);
    if p.Page? && p.next.Some? {
      assert p.rows == rows[k..][..|p.rows|];
      SkipPasses(rows, k + |p.rows| - 1);
    }
  }

  /** The pages the walk still produces once it has passed the first `k` rows; `None` where the
      source raises. */
  function WalkFrom(rows: seq<Row>, limit: int, k: nat): Option<seq<seq<Row>>>
    requires Descending(rows) && k <= |rows|
    decreases |rows| - k
  {
    NextIsPassed(rows, limit, k);
    match PageAt(rows, limit, k)
    case IndexError => None
    case Page(page, next) =>
      if page == [] then Some([])
      else if next.None? then Some([page])
      else Joined([page], WalkFrom(rows, limit, Skip(rows, next)))
  }

  lemma FetchIsPageAt(rows: seq<Row>, limit: int, cursor: Option<Row>)
    requires Descending(rows)
    ensures Fetch(rows, cursor, limit) == PageAt(rows, limit, Skip(rows, cursor))
  {
    FilterIsSuffix(rows, cursor);
  }

  /** The loop of the source, over a table sorted newest first. */
  method SimulateDescTimeIdPages(rows: seq<Row>, limit: int) returns (pages: Option<seq<seq<Row>>>)
    ensures Descending(SortDesc(rows)) && pages == WalkFrom(SortDesc(rows), limit, 0)
  {
    SortDescSorted(rows);
    var entities := SortDesc(rows);
    var acc: seq<seq<Row>> := [];
    var cursor: Option<Row> := None;
    ghost var whole := WalkFrom(entities, limit, 0);
    assert Skip(entities, None) == 0;
    assert whole.Some? ==> acc + whole.value == whole.value;
    while true
      invariant Joined(acc, WalkFrom(entities, limit, Skip(entities, cursor))) == whole
      decreases |entities| - Skip(entities, cursor)
    {
      FetchIsPageAt(entities, limit, cursor);
      NextIsPassed(entities, limit, Skip(entities, cursor));
      match Fetch(entities, cursor, limit)
      case IndexError =>
        return None;
      case Page(page, next) =>
        if page == [] {
          assert acc + [] == acc;
          return Some(acc);
        }
        JoinedStep(acc, page, WalkFrom(entities, limit, Skip(entities, next)));
        acc := acc + [page];
        if next.None? {
          return Some(acc);
        }
        cursor := next;
    }
  }

  function Flatten(pages: seq<seq<Row>>): seq<Row> {
    if pages == [] then [] else pages[0] + Flatten(pages[1..])
  }

  /** A cursor taken from `r` tells `r` and the row `s` behind it apart. */
  predicate ToldApart(r: Row, s: Row) { s.createdAt < r.createdAt || (r.id != "" && r != s) }

  lemma ToldApartIsAfter(r: Row, s: Row)
    requires !Less(r, s)
    ensures After(s, Some(r)) <==> ToldApart(r, s)
  {
    LessTotal(r, s);
  }

  /** Every place where the walk cuts a page, counting from row `k`: the cursor tells the rows on
      both sides apart. */
  ghost predicate CutsClean(rows: seq<Row>, limit: nat, k: nat)
    requires limit >= 1
    decreases |rows| - k
  {
    k + limit < |rows| ==>
      ToldApart(rows[k + limit - 1], rows[k + limit]) && CutsClean(rows, limit, k + limit)
  }

  ghost predicate PageSizesOk(pages: seq<seq<Row>>, limit: nat) {
    forall i :: 0 <= i < |pages| ==> 1 <= |pages[i]| <= limit && (i < |pages| - 1 ==> |pages[i]| == limit)
  }

  /** The walk with a positive limit, one page at a time. */
  lemma FullPage(rows: seq<Row>, limit: nat, k: nat)
    requires Descending(rows) && k <= |rows| && limit >= 1
    ensures PageAt(rows, limit, k) ==
              if k + limit >= |rows| then Page(rows[k..], None)
              else Page(rows[k..k + limit], Some(rows[k + limit - 1]))
  {
    if k + limit < |rows| { assert rows[k..][..limit + 1][..limit] == rows[k..k + limit]; }
  }

  /** A page followed by what the rest of the walk flattens to, against the rows from `k` on. */
  lemma CoverStep(rows: seq<Row>, limit: nat, k: nat, next: nat, rest: seq<Row>, clean: bool)
    requires k + limit <= next <= |rows| && |rest| <= |rows| - next
    requires next == k + limit ==> (rest == rows[next..] <==> clean)
    ensures rows[k..k + limit] + rest == rows[k..] <==> next == k + limit && clean
  {
    var page := rows[k..k + limit];
    assert rows[k..] == page + rows[k + limit..];
    if page + rest == rows[k..] {
      assert rest == (page + rest)[limit..] == rows[k..][limit..] == rows[k + limit..];
    }
  }

  lemma FlattenJoined(page: seq<Row>, rest: seq<seq<Row>>, limit: nat)
    requires limit >= 1 && |page| == limit && PageSizesOk(rest, limit)
    ensures Flatten([page] + rest) == page + Flatten(rest) && PageSizesOk([page] + rest, limit)
  {
    assert ([page] + rest)[1..] == rest;
  }

  /** Pages of the rows from `k` on: well sized, nothing twice, all of them iff every cut is clean. */
  ghost predicate Covered(rows: seq<Row>, limit: nat, k: nat, pages: seq<seq<Row>>)
    requires k <= |rows| && limit >= 1
  {
    && PageSizesOk(pages, limit)
    && |Flatten(pages)| <= |rows| - k
    && (Flatten(pages) == rows[k..] <==> CutsClean(rows, limit, k))
  }

  /** A cut is clean when the next fetch starts right behind it. */
  lemma CutsCleanStep(rows: seq<Row>, limit: nat, k: nat, next: nat)
    requires Descending(rows) && limit >= 1 && k + limit < |rows| && next == Skip(rows, Some(rows[k + limit - 1]))
    ensures k + limit <= next <= |rows|
    ensures CutsClean(rows, limit, k) <==> next == k + limit && CutsClean(rows, limit, next)
  {
    SkipPasses(rows, k + limit - 1);
    assert NotBefore(rows, k + limit - 1, k + limit);
    ToldApartIsAfter(rows[k + limit - 1], rows[k + limit]);
  }

  lemma CoveredStep(rows: seq<Row>, limit: nat, k: nat, rest: seq<seq<Row>>)
    requires Descending(rows) && limit >= 1 && k + limit < |rows|
    requires Covered(rows, limit, Skip(rows, Some(rows[k + limit - 1])), rest)
    ensures Covered(rows, limit, k, [rows[k..k + limit]] + rest)
  {
    var next := Skip(rows, Some(rows[k + limit - 1]));
    var page, clean := rows[k..k + limit], CutsClean(rows, limit, next);
    CutsCleanStep(rows, limit, k, next);
    FlattenJoined(page, rest, limit);
    CoverStep(rows, limit, k, next, Flatten(rest), clean);
    assert |page + Flatten(rest)| <= |rows| - k;
  }

  lemma {:induction false} WalkFromCovers(rows: seq<Row>, limit: nat, k: nat)
    requires Descending(rows) && k <= |rows| && limit >= 1
    ensures WalkFrom(rows, limit, k).Some? && Covered(rows, limit, k, WalkFrom(rows, limit, k).value)
    decreases |rows| - k
  {
    FullPage(rows, limit, k);
    if k + limit >= |rows| {
      FlattenOne(rows[k..]);
    } else {
      SkipPasses(rows, k + limit - 1);
      var next := Skip(rows, Some(rows[k + limit - 1]));
      WalkFromCovers(rows, limit, next);
      CoveredStep(rows, limit, k, WalkFrom(rows, limit, next).value);
    }
  }

  lemma FlattenOne(page: seq<Row>)
    ensures Flatten([page]) == page && Flatten([]) == []
  {
    var pages := [page];
    assert pages[1..] == [];
  }

  /** With a positive limit the walk ends without an error in pages that are full except perhaps
      the last, and together they are the whole table in order exactly when no page is cut between
      two rows the cursor cannot tell apart: equal ones, or rows of one time of which the first has
      an empty id. */
  lemma WalkIsScanExactlyWhenCutsClean(rows: seq<Row>, limit: nat)
    requires limit >= 1
    ensures Descending(SortDesc(rows))
    ensures var pages := WalkFrom(SortDesc(rows), limit, 0);
            && pages.Some? && PageSizesOk(pages.value, limit)
            && (Flatten(pages.value) == SortDesc(rows) <==> CutsClean(SortDesc(rows), limit, 0))
  {
    SortDescSorted(rows);
    WalkFromCovers(SortDesc(rows), limit, 0);
    assert SortDesc(rows)[0..] == SortDesc(rows);
  }

  ghost predicate UniqueRows(rows: seq<Row>) {
    && (forall r :: r in rows ==> r.id != "")
    && (forall r :: r in rows ==> multiset(rows)[r] == 1)
  }

  lemma TwiceCounted(rows: seq<Row>, i: nat, j: nat)
    requires i < j < |rows| && rows[i] == rows[j]
    ensures multiset(rows)[rows[i]] >= 2
  {
    assert rows == rows[..j] + rows[j..];
    assert rows[i] in rows[..j] && rows[j] in rows[j..];
  }

  lemma UniqueIsStrict(rows: seq<Row>)
    requires UniqueRows(rows)
    ensures Table(SortDesc(rows))
  {
    SortDescSorted(rows);
    var sorted := SortDesc(rows);
    forall r | r in sorted ensures r in rows { assert r in multiset(sorted); }
    forall i: nat, j: nat ensures Behind(sorted, i, j) {
      if i < j < |sorted| {
        assert NotBefore(sorted, i, j);
        LessTotal(sorted[i], sorted[j]);
        if sorted[i] == sorted[j] {
          TwiceCounted(sorted, i, j);
        }
      }
    }
  }

  lemma {:induction false} StrictCutsClean(rows: seq<Row>, limit: nat, k: nat)
    requires limit >= 1 && Table(rows)
    ensures CutsClean(rows, limit, k)
    decreases |rows| - k
  {
    if k + limit < |rows| {
      assert rows[k + limit - 1] in rows;
      assert Behind(rows, k + limit - 1, k + limit);
      LessTotal(rows[k + limit - 1], rows[k + limit]);
      StrictCutsClean(rows, limit, k + limit);
    }
  }

  /** No duplicates, no skips: unique non-empty ids make the walk the sorted scan. */
  lemma WalkIsScan(rows: seq<Row>, limit: nat)
    requires limit >= 1 && UniqueRows(rows)
    ensures Descending(SortDesc(rows))
    ensures WalkFrom(SortDesc(rows), limit, 0).Some?
    ensures Flatten(WalkFrom(SortDesc(rows), limit, 0).value) == SortDesc(rows)
  {
    UniqueIsStrict(rows);
    StrictCutsClean(SortDesc(rows), limit, 0);
    WalkIsScanExactlyWhenCutsClean(rows, limit);
  }

  lemma {:induction false} NonPositiveLimitRaises(rows: seq<Row>, limit: int, k: nat)
    requires limit <= 0 && Descending(rows) && k <= |rows|
    ensures WalkFrom(rows, limit, k).Some? <==> limit == 0 && k == |rows|
    decreases |rows| - k
  {
    var fetched := Take(rows[k..], 2);
    if limit == -1 && |fetched| == 2 {
      var page := SliceTo(fetched, limit);
      assert page == [rows[k]];
      SkipPasses(rows, k);
      NonPositiveLimitRaises(rows, limit, Skip(rows, Some(rows[k])));
    }
  }

  /** The walk raises no error exactly for a positive limit, or limit 0 on an empty table. */
  lemma WalkSucceedsExactly(rows: seq<Row>, limit: int)
    ensures Descending(SortDesc(rows))
    ensures WalkFrom(SortDesc(rows), limit, 0).Some? <==> limit >= 1 || (limit == 0 && rows == [])
  {
    SortDescSorted(rows);
    if limit >= 1 { WalkFromCovers(SortDesc(rows), limit, 0); }
    else {
      NonPositiveLimitRaises(SortDesc(rows), limit, 0);
      assert |SortDesc(rows)| == |multiset(SortDesc(rows))| == |multiset(rows)| == |rows|;
    }
  }

  // ---------------------------------------------------------------- changing table

  /** Rows emitted by a walk over one table per fetch, whether it reached the end, and how many
      fetches it made. */
  datatype Walked = Walked(rows: seq<Row>, complete: bool, fetches: nat)

  function WalkChanging(tables: seq<seq<Row>>, limit: nat, cursor: Option<Row>): Walked
    requires limit >= 1
  {
    if tables == [] then Walked([], false, 0)
    else
      FetchIsNextPage(tables[0], cursor, limit);
      var p := Fetch(tables[0], cursor, limit);
      if p.next.None? then Walked(p.rows, true, 1)
      else
        var rest := WalkChanging(tables[1..], limit, p.next);
        Walked(p.rows + rest.rows, rest.complete, rest.fetches + 1)
  }

  lemma {:induction false} FilterMembers(rows: seq<Row>, cursor: Option<Row>)
    ensures forall r :: r in Filter(rows, cursor) <==> r in rows && After(r, cursor)
  {
    if rows != [] { FilterMembers(rows[1..], cursor); }
  }

  lemma StrictIsDescending(rows: seq<Row>)
    requires StrictlyDescending(rows)
    ensures Descending(rows)
  {
    forall i: nat, j: nat ensures NotBefore(rows, i, j) {
      assert Behind(rows, i, j);
      if i < j < |rows| { LessTotal(rows[i], rows[j]); }
    }
  }

  lemma PageOf(left: seq<Row>, limit: nat)
    requires limit >= 1 && StrictlyDescending(left)
    ensures StrictlyDescending(Take(left, limit))
    ensures forall r :: r in Take(left, limit) ==> r in left
    ensures |left| > limit ==> forall r :: r in left ==> r in Take(left, limit) || Less(r, left[limit - 1])
  {
    forall i: nat, j: nat ensures Behind(Take(left, limit), i, j) { assert Behind(left, i, j); }
    if |left| > limit {
      var page := Take(left, limit);
      forall r | r in left ensures r in page || Less(r, left[limit - 1]) {
        var i :| 0 <= i < |left| && left[i] == r;
        if i < limit { assert page[i] == r; } else { assert Behind(left, limit - 1, i); }
      }
    }
  }

  /** One fetch from a table: rows strictly after the cursor, newest first, and whatever of the
      table is not on the page lies strictly behind its last row. */
  lemma FetchFacts(rows: seq<Row>, cursor: Option<Row>, limit: nat)
    requires limit >= 1 && Table(rows)
    ensures var p := Fetch(rows, cursor, limit);
            && p.Page? && StrictlyDescending(p.rows)
            && (forall r :: r in p.rows ==> r in rows && After(r, cursor) && r.id != "")
            && (p.next.Some? ==> p.rows != [] && p.next == Some(p.rows[|p.rows| - 1]))
            && (forall r :: r in rows && After(r, cursor) ==> r in p.rows || (p.next.Some? && Less(r, p.next.value)))
  {
    FetchIsNextPage(rows, cursor, limit);
    StrictIsDescending(rows);
    FilterIsSuffix(rows, cursor);
    SuffixDescending(rows, Skip(rows, cursor));
    FilterMembers(rows, cursor);
    PageOf(Filter(rows, cursor), limit);
  }

  /** `r` was fetched at one of the first `n` fetches. */
  ghost predicate SeenAt(r: Row, tables: seq<seq<Row>>, n: nat)
    requires n <= |tables|
  {
    exists i :: 0 <= i < n && r in tables[i]
  }

  /** `r` was there at each of the first `n` fetches. */
  ghost predicate Stayed(r: Row, tables: seq<seq<Row>>, n: nat)
    requires n <= |tables|
  {
    forall i :: 0 <= i < n ==> r in tables[i]
  }

  ghost predicate WalkOk(tables: seq<seq<Row>>, cursor: Option<Row>, w: Walked) {
    && w.fetches <= |tables|
    && StrictlyDescending(w.rows)
    && (forall r :: r in w.rows ==> After(r, cursor) && SeenAt(r, tables, w.fetches))
    && (w.complete ==> forall r :: After(r, cursor) && Stayed(r, tables, w.fetches) && w.fetches > 0 ==> r in w.rows)
  }

  /** While rows come and go between fetches: what is emitted is strictly descending, so no row
      appears twice; it came from the fetched tables; and a completed walk emitted every row that
      was there at every fetch. */
  lemma {:induction false} ChangingWalk(tables: seq<seq<Row>>, limit: nat, cursor: Option<Row>)
    requires limit >= 1 && (forall i :: 0 <= i < |tables| ==> Table(tables[i]))
    requires cursor.Some? ==> cursor.value.id != ""
    ensures WalkOk(tables, cursor, WalkChanging(tables, limit, cursor))
    ensures WalkChanging(tables, limit, cursor).complete ==> WalkChanging(tables, limit, cursor).fetches > 0
  {
    if tables != [] {
      FetchFacts(tables[0], cursor, limit);
      var p := Fetch(tables[0], cursor, limit);
      if p.next.Some? {
        var last := p.rows[|p.rows| - 1];
        assert last in p.rows;
        ChangingWalk(tables[1..], limit, p.next);
        ChangingWalkStep(tables, p, WalkChanging(tables[1..], limit, p.next), cursor);
      } else {
        LastPage(tables, p.rows, cursor);
      }
    }
  }

  lemma LastPage(tables: seq<seq<Row>>, rows: seq<Row>, cursor: Option<Row>)
    requires tables != [] && StrictlyDescending(rows)
    requires forall r :: r in rows <==> r in tables[0] && After(r, cursor)
    ensures WalkOk(tables, cursor, Walked(rows, true, 1))
  {
    forall r | r in rows ensures SeenAt(r, tables, 1) { assert r in tables[0]; }
    forall r | Stayed(r, tables, 1) ensures r in tables[0] {}
  }

  lemma BehindLast(p: Page, rows: seq<Row>, cursor: Option<Row>)
    requires p.Page? && p.rows != [] && p.next == Some(p.rows[|p.rows| - 1])
    requires forall r :: r in p.rows ==> After(r, cursor) && r.id != ""
    requires StrictlyDescending(p.rows) && StrictlyDescending(rows)
    requires forall r :: r in rows ==> After(r, p.next)
    ensures StrictlyDescending(p.rows + rows) && forall r :: r in rows ==> After(r, cursor)
  {
    var last := p.rows[|p.rows| - 1];
    assert last in p.rows;
    forall r | r in rows ensures Less(r, last) && After(r, cursor) {
      LessTotal(r, last);
      AfterDownward(r, last, cursor);
    }
    var all := p.rows + rows;
    var n := |p.rows|;
    forall i: nat, j: nat ensures Behind(all, i, j) {
      if i < j < n { assert Behind(p.rows, i, j); }
      else if n <= i < j { assert Behind(rows, i - n, j - n); }
      else if i < n <= j < |all| {
        assert all[j] in rows;
        if i < n - 1 {
          assert Behind(p.rows, i, n - 1);
          LessTransitive(all[j], last, all[i]);
        }
      }
    }
  }

  lemma ChangingWalkStep(tables: seq<seq<Row>>, p: Page, rest: Walked, cursor: Option<Row>)
    requires tables != [] && p.Page? && p.rows != [] && p.next == Some(p.rows[|p.rows| - 1])
    requires StrictlyDescending(p.rows) && WalkOk(tables[1..], p.next, rest) && (rest.complete ==> rest.fetches > 0)
    requires forall r :: r in p.rows ==> r in tables[0] && After(r, cursor) && r.id != ""
    requires forall r :: r in tables[0] && After(r, cursor) ==> r in p.rows || Less(r, p.next.value)
    ensures WalkOk(tables, cursor, Walked(p.rows + rest.rows, rest.complete, rest.fetches + 1))
  {
    BehindLast(p, rest.rows, cursor);
    var w := Walked(p.rows + rest.rows, rest.complete, rest.fetches + 1);
    assert forall i :: 0 <= i < rest.fetches ==> tables[1..][i] == tables[i + 1];
    forall r | r in w.rows ensures After(r, cursor) && SeenAt(r, tables, w.fetches) {
      if r in p.rows { assert r in tables[0]; }
      else {
        assert SeenAt(r, tables[1..], rest.fetches);
        var i :| 0 <= i < rest.fetches && r in tables[1..][i];
        assert r in tables[i + 1];
      }
    }
    if rest.complete {
      forall r | After(r, cursor) && Stayed(r, tables, w.fetches) ensures r in w.rows {
        assert r in tables[0];
        assert Stayed(r, tables[1..], rest.fetches);
        assert p.rows[|p.rows| - 1] in p.rows;
      }
    }
  }

  // ---------------------------------------------------------------- newest first, spelled out

  /** In dictionary order `a` is above `b`: `b` is a proper prefix of `a`, or at the first place where
      they differ `a` has the larger character. */
  ghost predicate IdAbove(a: string, b: string) {
    || (b < a)
    || exists p: nat :: DiffersAt(a, b, p) && a[p] > b[p]
  }

  ghost predicate DiffersAt(a: string, b: string, p: nat) {
    p < |a| && p < |b| && a[..p] == b[..p] && a[p] != b[p]
  }

  ghost predicate Newer(r: Row, s: Row) {
    r.createdAt > s.createdAt || (r.createdAt == s.createdAt && IdAbove(r.id, s.id))
  }

  lemma DiffersLater(a: string, b: string, p: nat)
    requires a != "" && b != "" && a[0] == b[0]
    ensures DiffersAt(a, b, p + 1) <==> DiffersAt(a[1..], b[1..], p)
  {
    if p + 1 <= |a| && p + 1 <= |b| {
      assert a[..p + 1] == [a[0]] + a[1..][..p] && b[..p + 1] == [b[0]] + b[1..][..p];
      assert a[1..][..p] == a[..p + 1][1..] && b[1..][..p] == b[..p + 1][1..];
    }
  }

  lemma AboveLater(a: string, b: string)
    requires a != "" && b != "" && a[0] == b[0]
    ensures IdAbove(a, b) <==> IdAbove(a[1..], b[1..])
  {
    assert a == [a[0]] + a[1..] && b == [b[0]] + b[1..];
    if p: nat :| DiffersAt(a, b, p) && a[p] > b[p] {
      DiffersLater(a, b, p - 1);
    }
    if q: nat :| DiffersAt(a[1..], b[1..], q) && a[1..][q] > b[1..][q] {
      DiffersLater(a, b, q);
    }
  }

  /** The recursive comparison is dictionary order. */
  lemma {:induction false} StrLessIsDictionaryOrder(a: string, b: string)
    ensures StrLess(b, a) <==> IdAbove(a, b)
  {
    if a != "" && b != "" {
      if a[0] == b[0] {
        StrLessIsDictionaryOrder(a[1..], b[1..]);
        AboveLater(a, b);
      } else {
        assert a[..0] == b[..0];
        assert DiffersAt(a, b, 0);
        forall p: nat ensures DiffersAt(a, b, p) ==> p == 0 { assert p > 0 && p < |a| && p < |b| ==> a[..p][0] != b[..p][0]; }
      }
    }
  }

  lemma LessIsOlder(r: Row, s: Row)
    ensures Less(s, r) <==> Newer(r, s)
  {
    StrLessIsDictionaryOrder(r.id, s.id);
  }

  /** Row `j` is as new as row `i` at most; ids decide between rows of one time. */
  ghost predicate NewestFirst(rows: seq<Row>) {
    forall i, j :: 0 <= i < j < |rows| ==> Newer(rows[i], rows[j]) || rows[i] == rows[j]
  }

  ghost predicate StrictlyNewestFirst(rows: seq<Row>) {
    forall i, j :: 0 <= i < j < |rows| ==> Newer(rows[i], rows[j])
  }

  lemma DescendingIsNewestFirst(rows: seq<Row>)
    ensures Descending(rows) <==> NewestFirst(rows)
    ensures StrictlyDescending(rows) <==> StrictlyNewestFirst(rows)
  {
    forall i: nat, j: nat ensures NotBefore(rows, i, j) <==> (i < j < |rows| ==> Newer(rows[i], rows[j]) || rows[i] == rows[j]) {
      if i < j < |rows| {
        LessTotal(rows[i], rows[j]);
        LessIsOlder(rows[i], rows[j]);
      }
    }
    forall i: nat, j: nat ensures Behind(rows, i, j) <==> (i < j < |rows| ==> Newer(rows[i], rows[j])) {
      if i < j < |rows| { LessIsOlder(rows[i], rows[j]); }
    }
  }

  /** What the walk scans: the rows by falling time, and those of one time by falling id. */
  lemma ScanIsNewestFirst(rows: seq<Row>)
    ensures NewestFirst(SortDesc(rows)) && multiset(SortDesc(rows)) == multiset(rows)
  {
    SortDescSorted(rows);
    DescendingIsNewestFirst(SortDesc(rows));
  }

  /** With unique non-empty ids the walk emits every row once, strictly newest first. */
  lemma WalkIsNewestFirst(rows: seq<Row>, limit: nat)
    requires limit >= 1 && UniqueRows(rows)
    ensures Descending(SortDesc(rows)) && WalkFrom(SortDesc(rows), limit, 0).Some?
    ensures var emitted := Flatten(WalkFrom(SortDesc(rows), limit, 0).value);
            StrictlyNewestFirst(emitted) && multiset(emitted) == multiset(rows)
  {
    WalkIsScan(rows, limit);
    UniqueIsStrict(rows);
    DescendingIsNewestFirst(SortDesc(rows));
    SortDescSorted(rows);
  }

  /** One page of a table: rows older than the cursor, strictly newest first, and every other row
      older than the cursor is older than the last row of the page, which is the next cursor. */
  lemma PageIsNewestFirst(rows: seq<Row>, cursor: Option<Row>, limit: nat)
    requires limit >= 1 && Table(rows) && (cursor.Some? ==> cursor.value.id != "")
    ensures var p := Fetch(rows, cursor, limit);
            && p.Page? && StrictlyNewestFirst(p.rows)
            && (forall r :: r in p.rows ==> r in rows && (cursor.Some? ==> Newer(cursor.value, r)))
            && (forall r :: r in rows && (cursor.Some? ==> Newer(cursor.value, r)) ==>
                  r in p.rows || (p.next.Some? && p.next.value in p.rows && Newer(p.next.value, r)))
  {
    FetchFacts(rows, cursor, limit);
    var p := Fetch(rows, cursor, limit);
    DescendingIsNewestFirst(p.rows);
    forall r ensures cursor.Some? ==> (After(r, cursor) <==> Newer(cursor.value, r)) {
      if cursor.Some? { LessIsOlder(cursor.value, r); }
    }
    if p.next.Some? {
      forall r ensures Less(r, p.next.value) <==> Newer(p.next.value, r) { LessIsOlder(p.next.value, r); }
    }
  }

  /** A walk over a changing table emits rows strictly newest first, too. */
  lemma ChangingWalkIsNewestFirst(tables: seq<seq<Row>>, limit: nat, cursor: Option<Row>)
    requires limit >= 1 && (forall i :: 0 <= i < |tables| ==> Table(tables[i]))
    requires cursor.Some? ==> cursor.value.id != ""
    ensures StrictlyNewestFirst(WalkChanging(tables, limit, cursor).rows)
  {
    ChangingWalk(tables, limit, cursor);
    DescendingIsNewestFirst(WalkChanging(tables, limit, cursor).rows);
  }
}
