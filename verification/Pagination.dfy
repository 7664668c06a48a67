/**
 * Cursor pagination (framework/crud.py:205-244): pages are read with a keyset condition taken
 * from the last row of the page before, while the table may change between two requests.
 * A table is the set of its rows; `keep` stands for the tenant, soft-delete and filter clauses.
 */
module Pagination {
  import opened CursorCodec
  import Text

  datatype Row = Row(cursor: Key, pk: Key, data: int)

  /** byKey: cursor_field is unset or names the primary key. */
  datatype Resource = Resource(byKey: bool, defaultLimit: nat, maxLimit: nat)

  datatype Request = Request(cursor: Option<string>, limit: Option<int>, offsetOrSort: bool)

  datatype Reply = Refused | Page(items: seq<Row>, next: Option<string>, more: bool)

  // ---------------------------------------------------------------- the order of rows

  /** The order of a column: integers as numbers, strings by code point. */
  predicate KeyLess(a: Key, b: Key)
  {
    match (a, b)
    case (Int(i), Int(j)) => i < j
    case (Str(s), Str(t)) => Text.Less(s, t)
    case (Int(_), Str(_)) => true
    case (Str(_), Int(_)) => false
  }

  /** ORDER BY pk, or ORDER BY cursor, pk. */
  predicate Before(byKey: bool, r: Row, s: Row)
  {
    if byKey then KeyLess(r.pk, s.pk)
    else KeyLess(r.cursor, s.cursor) || (r.cursor == s.cursor && KeyLess(r.pk, s.pk))
  }

  /** The WHERE clause a cursor adds. */
  predicate After(byKey: bool, r: Row, at: (Key, Key))
  {
    if byKey then KeyLess(at.1, r.pk)
    else KeyLess(at.0, r.cursor) || (r.cursor == at.0 && KeyLess(at.1, r.pk))
  }

  ghost predicate Increasing(byKey: bool, rows: seq<Row>)
  {
    forall i, j :: 0 <= i < j < |rows| ==> Before(byKey, rows[i], rows[j])
  }

  ghost predicate UniqueKeys(rows: set<Row>)
  {
    forall r, s :: r in rows && s in rows && r.pk == s.pk ==> r == s
  }

  // ---------------------------------------------------------------- one request

  ghost predicate Least(byKey: bool, rows: set<Row>, least: Row)
  {
    least in rows && forall r :: r in rows && r != least ==> Before(byKey, least, r)
  }

  lemma LeastFirst(byKey: bool, rows: set<Row>, least: Row, out: seq<Row>)
    requires Least(byKey, rows, least) && Increasing(byKey, out)
    requires forall r :: r in out <==> r in rows - {least}
    ensures Increasing(byKey, [least] + out)
    ensures forall r :: r in [least] + out <==> r in rows
  {
    assert forall j :: 0 < j < |[least] + out| ==> ([least] + out)[j] == out[j - 1] && out[j - 1] in out;
  }

  /** rows in the order asked for; each one once. */
  ghost function Ordered(byKey: bool, rows: set<Row>): (out: seq<Row>)
    requires UniqueKeys(rows)
    ensures forall r :: r in out <==> r in rows
    ensures Increasing(byKey, out)
    ensures |out| == |rows|
    decreases |rows|
  {
    if rows == {} then []
    else
      LeastExists(byKey, rows);
      var least :| Least(byKey, rows, least);
      var out := Ordered(byKey, rows - {least});
      LeastFirst(byKey, rows, least, out);
      [least] + out
  }

  ghost function Matching(byKey: bool, table: set<Row>, keep: Row -> bool, at: Option<(Key, Key)>): set<Row>
  {
    set r | r in table && keep(r) && (at.Some? ==> After(byKey, r, at.value))
  }

  /** SELECT ... WHERE ... ORDER BY ... LIMIT count */
  ghost function Select(byKey: bool, table: set<Row>, keep: Row -> bool, at: Option<(Key, Key)>, count: nat): seq<Row>
    requires UniqueKeys(table)
  {
    var rows := Ordered(byKey, Matching(byKey, table, keep, at));
    if |rows| <= count then rows else rows[..count]
  }

  predicate LimitAccepted(limit: Option<int>)
  {
    limit.Some? ==> limit.value >= 1
  }

  function PageSize(res: Resource, limit: Option<int>): (n: nat)
    requires LimitAccepted(limit)
    ensures n <= res.maxLimit && (limit.Some? ==> n <= limit.value) && (limit.None? ==> n <= res.defaultLimit)
    ensures n == res.maxLimit || limit == Some(n) || (limit.None? && n == res.defaultLimit)
  {
    var asked := if limit.Some? then limit.value else res.defaultLimit;
    if asked <= res.maxLimit then asked else res.maxLimit
  }

  ghost function ListRows(res: Resource, table: set<Row>, keep: Row -> bool, q: Request): Reply
    requires UniqueKeys(table)
  {
    if !LimitAccepted(q.limit) || q.offsetOrSort then Refused
    else
      var at := if q.cursor.Some? then DecodeCursor(q.cursor.value) else None;
      if q.cursor.Some? && at.None? then Refused
      else
        var limit := PageSize(res, q.limit);
        var raw := Select(res.byKey, table, keep, at, limit + 1);
        var more := |raw| > limit;
        var rows := if more then raw[..limit] else raw;
        var next :=
          if !more || rows == [] then None
          else
            var last := rows[|rows| - 1];
            Some(EncodeCursor(if res.byKey then last.pk else last.cursor, last.pk));
        Page(rows, next, more)
  }

  // ---------------------------------------------------------------- following next_cursor

  /** What the table is when a page is asked for, and the page size asked for. */
  datatype Visit = Visit(table: set<Row>, limit: Option<int>)

  ghost predicate Lawful(res: Resource, visits: seq<Visit>)
  {
    && res.defaultLimit >= 1 && res.maxLimit >= 1
    && forall i :: 0 <= i < |visits| ==> UniqueKeys(visits[i].table) && LimitAccepted(visits[i].limit)
  }

  /** The pages a client gets that follows next_cursor until there is none. */
  ghost function Walk(res: Resource, keep: Row -> bool, visits: seq<Visit>, cursor: Option<string>): (pages: seq<Reply>)
    requires Lawful(res, visits)
    ensures |pages| <= |visits|
  {
    if visits == [] then []
    else
      var page := ListRows(res, visits[0].table, keep, Request(cursor, visits[0].limit, false));
      if page.Refused? || page.next.None? then [page]
      else [page] + Walk(res, keep, visits[1..], page.next)
  }

  function Rows(pages: seq<Reply>): seq<Row>
  {
    if pages == [] then []
    else (if pages[0].Page? then pages[0].items else []) + Rows(pages[1..])
  }

  /** The walk came to a page without next_cursor. */
  predicate Finished(pages: seq<Reply>)
  {
    pages != [] && pages[|pages| - 1].Page? && pages[|pages| - 1].next.None?
  }

  // ---------------------------------------------------------------- the order is total

  lemma KeyTotal(a: Key, b: Key)
    ensures a == b || KeyLess(a, b) || KeyLess(b, a)
  {
    if a.Str? && b.Str? { Text.LessTotal(a.s, b.s); }
  }

  lemma KeyTransitive(a: Key, b: Key, c: Key)
    requires KeyLess(a, b) && KeyLess(b, c)
    ensures KeyLess(a, c)
  {
    if a.Str? && b.Str? && c.Str? { Text.LessTransitive(a.s, b.s, c.s); }
  }

  lemma BeforeTotal(byKey: bool, r: Row, s: Row)
    requires r.pk != s.pk
    ensures Before(byKey, r, s) || Before(byKey, s, r)
  {
    KeyTotal(r.pk, s.pk);
    KeyTotal(r.cursor, s.cursor);
  }

  lemma BeforeTransitive(byKey: bool, r: Row, s: Row, t: Row)
    requires Before(byKey, r, s) && Before(byKey, s, t)
    ensures Before(byKey, r, t)
  {
    if KeyLess(r.pk, s.pk) && KeyLess(s.pk, t.pk) { KeyTransitive(r.pk, s.pk, t.pk); }
    if KeyLess(r.cursor, s.cursor) && KeyLess(s.cursor, t.cursor) { KeyTransitive(r.cursor, s.cursor, t.cursor); }
  }

  lemma BeforeIrreflexive(byKey: bool, r: Row)
    ensures !Before(byKey, r, r)
  {
    if r.pk.Str? { Text.LessIrreflexive(r.pk.s); }
    if r.cursor.Str? { Text.LessIrreflexive(r.cursor.s); }
  }

  lemma {:induction false} LeastExists(byKey: bool, rows: set<Row>)
    requires rows != {} && UniqueKeys(rows)
    ensures exists least :: Least(byKey, rows, least)
    decreases |rows|
  {
    var some :| some in rows;
    var others := rows - {some};
    if others == {} {
      assert forall r :: r in rows && r != some ==> r in others;
      assert Least(byKey, rows, some);
    } else {
      LeastExists(byKey, others);
      var m :| Least(byKey, others, m);
      var least := if Before(byKey, some, m) then some else m;
      forall r | r in rows && r != least ensures Before(byKey, least, r) {
        BeforeTotal(byKey, some, m);
        if least == some && r != m { BeforeTransitive(byKey, some, m, r); }
      }
      assert Least(byKey, rows, least);
    }
  }

  /** Ascending, for numbers and for strings: the first difference decides, and what ends first is lower. */
  ghost predicate Lower(a: Key, b: Key)
  {
    || (a.Int? && b.Int? && a.i < b.i)
    || (a.Str? && b.Str? && exists k :: Text.Differs(a.s, b.s, k))
    || (a.Int? && b.Str?)
  }

  lemma KeyLessIffLower(a: Key, b: Key)
    ensures KeyLess(a, b) <==> Lower(a, b)
  {
    if a.Str? && b.Str? { Text.LessIffDiffers(a.s, b.s); }
  }

  /** Rows in order ascend by key, or by cursor and, where that is the same, by key. */
  lemma RowsAscend(byKey: bool, rows: seq<Row>, i: nat, j: nat)
    requires Increasing(byKey, rows) && i < j < |rows|
    ensures var r, s := rows[i], rows[j];
            if byKey then Lower(r.pk, s.pk) else Lower(r.cursor, s.cursor) || (r.cursor == s.cursor && Lower(r.pk, s.pk))
  {
    KeyLessIffLower(rows[i].pk, rows[j].pk);
    KeyLessIffLower(rows[i].cursor, rows[j].cursor);
    assert Before(byKey, rows[i], rows[j]);
  }

  /** In an increasing sequence no row stands twice. */
  lemma IncreasingDistinct(byKey: bool, rows: seq<Row>)
    requires Increasing(byKey, rows)
    ensures forall i, j :: 0 <= i < j < |rows| ==> rows[i] != rows[j]
  {
    forall i, j | 0 <= i < j < |rows| ensures rows[i] != rows[j] {
      BeforeIrreflexive(byKey, rows[i]);
    }
  }

  // ---------------------------------------------------------------- one page

  /** The position a row's cursor stands for. */
  function Position(byKey: bool, r: Row): (Key, Key)
  {
    (if byKey then r.pk else r.cursor, r.pk)
  }

  /** A cursor, or none, that decodes to the position `at`. */
  predicate Resumes(cursor: Option<string>, at: Option<(Key, Key)>)
  {
    if cursor.None? then at.None? else at.Some? && DecodeCursor(cursor.value) == at
  }

  ghost predicate Past(byKey: bool, r: Row, at: Option<(Key, Key)>)
  {
    at.Some? ==> After(byKey, r, at.value)
  }

  /** What one page answers, and where the next one starts. */
  lemma PageAnswer(res: Resource, keep: Row -> bool, v: Visit, cursor: Option<string>, at: Option<(Key, Key)>)
    returns (page: Reply, all: seq<Row>)
    requires res.defaultLimit >= 1 && res.maxLimit >= 1
    requires UniqueKeys(v.table) && LimitAccepted(v.limit) && Resumes(cursor, at)
    ensures page == ListRows(res, v.table, keep, Request(cursor, v.limit, false)) && page.Page?
    ensures Increasing(res.byKey, all)
    ensures forall r :: r in all <==> r in v.table && keep(r) && Past(res.byKey, r, at)
    ensures var n := PageSize(res, v.limit);
            && n >= 1 && page.items == (if |all| <= n then all else all[..n])
            && page.more == page.next.Some? == (|all| > n)
    ensures page.next.Some? ==>
              Resumes(page.next, Some(Position(res.byKey, page.items[|page.items| - 1])))
  {
    hide Ordered;
    hide EncodeCursor;
    hide DecodeCursor;
    page := ListRows(res, v.table, keep, Request(cursor, v.limit, false));
    all := Ordered(res.byKey, Matching(res.byKey, v.table, keep, at));
    if page.next.Some? {
      var last := page.items[|page.items| - 1];
      CursorRoundTrip(if res.byKey then last.pk else last.cursor, last.pk);
    }
  }

  /** What is refused: a limit below one, an offset or a sort, and a cursor that is not one of ours. */
  lemma RefusedIff(res: Resource, table: set<Row>, keep: Row -> bool, q: Request)
    requires UniqueKeys(table)
    ensures ListRows(res, table, keep, q).Refused? <==>
            || (q.limit.Some? && q.limit.value < 1) || q.offsetOrSort
            || (q.cursor.Some? && DecodeCursor(q.cursor.value).None?)
    ensures q.cursor.Some? && !(|q.cursor.value| >= 3 && q.cursor.value[..3] == "v1.") ==> ListRows(res, table, keep, q).Refused?
  {
    hide Ordered;
    hide EncodeCursor;
  }

  /** The first page of a walk, the rows it chose from, and the rest of the walk. */
  lemma WalkStep(res: Resource, keep: Row -> bool, visits: seq<Visit>, cursor: Option<string>, at: Option<(Key, Key)>)
    returns (items: seq<Row>, all: seq<Row>, next: Option<string>, rest: seq<Reply>)
    requires Lawful(res, visits) && Resumes(cursor, at) && visits != []
    ensures Increasing(res.byKey, all) && items <= all
    ensures forall r :: r in all <==> r in visits[0].table && keep(r) && Past(res.byKey, r, at)
    ensures var pages := Walk(res, keep, visits, cursor);
            && |pages| == |rest| + 1 && pages[1..] == rest
            && pages[0].Page? && pages[0].items == items
            && Rows(pages) == items + Rows(rest)
            && Finished(pages) == (next.None? || Finished(rest))
    ensures next.None? ==> items == all && rest == []
    ensures next.Some? ==>
              && 0 < |items| < |all|
              && Resumes(next, Some(Position(res.byKey, items[|items| - 1])))
              && Lawful(res, visits[1..])
              && rest == Walk(res, keep, visits[1..], next)
  {
    hide ListRows;
    hide Ordered;
    hide Position;
    hide Resumes;
    hide KeyLess;
    hide Past;
    var page, from := PageAnswer(res, keep, visits[0], cursor, at);
    items, all, next := page.items, from, page.next;
    var pages := Walk(res, keep, visits, cursor);
    if next.None? {
      rest := [];
      assert pages == [page];
    } else {
      rest := Walk(res, keep, visits[1..], next);
      assert pages == [page] + rest;
    }
    assert pages[1..] == rest;
    assert rest != [] ==> pages[|pages| - 1] == rest[|rest| - 1];
  }

  lemma AfterIsBefore(byKey: bool, last: Row, r: Row)
    ensures After(byKey, r, Position(byKey, last)) <==> Before(byKey, last, r)
  {
  }

  lemma IncreasingConcat(byKey: bool, a: seq<Row>, b: seq<Row>)
    requires Increasing(byKey, a) && Increasing(byKey, b) && a != []
    requires forall r :: r in b ==> Before(byKey, a[|a| - 1], r)
    ensures Increasing(byKey, a + b)
  {
    forall i, j | 0 <= i < j < |a + b| ensures Before(byKey, (a + b)[i], (a + b)[j]) {
      if i < |a| <= j {
        assert (a + b)[j] in b;
        if i < |a| - 1 { BeforeTransitive(byKey, a[i], a[|a| - 1], (a + b)[j]); }
      }
    }
  }

  // ---------------------------------------------------------------- whole walks

  /** Along any walk the rows strictly increase, whatever happened to the table in between. */
  lemma {:induction false} WalkIncreases(res: Resource, keep: Row -> bool, visits: seq<Visit>,
                                         cursor: Option<string>, at: Option<(Key, Key)>)
    requires Lawful(res, visits) && Resumes(cursor, at)
    ensures var rows := Rows(Walk(res, keep, visits, cursor));
            Increasing(res.byKey, rows) && forall r :: r in rows ==> Past(res.byKey, r, at)
  {
    if visits != [] {
      var items, all, next, rest := WalkStep(res, keep, visits, cursor, at);
      hide Walk;
      assert forall r :: r in items ==> r in all;
      if next.Some? {
        var last := items[|items| - 1];
        WalkIncreases(res, keep, visits[1..], next, Some(Position(res.byKey, last)));
        forall r | r in Rows(rest) ensures Before(res.byKey, last, r) && Past(res.byKey, r, at) {
          AfterIsBefore(res.byKey, last, r);
          PastLater(res.byKey, last, r, at);
        }
        IncreasingConcat(res.byKey, items, Rows(rest));
      }
    }
  }

  lemma PastLater(byKey: bool, r: Row, s: Row, at: Option<(Key, Key)>)
    requires Past(byKey, r, at) && Before(byKey, r, s)
    ensures Past(byKey, s, at)
  {
    if at.Some? { BeforeTransitive(byKey, Row(at.value.0, at.value.1, 0), r, s); }
  }

  /** A row is in the table at each of the first n visits. */
  ghost predicate Stays(r: Row, visits: seq<Visit>, n: nat)
    requires n <= |visits|
  {
    forall i :: 0 <= i < n ==> r in visits[i].table
  }

  /** A wanted row that stays is returned, unless the walk has not come to it. */
  lemma {:induction false} WalkMissesNothing(res: Resource, keep: Row -> bool, visits: seq<Visit>,
                                             cursor: Option<string>, at: Option<(Key, Key)>, r: Row)
    requires Lawful(res, visits) && Resumes(cursor, at)
    requires keep(r) && Past(res.byKey, r, at)
    requires Stays(r, visits, |Walk(res, keep, visits, cursor)|)
    ensures var rows := Rows(Walk(res, keep, visits, cursor));
            r in rows ||
            (!Finished(Walk(res, keep, visits, cursor)) && forall s :: s in rows ==> Before(res.byKey, s, r))
  {
    if visits != [] {
      var items, all, next, rest := WalkStep(res, keep, visits, cursor, at);
      hide Walk;
      assert visits[0].table == visits[0].table && r in all;
      if next.Some? {
        var k :| 0 <= k < |all| && all[k] == r;
        if k < |items| {
          assert r == items[k];
        } else {
          var last := items[|items| - 1];
          assert last == all[|items| - 1];
          AfterIsBefore(res.byKey, last, r);
          assert forall i :: 0 <= i < |rest| ==> visits[1..][i] == visits[i + 1];
          WalkMissesNothing(res, keep, visits[1..], next, Some(Position(res.byKey, last)), r);
          assert forall i :: 0 <= i < |items| ==> Before(res.byKey, all[i], r);
        }
      }
    }
  }

  /** Every row returned was wanted, and in the table when its page was read. */
  lemma {:induction false} WalkReturnsOnlyMatches(res: Resource, keep: Row -> bool, visits: seq<Visit>,
                                                  cursor: Option<string>, at: Option<(Key, Key)>)
    requires Lawful(res, visits) && Resumes(cursor, at)
    ensures var pages := Walk(res, keep, visits, cursor);
            forall k :: 0 <= k < |pages| ==>
              pages[k].Page? && forall r :: r in pages[k].items ==> keep(r) && r in visits[k].table
  {
    hide Increasing;
    hide Position;
    hide Resumes;
    hide Past;
    hide Rows;
    hide Finished;
    if visits != [] {
      var items, all, next, rest := WalkStep(res, keep, visits, cursor, at);
      hide Walk;
      assert forall r :: r in items ==> r in all;
      if next.Some? {
        var later := visits[1..];
        WalkReturnsOnlyMatches(res, keep, later, next, Some(Position(res.byKey, items[|items| - 1])));
        var pages := Walk(res, keep, visits, cursor);
        forall k | 0 < k < |pages| ensures pages[k] == rest[k - 1] && visits[k] == later[k - 1] {
          assert pages[1..][k - 1] == pages[k];
        }
      }
    }
  }

  /**
   * A finished walk returns each wanted row that stayed in the table, unchanged, exactly once,
   * in strictly increasing order, whatever rows came and went and whatever the page sizes.
   */
  lemma EachStayingRowOnce(res: Resource, keep: Row -> bool, visits: seq<Visit>, r: Row)
    requires Lawful(res, visits) && Finished(Walk(res, keep, visits, None))
    requires keep(r) && Stays(r, visits, |Walk(res, keep, visits, None)|)
    ensures var rows := Rows(Walk(res, keep, visits, None));
            && Increasing(res.byKey, rows)
            && (exists i :: 0 <= i < |rows| && rows[i] == r)
            && (forall i, j :: 0 <= i < |rows| && 0 <= j < |rows| && rows[i] == r && rows[j] == r ==> i == j)
  {
    WalkIncreases(res, keep, visits, None, None);
    WalkMissesNothing(res, keep, visits, None, None, r);
    IncreasingDistinct(res.byKey, Rows(Walk(res, keep, visits, None)));
  }

  // ---------------------------------------------------------------- a table that does not change

  ghost predicate Fixed(visits: seq<Visit>, table: set<Row>)
  {
    forall i :: 0 <= i < |visits| ==> visits[i].table == table
  }

  /** Every page but the last brings at least one row, so a long enough walk finishes. */
  lemma {:induction false} WalkAdvances(res: Resource, keep: Row -> bool, visits: seq<Visit>,
                                        cursor: Option<string>, at: Option<(Key, Key)>)
    requires Lawful(res, visits) && Resumes(cursor, at)
    ensures var pages := Walk(res, keep, visits, cursor);
            Finished(pages) || (|pages| == |visits| && |Rows(pages)| >= |pages|)
  {
    if visits != [] {
      var items, all, next, rest := WalkStep(res, keep, visits, cursor, at);
      if next.Some? {
        WalkAdvances(res, keep, visits[1..], next, Some(Position(res.byKey, items[|items| - 1])));
      }
    }
  }

  lemma {:induction false} SameRowsSameOrder(byKey: bool, a: seq<Row>, b: seq<Row>)
    requires Increasing(byKey, a) && Increasing(byKey, b)
    requires forall r :: r in a <==> r in b
    ensures a == b
  {
    if a != [] || b != [] {
      assert (a != [] ==> a[0] in b) && (b != [] ==> b[0] in a);
      var i :| 0 <= i < |b| && b[i] == a[0];
      var j :| 0 <= j < |a| && a[j] == b[0];
      if i > 0 && j > 0 {
        BeforeTransitive(byKey, a[0], b[0], a[0]);
        BeforeIrreflexive(byKey, a[0]);
      }
      assert a[0] == b[0];
      IncreasingDistinct(byKey, a);
      IncreasingDistinct(byKey, b);
      forall r ensures r in a[1..] <==> r in b[1..] {
        assert a == [a[0]] + a[1..] && b == [b[0]] + b[1..];
        assert r in a[1..] ==> r in a && r != a[0];
        assert r in b[1..] ==> r in b && r != b[0];
      }
      SameRowsSameOrder(byKey, a[1..], b[1..]);
      assert a == [a[0]] + a[1..] && b == [b[0]] + b[1..];
    }
  }

  lemma {:induction false} ReturnedOnSomePage(pages: seq<Reply>, r: Row)
    requires r in Rows(pages)
    ensures exists k :: 0 <= k < |pages| && pages[k].Page? && r in pages[k].items
  {
    if pages[0].Page? && r in pages[0].items {
    } else {
      ReturnedOnSomePage(pages[1..], r);
      var k :| 0 <= k < |pages[1..]| && pages[1..][k].Page? && r in pages[1..][k].items;
      assert pages[k + 1] == pages[1..][k];
    }
  }

  /** On a table that does not change the pages add up to the whole filtered, sorted table. */
  lemma FixedTableEnumerated(res: Resource, keep: Row -> bool, visits: seq<Visit>, table: set<Row>)
    requires Lawful(res, visits) && Fixed(visits, table) && UniqueKeys(table)
    requires Finished(Walk(res, keep, visits, None))
    ensures Rows(Walk(res, keep, visits, None)) == Ordered(res.byKey, Matching(res.byKey, table, keep, None))
  {
    var pages := Walk(res, keep, visits, None);
    var all := Ordered(res.byKey, Matching(res.byKey, table, keep, None));
    WalkIncreases(res, keep, visits, None, None);
    WalkReturnsOnlyMatches(res, keep, visits, None, None);
    forall r ensures r in Rows(pages) <==> r in all {
      if r in Rows(pages) {
        ReturnedOnSomePage(pages, r);
      }
      if r in all {
        WalkMissesNothing(res, keep, visits, None, None, r);
      }
    }
    SameRowsSameOrder(res.byKey, Rows(pages), all);
  }

  lemma DistinctRowsFit(byKey: bool, rows: seq<Row>, s: set<Row>)
    requires Increasing(byKey, rows) && forall r :: r in rows ==> r in s
    ensures |rows| <= |s|
    decreases |rows|
  {
    if rows != [] {
      IncreasingDistinct(byKey, rows);
      DistinctRowsFit(byKey, rows[1..], s - {rows[0]});
    }
  }

  /** And the walk ends: one request more than there are rows is always enough. */
  lemma FixedTableEnds(res: Resource, keep: Row -> bool, visits: seq<Visit>, table: set<Row>)
    requires Lawful(res, visits) && Fixed(visits, table) && UniqueKeys(table)
    requires |visits| > |Matching(res.byKey, table, keep, None)|
    ensures Finished(Walk(res, keep, visits, None))
  {
    var pages := Walk(res, keep, visits, None);
    WalkAdvances(res, keep, visits, None, None);
    WalkIncreases(res, keep, visits, None, None);
    WalkReturnsOnlyMatches(res, keep, visits, None, None);
    forall r | r in Rows(pages) ensures r in Matching(res.byKey, table, keep, None) {
      ReturnedOnSomePage(pages, r);
    }
    DistinctRowsFit(res.byKey, Rows(pages), Matching(res.byKey, table, keep, None));
  }
}
