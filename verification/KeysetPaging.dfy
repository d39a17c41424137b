/**
 Keyset paging of the two leaderboards: a page is the first rows strictly after the
 cursor row, and the cursor is only the last row's user id, resolved back to its
 position in the table. Account ratings order by (level desc, stars desc, user id);
 the Stars leaderboard by (balance desc, user id), its second key being constant.
 */
module KeysetPaging {
  datatype Row = Row(first: int, second: int, userId: int)

  /** The WHERE clause of the ratings query for a resolved cursor row c. */
  predicate RatingsAfter(c: Row, r: Row) {
    || r.first < c.first
    || (r.first == c.first && r.second < c.second)
    || (r.first == c.first && r.second == c.second && r.userId > c.userId)
  }

  /** The WHERE clause of the Stars query. */
  predicate StarsAfter(c: Row, r: Row) {
    r.first < c.first || (r.first == c.first && r.userId > c.userId)
  }

  /** The cursor predicate is strict succession in one total order; with a constant second key both queries share it. */
  lemma AfterIsStrictTotalOrder(a: Row, b: Row, c: Row)
    ensures !RatingsAfter(a, a)
    ensures RatingsAfter(a, b) && RatingsAfter(b, c) ==> RatingsAfter(a, c)
    ensures a == b || RatingsAfter(a, b) || RatingsAfter(b, a)
    ensures !(RatingsAfter(a, b) && RatingsAfter(b, a))
    ensures a.second == b.second ==> (StarsAfter(a, b) <==> RatingsAfter(a, b))
  {
  }

  ghost predicate IsFirst(s: set<Row>, f: Row) {
    f in s && forall r :: r in s && r != f ==> RatingsAfter(f, r)
  }

  lemma {:induction false} HasFirst(s: set<Row>)
    requires s != {}
    ensures exists f :: IsFirst(s, f)
  {
    var x :| x in s;
    var rest := s - {x};
    if rest == {} {
      assert s == {x};
      assert IsFirst(s, x);
    } else {
      HasFirst(rest);
      var f :| IsFirst(rest, f);
      assert s == rest + {x};
      var least := if RatingsAfter(x, f) then x else f;
      forall r | r in s && r != least ensures RatingsAfter(least, r) {
        AfterIsStrictTotalOrder(x, f, r);
      }
      assert IsFirst(s, least);
    }
  }

  /** ORDER BY first DESC, second DESC, user_id. */
  ghost function Ordered(s: set<Row>): seq<Row>
    decreases |s|
  {
    if s == {} then []
    else
      HasFirst(s);
      var f :| IsFirst(s, f);
      [f] + Ordered(s - {f})
  }

  ghost predicate Sorted(rows: seq<Row>) {
    forall i, j :: 0 <= i < j < |rows| ==> RatingsAfter(rows[i], rows[j])
  }

  ghost function Elements(rows: seq<Row>): set<Row> {
    set r | r in rows
  }

  lemma {:induction false} OrderedIsSorted(s: set<Row>)
    ensures Sorted(Ordered(s)) && Elements(Ordered(s)) == s && |Ordered(s)| == |s|
    decreases |s|
  {
    if s != {} {
      HasFirst(s);
      var out := Ordered(s);
      var f := out[0];
      OrderedIsSorted(s - {f});
      ConsSorted(s, f, Ordered(s - {f}));
    }
  }

  lemma ConsSorted(s: set<Row>, f: Row, rest: seq<Row>)
    requires IsFirst(s, f) && Sorted(rest) && Elements(rest) == s - {f}
    ensures Sorted([f] + rest) && Elements([f] + rest) == s
  {
    assert forall j :: 0 <= j < |rest| ==> rest[j] in Elements(rest);
    assert Elements([f] + rest) == {f} + Elements(rest);
  }

  lemma HeadListed(a: seq<Row>)
    ensures a == [] || a[0] in Elements(a)
  {
  }

  /** A sorted listing is determined by what it lists. */
  lemma {:induction false} SortedUnique(a: seq<Row>, b: seq<Row>)
    requires Sorted(a) && Sorted(b) && Elements(a) == Elements(b)
    ensures a == b
  {
    if a == [] {
      HeadListed(b);
    } else {
      assert a[0] in Elements(b);
      assert b != [] && b[0] in Elements(a);
      AfterIsStrictTotalOrder(a[0], b[0], a[0]);
      var i :| 0 <= i < |b| && b[i] == a[0];
      var j :| 0 <= j < |a| && a[j] == b[0];
      assert i == 0;
      TailElements(a);
      TailElements(b);
      SortedUnique(a[1..], b[1..]);
      assert a == [a[0]] + a[1..] && b == [b[0]] + b[1..];
    }
  }

  lemma TailElements(a: seq<Row>)
    requires a != [] && Sorted(a)
    ensures Elements(a[1..]) == Elements(a) - {a[0]}
  {
    forall r | r in Elements(a) - {a[0]} ensures r in a[1..] {
      var i :| 0 <= i < |a| && a[i] == r;
      assert a[1..][i - 1] == r;
    }
    forall r | r in a[1..] ensures r in a && r != a[0] {
      var i :| 0 <= i < |a[1..]| && a[1..][i] == r;
      assert a[i + 1] == r;
      AfterIsStrictTotalOrder(a[0], r, r);
    }
  }

  // ---- one page ----

  const DEFAULT_LIMIT := 50
  const MAX_LIMIT := 200

  function Clamp(limit: int): (n: nat)
    ensures 1 <= n <= MAX_LIMIT
    ensures 1 <= limit <= MAX_LIMIT ==> n == limit
  {
    if limit <= 0 then DEFAULT_LIMIT else if limit > MAX_LIMIT then MAX_LIMIT else limit
  }

  /** Distinct positive user ids: the primary key, and ids the handlers accept as before_id. */
  ghost predicate Table(table: set<Row>) {
    && (forall r :: r in table ==> r.userId > 0)
    && (forall r, q :: r in table && q in table && r.userId == q.userId ==> r == q)
  }

  ghost function Matching(table: set<Row>, filter: Row -> bool, beforeId: int): set<Row> {
    set r | r in table && filter(r) &&
      forall c :: c in table && c.userId == beforeId && beforeId != 0 ==> RatingsAfter(c, r)
  }

  /** What the query returns for LIMIT limit+1. */
  ghost function Fetched(table: set<Row>, filter: Row -> bool, beforeId: int, limit: int): seq<Row> {
    var all := Ordered(Matching(table, filter, beforeId));
    if |all| <= Clamp(limit) + 1 then all else all[..Clamp(limit) + 1]
  }

  /** Scan the fetched rows, then hold back the extra one and report that there is more. */
  method ListPage(fetched: seq<Row>, limit: int) returns (rows: seq<Row>, hasMore: bool)
    ensures hasMore <==> |fetched| > Clamp(limit)
    ensures rows == if hasMore then fetched[..Clamp(limit)] else fetched
  {
    rows := [];
    for i := 0 to |fetched|
      invariant rows == fetched[..i]
    {
      rows := rows + [fetched[i]];
    }
    hasMore := |rows| > Clamp(limit);
    if hasMore { rows := rows[..Clamp(limit)]; }
  }

  /** The rows after the k-th of the full listing are exactly what its user id as cursor selects. */
  lemma CursorResumes(table: set<Row>, filter: Row -> bool, k: nat)
    requires Table(table)
    requires var all := Ordered(Matching(table, filter, 0)); k <= |all|
    ensures var all := Ordered(Matching(table, filter, 0));
            var cursor := if k == 0 then 0 else all[k - 1].userId;
            Ordered(Matching(table, filter, cursor)) == all[k..]
  {
    var whole := Matching(table, filter, 0);
    var all := Ordered(whole);
    OrderedIsSorted(whole);
    if k == 0 {
      assert all[0..] == all;
    } else {
      var rest := Matching(table, filter, all[k - 1].userId);
      assert all[k - 1] in Elements(all);
      AfterCursor(all, k);
      assert rest == set r | r in Elements(all) && RatingsAfter(all[k - 1], r);
      OrderedIsSorted(rest);
      SortedUnique(Ordered(rest), all[k..]);
    }
  }

  /** In a sorted listing, what comes after the cursor row is the rest of the listing. */
  lemma AfterCursor(all: seq<Row>, k: nat)
    requires Sorted(all) && 0 < k <= |all|
    ensures Sorted(all[k..])
    ensures Elements(all[k..]) == set r | r in Elements(all) && RatingsAfter(all[k - 1], r)
  {
    var c := all[k - 1];
    forall r | r in Elements(all) && RatingsAfter(c, r) ensures r in all[k..] {
      var i :| 0 <= i < |all| && all[i] == r;
      AfterIsStrictTotalOrder(c, r, c);
      assert i >= k && all[k..][i - k] == r;
    }
    forall r | r in all[k..] ensures r in all && RatingsAfter(c, r) {
      var i :| 0 <= i < |all[k..]| && all[k..][i] == r;
      assert all[k + i] == r;
    }
  }

  function Min(a: int, b: int): int {
    if a < b then a else b
  }

  /** A page fetched after k rows is the next stretch of the full listing. */
  lemma FetchedIsNext(table: set<Row>, filter: Row -> bool, k: nat, limit: int)
    requires Table(table) && k <= |Ordered(Matching(table, filter, 0))|
    ensures var all := Ordered(Matching(table, filter, 0));
            Fetched(table, filter, if k == 0 then 0 else all[k - 1].userId, limit) ==
              all[k..Min(|all|, k + Clamp(limit) + 1)]
  {
    CursorResumes(table, filter, k);
  }

  /** Higher first key, then higher second key, then lower user id. */
  predicate Above(a: Row, b: Row) {
    if a.first != b.first then a.first > b.first
    else if a.second != b.second then a.second > b.second
    else a.userId < b.userId
  }

  /** Every row of the table that passes the filter, once, each above the next. */
  ghost predicate Lists(out: seq<Row>, table: set<Row>, filter: Row -> bool) {
    && Elements(out) == (set r | r in table && filter(r))
    && forall i, j :: 0 <= i < j < |out| ==> Above(out[i], out[j])
  }

  lemma OrderedLists(table: set<Row>, filter: Row -> bool)
    ensures Lists(Ordered(Matching(table, filter, 0)), table, filter)
  {
    var rows := Matching(table, filter, 0);
    OrderedIsSorted(rows);
    assert rows == set r | r in table && filter(r);
    assert forall a, b :: RatingsAfter(a, b) ==> Above(a, b);
  }

  /** The WHERE clause of the Stars query, whose rows have one key only, selects the same rows in the same order. */
  lemma StarsQuery(table: set<Row>, filter: Row -> bool, beforeId: int)
    requires forall r :: r in table ==> r.second == 0
    ensures Matching(table, filter, beforeId) ==
            set r | r in table && filter(r) &&
              forall c :: c in table && c.userId == beforeId && beforeId != 0 ==> StarsAfter(c, r)
    ensures forall a, b :: a in table && b in table ==>
              (Above(a, b) <==> a.first > b.first || (a.first == b.first && a.userId < b.userId))
  {
    forall a, b | a in table && b in table ensures StarsAfter(a, b) <==> RatingsAfter(a, b) {
      AfterIsStrictTotalOrder(a, b, b);
    }
  }

  /** fetch answers each page request on the fixed table. */
  ghost predicate Answers(fetch: (int, int) -> seq<Row>, table: set<Row>, filter: Row -> bool) {
    forall beforeId, limit :: fetch(beforeId, limit) == Fetched(table, filter, beforeId, limit)
  }

  /** One turn of the walk: the listed rows extend the prefix, and reach the end when there is no more. */
  lemma NextPage(table: set<Row>, filter: Row -> bool, k: nat, beforeId: int, limit: int,
                 fetched: seq<Row>, rows: seq<Row>, hasMore: bool)
    requires Table(table) && k <= |Ordered(Matching(table, filter, 0))|
    requires beforeId == if k == 0 then 0 else Ordered(Matching(table, filter, 0))[k - 1].userId
    requires fetched == Fetched(table, filter, beforeId, limit)
    requires hasMore <==> |fetched| > Clamp(limit)
    requires rows == if hasMore then fetched[..Clamp(limit)] else fetched
    ensures var all := Ordered(Matching(table, filter, 0));
            var out := all[..k] + rows;
            && |out| <= |all| && out == all[..|out|]
            && (hasMore ==> |rows| > 0 && rows[|rows| - 1] == all[|out| - 1])
            && (!hasMore ==> out == all)
  {
    FetchedIsNext(table, filter, k, limit);
    Stretch(Ordered(Matching(table, filter, 0)), k, Clamp(limit), fetched, rows, hasMore);
  }

  /** Following next_before_id until it is empty yields every matching row once, in order, and stops. */
  method Walk(ghost table: set<Row>, ghost filter: Row -> bool, fetch: (int, int) -> seq<Row>, limit: int)
    returns (out: seq<Row>)
    requires Table(table) && Answers(fetch, table, filter)
    ensures out == Ordered(Matching(table, filter, 0)) && Lists(out, table, filter)
  {
    ghost var all := Ordered(Matching(table, filter, 0));
    out := [];
    var beforeId := 0;
    while true
      invariant |out| <= |all| && out == all[..|out|]
      invariant beforeId == if out == [] then 0 else all[|out| - 1].userId
      decreases |all| - |out|
    {
      var fetched := fetch(beforeId, limit);
      assert fetched == Fetched(table, filter, beforeId, limit);
      var rows, hasMore := ListPage(fetched, limit);
      NextPage(table, filter, |out|, beforeId, limit, fetched, rows, hasMore);
      out := out + rows;
      if !hasMore {
        OrderedLists(table, filter);
        return;
      }
      beforeId := rows[|rows| - 1].userId;
    }
  }

  /** Appending a page to the first k rows gives a longer prefix, the whole listing when there is no more. */
  lemma Stretch(all: seq<Row>, k: nat, n: nat, fetched: seq<Row>, rows: seq<Row>, hasMore: bool)
    requires k <= |all| && n > 0 && fetched == all[k..Min(|all|, k + n + 1)]
    requires hasMore <==> |fetched| > n
    requires rows == if hasMore then fetched[..n] else fetched
    ensures var out := all[..k] + rows;
            && |out| <= |all| && out == all[..|out|]
            && (hasMore ==> |rows| > 0 && rows[|rows| - 1] == all[|out| - 1])
            && (!hasMore ==> out == all)
  {
    assert rows == all[k..Min(|all|, k + n)];
  }
}
