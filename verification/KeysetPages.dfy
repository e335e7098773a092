/** Keyset pages over rows in key order: following the cursor yields every matching row exactly once, in order. */
module KeysetPages {
  import opened Wrappers

  datatype Keyed<T> = Keyed(key: int, value: T)

  datatype Page<T> = Page(items: seq<Keyed<T>>, hasMore: bool, next: Option<int>)

  predicate Ascending<T>(rows: seq<Keyed<T>>) {
    forall i, j :: 0 <= i < j < |rows| ==> rows[i].key < rows[j].key
  }

  predicate Beyond(key: int, after: Option<int>) {
    after.None? || after.value < key
  }

  /** The rows past the cursor that the filter keeps, in row order. */
  function Matching<T>(rows: seq<Keyed<T>>, keep: Keyed<T> -> bool, after: Option<int>): seq<Keyed<T>> {
    if rows == [] then []
    else
      var last := rows[|rows| - 1];
      var earlier := Matching(rows[..|rows| - 1], keep, after);
      if Beyond(last.key, after) && keep(last) then earlier + [last] else earlier
  }

  /** What one request computes from the first `limit + 1` matching rows. */
  function PageOf<T>(matching: seq<Keyed<T>>, limit: nat): Page<T>
    requires 1 <= limit
  {
    if limit < |matching| then Page(matching[..limit], true, Some(matching[limit - 1].key))
    else Page(matching, false, None)
  }

  lemma {:induction false} MatchingHolds<T>(rows: seq<Keyed<T>>, keep: Keyed<T> -> bool, after: Option<int>,
                                            r: Keyed<T>)
    ensures r in Matching(rows, keep, after) <==> r in rows && Beyond(r.key, after) && keep(r)
  {
    if rows != [] {
      MatchingHolds(rows[..|rows| - 1], keep, after, r);
      assert rows == rows[..|rows| - 1] + [rows[|rows| - 1]];
    }
  }

  /** In ascending rows, whatever comes from an earlier part has a smaller key. */
  lemma EarlierIsSmaller<T>(rows: seq<Keyed<T>>, keep: Keyed<T> -> bool, after: Option<int>, k: nat)
    requires Ascending(rows) && rows != [] && k < |Matching(rows[..|rows| - 1], keep, after)|
    ensures Matching(rows[..|rows| - 1], keep, after)[k].key < rows[|rows| - 1].key
  {
    var shorter := rows[..|rows| - 1];
    var r := Matching(shorter, keep, after)[k];
    MatchingHolds(shorter, keep, after, r);
    var i :| 0 <= i < |shorter| && shorter[i] == r;
    assert rows[i].key < rows[|rows| - 1].key;
  }

  lemma {:induction false} MatchingAscends<T>(rows: seq<Keyed<T>>, keep: Keyed<T> -> bool, after: Option<int>)
    requires Ascending(rows)
    ensures Ascending(Matching(rows, keep, after))
  {
    if rows != [] {
      MatchingAscends(rows[..|rows| - 1], keep, after);
      var earlier := Matching(rows[..|rows| - 1], keep, after);
      forall k | 0 <= k < |earlier| ensures earlier[k].key < rows[|rows| - 1].key {
        EarlierIsSmaller(rows, keep, after, k);
      }
    }
  }

  /** Moving the cursor to a row drops exactly the rows up to it. */
  lemma {:induction false} CursorDrops<T>(rows: seq<Keyed<T>>, keep: Keyed<T> -> bool, after: Option<int>, k: nat)
    requires Ascending(rows) && k < |Matching(rows, keep, after)|
    ensures Matching(rows, keep, Some(Matching(rows, keep, after)[k].key)) == Matching(rows, keep, after)[k + 1..]
  {
    var n := |rows| - 1;
    var last, earlier, all := rows[n], Matching(rows[..n], keep, after), Matching(rows, keep, after);
    MatchingHolds(rows, keep, after, all[k]);
    if k < |earlier| {
      CursorDrops(rows[..n], keep, after, k);
      EarlierIsSmaller(rows, keep, after, k);
    } else {
      assert all[k] == last;
      NothingBeyond(rows, keep, last.key);
    }
  }

  lemma {:induction false} NothingBeyond<T>(rows: seq<Keyed<T>>, keep: Keyed<T> -> bool, bound: int)
    requires forall i :: 0 <= i < |rows| ==> rows[i].key <= bound
    ensures Matching(rows, keep, Some(bound)) == []
  {
    if rows != [] {
      NothingBeyond(rows[..|rows| - 1], keep, bound);
    }
  }

  /** A client that asks for page after page until there is no more. */
  function Walk<T>(rows: seq<Keyed<T>>, keep: Keyed<T> -> bool, after: Option<int>, limit: nat): seq<Keyed<T>>
    requires Ascending(rows) && 1 <= limit
    decreases |Matching(rows, keep, after)|
  {
    var page := PageOf(Matching(rows, keep, after), limit);
    if !page.hasMore then page.items
    else
      CursorDrops(rows, keep, after, limit - 1);
      page.items + Walk(rows, keep, page.next, limit)
  }

  /** Main result: the pages of a walk are the whole filtered list, whatever the page size. */
  lemma {:induction false} WalkIsComplete<T>(rows: seq<Keyed<T>>, keep: Keyed<T> -> bool, after: Option<int>,
                                             limit: nat)
    requires Ascending(rows) && 1 <= limit
    ensures Walk(rows, keep, after, limit) == Matching(rows, keep, after)
    decreases |Matching(rows, keep, after)|
  {
    var matching := Matching(rows, keep, after);
    if limit < |matching| {
      CursorDrops(rows, keep, after, limit - 1);
      WalkIsComplete(rows, keep, Some(matching[limit - 1].key), limit);
      assert matching == matching[..limit] + matching[limit..];
    }
  }

  /** No page is longer than asked for, and only the last one can be shorter. */
  lemma PagesAreFull<T>(rows: seq<Keyed<T>>, keep: Keyed<T> -> bool, after: Option<int>, limit: nat)
    requires Ascending(rows) && 1 <= limit
    ensures var page := PageOf(Matching(rows, keep, after), limit);
            && |page.items| <= limit
            && (page.hasMore ==> |page.items| == limit && page.next == Some(page.items[limit - 1].key))
            && (forall i :: 0 <= i < |page.items| ==> Beyond(page.items[i].key, after) && keep(page.items[i]))
            && (page.next.Some? ==> forall i :: 0 <= i < |page.items| ==> page.items[i].key <= page.next.value)
  {
    var matching := Matching(rows, keep, after);
    MatchingAscends(rows, keep, after);
    forall i | 0 <= i < |matching| ensures Beyond(matching[i].key, after) && keep(matching[i]) {
      MatchingHolds(rows, keep, after, matching[i]);
    }
  }

  // ---------------------------------------------------------------- lap summaries

  datatype LapColumns = LapColumns(stint: Option<int>, deleted: Option<bool>, lapTime: Option<int>)

  datatype LapQuery = LapQuery(
    lapFrom: Option<int>, lapTo: Option<int>, stint: Option<int>, includeDeleted: bool, afterLap: Option<int>,
      limit: nat)

  predicate Selected(query: LapQuery, lap: Keyed<LapColumns>) {
    && (query.lapFrom.Some? ==> query.lapFrom.value <= lap.key)
    && (query.lapTo.Some? ==> lap.key <= query.lapTo.value)
    && (query.stint.Some? ==> lap.value.stint == query.stint)
    && (query.includeDeleted || lap.value.deleted != Some(true))
  }

  /** A lap that the query asks for, past its cursor. */
  ghost predicate Wanted(query: LapQuery, lap: Keyed<LapColumns>) {
    && (query.afterLap.None? || query.afterLap.value < lap.key)
    && (query.lapFrom.None? || query.lapFrom.value <= lap.key) && (query.lapTo.None? || lap.key <= query.lapTo.value)
    && (query.stint.None? || query.stint == lap.value.stint)
    && (lap.value.deleted == Some(true) ==> query.includeDeleted)
  }

  /** A page: wanted laps in order, none skipped, and more to come exactly when a wanted lap did not fit. */
  ghost predicate ShowsPage(laps: seq<Keyed<LapColumns>>, query: LapQuery, page: Page<LapColumns>) {
    && |page.items| <= query.limit && Ascending(page.items)
    && (forall lap :: lap in page.items ==> lap in laps && Wanted(query, lap))
    && (forall lap :: lap in laps && Wanted(query, lap) && lap !in page.items ==>
          && page.hasMore
          && forall i :: 0 <= i < |page.items| ==> page.items[i].key < lap.key)
    && (page.hasMore ==>
          && |page.items| == query.limit && 0 < query.limit
          && page.next == Some(page.items[query.limit - 1].key)
          && exists lap :: lap in laps && Wanted(query, lap) && lap !in page.items)
    && (!page.hasMore ==> page.next == None)
  }

  function Keep(query: LapQuery): Keyed<LapColumns> -> bool {
    (lap: Keyed<LapColumns>) => Selected(query, lap)
  }

  /** Of ordered rows, whatever is not among the first comes after all of them. */
  lemma RestComesAfter<T>(all: seq<Keyed<T>>, n: nat, row: Keyed<T>)
    requires Ascending(all) && n <= |all| && row in all && row !in all[..n]
    ensures n < |all| && forall i :: 0 <= i < n ==> all[..n][i].key < row.key
  {
    assert all == all[..n] + all[n..];
    var k :| 0 <= k < |all[n..]| && all[n..][k] == row;
    assert all[n + k] == row;
  }

  lemma NextIsNotAmongFirst<T>(all: seq<Keyed<T>>, n: nat)
    requires Ascending(all) && n < |all|
    ensures all[n] in all && all[n] !in all[..n]
  {
  }

  lemma PageIsShown(laps: seq<Keyed<LapColumns>>, query: LapQuery)
    requires Ascending(laps) && 1 <= query.limit
    ensures ShowsPage(laps, query, PageOf(Matching(laps, Keep(query), query.afterLap), query.limit))
  {
    var all := Matching(laps, Keep(query), query.afterLap);
    var n := if query.limit < |all| then query.limit else |all|;
    assert n == |all| ==> all[..n] == all;
    MatchingAscends(laps, Keep(query), query.afterLap);
    forall lap ensures lap in all <==> lap in laps && Wanted(query, lap) {
      MatchingHolds(laps, Keep(query), query.afterLap, lap);
    }
    forall lap | lap in all[..n] ensures lap in all {
    }
    forall lap | lap in all && lap !in all[..n]
      ensures n < |all| && forall i :: 0 <= i < n ==> all[..n][i].key < lap.key {
      RestComesAfter(all, n, lap);
    }
    if n < |all| {
      NextIsNotAmongFirst(all, n);
    }
  }

  /** One page of an entry's laps, read in lap order until one row more than the limit has been found. */
  method ReadSessionLaps(laps: seq<Keyed<LapColumns>>, query: LapQuery) returns (page: Page<LapColumns>)
    requires Ascending(laps) && 1 <= query.limit
    ensures page == PageOf(Matching(laps, Keep(query), query.afterLap), query.limit)
    ensures ShowsPage(laps, query, page)
  {
    ghost var keep := Keep(query);
    var rows: seq<Keyed<LapColumns>> := [];
    var i := 0;
    while i < |laps| && |rows| <= query.limit
      invariant i <= |laps| && rows == Matching(laps[..i], keep, query.afterLap)
    {
      assert laps[..i + 1][..i] == laps[..i];
      if Beyond(laps[i].key, query.afterLap) && Selected(query, laps[i]) {
        rows := rows + [laps[i]];
      }
      i := i + 1;
    }
    FoundIsPage(laps, i, query, rows);
    var hasMore := |rows| > query.limit;
    var items := if hasMore then rows[..query.limit] else rows;
    page := Page(items, hasMore, if hasMore then Some(items[|items| - 1].key) else None);
    assert page == PageOf(Matching(laps, Keep(query), query.afterLap), query.limit);
    PageIsShown(laps, query);
  }

  /** What was found until the loop stopped decides the page. */
  lemma FoundIsPage(laps: seq<Keyed<LapColumns>>, i: nat, query: LapQuery, rows: seq<Keyed<LapColumns>>)
    requires i <= |laps| && rows == Matching(laps[..i], Keep(query), query.afterLap) && 1 <= query.limit
    requires i == |laps| || query.limit < |rows|
    ensures PageOf(rows, query.limit) == PageOf(Matching(laps, Keep(query), query.afterLap), query.limit)
  {
    MatchingOfPrefix(laps, i, Keep(query), query.afterLap);
    if i == |laps| {
      assert laps[..i] == laps;
    } else {
      SameStart(rows, Matching(laps, Keep(query), query.afterLap), query.limit);
    }
  }

  lemma SameStart<T>(rows: seq<T>, all: seq<T>, limit: nat)
    requires rows <= all && limit < |rows|
    ensures rows[..limit] == all[..limit] && forall i :: 0 <= i < limit ==> rows[i] == all[i]
  {
  }

  lemma {:induction false} MatchingOfPrefix<T>(rows: seq<Keyed<T>>, i: nat, keep: Keyed<T> -> bool, after: Option<int>)
    requires i <= |rows|
    ensures Matching(rows[..i], keep, after) <= Matching(rows, keep, after)
    decreases |rows|
  {
    if i == |rows| {
      assert rows[..i] == rows;
    } else {
      assert rows[..|rows| - 1][..i] == rows[..i];
      MatchingOfPrefix(rows[..|rows| - 1], i, keep, after);
    }
  }
}
