/**
 * Keyset pagination of the event lists (backend/src/controllers/indexerController.ts:309-342): pages by id, one row
 * more than the limit read to know whether another page follows.
 *
 * A table is the strictly ascending sequence of the ids of the rows that match the filters.
 */
module Pagination {
  import opened Common

  datatype Page = Page(events: seq<int>, nextCursor: Option<int>)

  predicate Ascending(ids: seq<int>) {
    forall i, j | 0 <= i < j < |ids| :: ids[i] < ids[j]
  }

  /** WHERE cursor IS NULL OR id > cursor ORDER BY id ASC */
  function After(table: seq<int>, cursor: Option<int>): (rows: seq<int>)
    ensures forall x :: x in rows <==> x in table && (cursor.Some? ==> x > cursor.value)
    ensures Ascending(table) ==> Ascending(rows)
    ensures |rows| <= |table|
  {
    if table == [] then []
    else
      var rest := After(table[1..], cursor);
      assert forall i | 0 <= i < |rest| :: rest[i] in table[1..];
      if cursor.Some? && table[0] <= cursor.value then rest else [table[0]] + rest
  }

  /** LIMIT limit + 1, and the extra row cut off again. */
  function PageOf(table: seq<int>, cursor: Option<int>, limit: nat): Page {
    var matching := After(table, cursor);
    var rows := matching[..Min(|matching|, limit + 1)];
    var hasNext := |rows| > limit;
    var events := if hasNext then rows[..limit] else rows;
    Page(events, if hasNext && events != [] then Some(events[|events| - 1]) else None)
  }

  /** The cursor the i-th request carries. */
  function CursorAt(cursor: Option<int>, pages: seq<Page>, i: nat): Option<int>
    requires i < |pages|
  {
    if i == 0 then cursor else pages[i - 1].nextCursor
  }

  /** A client that keeps following next_cursor; each request may meet a different state of the table. */
  predicate Walk(tables: seq<seq<int>>, cursor: Option<int>, limit: nat, pages: seq<Page>) {
    && |pages| == |tables| && pages != []
    && (forall i | 0 <= i < |pages| ::
          pages[i] == PageOf(tables[i], CursorAt(cursor, pages, i), limit))
    && (forall i | 0 <= i < |pages| - 1 :: pages[i].nextCursor.Some?)
  }

  function Seen(pages: seq<Page>): seq<int> {
    if pages == [] then [] else Seen(pages[..|pages| - 1]) + pages[|pages| - 1].events
  }

  predicate UpTo(x: int, cursor: Option<int>) {
    cursor.Some? ==> x <= cursor.value
  }

  /** Rows are only ever added behind those of `start`. */
  predicate Extends(start: seq<int>, table: seq<int>) {
    && Ascending(table)
    && (forall x <- start :: x in table)
    && (forall x <- table, y <- start :: x in start || y < x)
  }

  /** One page: it holds every row behind the cursor up to the next cursor, and fills the limit if another page follows. */
  lemma PageHolds(table: seq<int>, cursor: Option<int>, limit: nat)
    requires Ascending(table) && limit >= 1
    ensures var p := PageOf(table, cursor, limit);
            && Ascending(p.events)
            && (forall x :: x in p.events <==> x in table && !(cursor.Some? && UpTo(x, cursor)) && UpTo(x, p.nextCursor))
            && (p.nextCursor.Some? ==> |p.events| == limit && p.nextCursor.value == p.events[limit - 1]
                                       && (cursor.Some? ==> cursor.value < p.nextCursor.value))
  {
    var p := PageOf(table, cursor, limit);
    var matching := After(table, cursor);
    if |matching| > limit {
      assert p.events == matching[..limit];
      assert matching[limit - 1] in matching;
      forall x | x in matching ensures x in p.events <==> x <= matching[limit - 1] {
        var i :| 0 <= i < |matching| && matching[i] == x;
        if i < limit { assert p.events[i] == x; }
      }
    } else {
      assert p.events == matching;
    }
  }

  ghost predicate Delivered(start: seq<int>, tables: seq<seq<int>>, limit: nat, pages: seq<Page>)
    requires pages != []
  {
    var seen, next := Seen(pages), pages[|pages| - 1].nextCursor;
    && Ascending(seen)
    && (forall x <- seen :: UpTo(x, next) && exists t <- tables :: x in t)
    && (forall x <- start :: UpTo(x, next) ==> x in seen)
    && |seen| >= (|pages| - 1) * limit + (if next.Some? then limit else 0)
    && (next.Some? ==> next.value in seen)
  }

  lemma {:induction false} WalkDelivers(start: seq<int>, tables: seq<seq<int>>, limit: nat, pages: seq<Page>)
    requires limit >= 1 && Walk(tables, None, limit, pages) && forall t <- tables :: Extends(start, t)
    ensures Delivered(start, tables, limit, pages)
    decreases |pages|
  {
    hide PageOf, Delivered, Extends;
    var n := |pages| - 1;
    assert tables[n] in tables;
    ExtendsAscending(start, tables[n]);
    assert pages[n] == PageOf(tables[n], CursorAt(None, pages, n), limit);
    if n == 0 {
      PageHolds(tables[0], None, limit);
      FirstPage(start, tables, limit, pages);
    } else {
      forall t | t in tables[..n] ensures Extends(start, t) { assert t in tables; }
      assert Walk(tables[..n], None, limit, pages[..n]) by {
        forall i | 0 <= i < n ensures pages[..n][i] == PageOf(tables[..n][i], CursorAt(None, pages[..n], i), limit) {
          assert pages[i] == PageOf(tables[i], CursorAt(None, pages, i), limit);
        }
      }
      WalkDelivers(start, tables[..n], limit, pages[..n]);
      PageHolds(tables[n], pages[n - 1].nextCursor, limit);
      Extend(start, tables, limit, pages);
    }
  }

  lemma ExtendsAscending(start: seq<int>, table: seq<int>)
    requires Extends(start, table)
    ensures Ascending(table)
  {
  }

  lemma FirstPage(start: seq<int>, tables: seq<seq<int>>, limit: nat, pages: seq<Page>)
    requires limit >= 1 && |pages| == 1 && |tables| == 1
    requires var p := pages[0];
             && Extends(start, tables[0])
             && Ascending(p.events)
             && (forall x :: x in p.events <==> x in tables[0] && UpTo(x, p.nextCursor))
             && (p.nextCursor.Some? ==> |p.events| == limit && p.nextCursor.value == p.events[limit - 1])
    ensures Delivered(start, tables, limit, pages)
  {
    assert pages[..0] == [] && Seen(pages) == [] + pages[0].events == pages[0].events;
    assert tables[0] in tables;
  }

  lemma Extend(start: seq<int>, tables: seq<seq<int>>, limit: nat, pages: seq<Page>)
    requires limit >= 1 && |pages| >= 2 && |tables| == |pages|
    requires var n := |pages| - 1;
             var cursor, p := pages[n - 1].nextCursor, pages[n];
             && Delivered(start, tables[..n], limit, pages[..n]) && cursor.Some? && Extends(start, tables[n])
             && Ascending(p.events)
             && (forall x :: x in p.events <==> x in tables[n] && !UpTo(x, cursor) && UpTo(x, p.nextCursor))
             && (p.nextCursor.Some? ==> |p.events| == limit && p.nextCursor.value == p.events[limit - 1]
                                        && cursor.value < p.nextCursor.value)
    ensures Delivered(start, tables, limit, pages)
  {
    var n := |pages| - 1;
    var before, p := Seen(pages[..n]), pages[n];
    var seen := Seen(pages);
    assert seen == before + p.events;
    forall i, j | 0 <= i < j < |seen| ensures seen[i] < seen[j] {
      if i < |before| <= j { assert seen[i] in before && seen[j] in p.events; }
    }
    forall x | x in seen ensures exists t <- tables :: x in t {
      if x in before {
        var t :| t in tables[..n] && x in t;
        assert t in tables;
      } else {
        assert tables[n] in tables;
      }
    }
    assert n * limit == (n - 1) * limit + limit;
  }

  /**
   * A walk that has reached its last page has shown every row present at its start exactly once and in order of id,
   * and nothing twice, whatever has been appended between its pages.
   */
  lemma WalkIsComplete(start: seq<int>, tables: seq<seq<int>>, limit: nat, pages: seq<Page>)
    requires limit >= 1 && Walk(tables, None, limit, pages) && forall t <- tables :: Extends(start, t)
    requires pages[|pages| - 1].nextCursor.None?
    ensures Ascending(Seen(pages))
    ensures forall x <- start :: x in Seen(pages)
    ensures forall x <- Seen(pages) :: x in start || forall y <- start :: y < x
  {
    WalkDelivers(start, tables, limit, pages);
    forall x | x in Seen(pages) ensures x in start || forall y <- start :: y < x {
      var t :| t in tables && x in t;
    }
  }

  /** On a table that stays as it is, the pages are the table, and there are at most |table| / limit + 1 of them. */
  lemma FixedTable(table: seq<int>, tables: seq<seq<int>>, limit: nat, pages: seq<Page>)
    requires limit >= 1 && Walk(tables, None, limit, pages) && Ascending(table) && forall t <- tables :: t == table
    ensures (|pages| - 1) * limit <= |table|
    ensures pages[|pages| - 1].nextCursor.None? ==> Seen(pages) == table
  {
    assert forall t <- tables :: Extends(table, t);
    WalkDelivers(table, tables, limit, pages);
    var seen := Seen(pages);
    assert forall x <- seen :: x in table;
    AscendingWithin(seen, table);
    if pages[|pages| - 1].nextCursor.None? { AscendingIsUnique(seen, table); }
  }

  lemma {:induction false} AscendingWithin(a: seq<int>, b: seq<int>)
    requires Ascending(a) && Ascending(b) && forall x <- a :: x in b
    ensures |a| <= |b|
  {
    if a != [] {
      var init, last := a[..|a| - 1], a[|a| - 1];
      assert last in a;
      var k :| 0 <= k < |b| && b[k] == last;
      forall x | x in init ensures x in b[..k] {
        assert x in a && x < last;
        var i :| 0 <= i < |b| && b[i] == x;
        assert b[..k][i] == x;
      }
      AscendingWithin(init, b[..k]);
    }
  }

  lemma BelowLast(a: seq<int>, x: int)
    requires Ascending(a) && a != []
    ensures x in a[..|a| - 1] <==> x in a && x < a[|a| - 1]
  {
    var m := |a| - 1;
    if x in a && x < a[m] {
      var i :| 0 <= i < |a| && a[i] == x;
      assert a[..m][i] == x;
    }
  }

  lemma {:induction false} AscendingIsUnique(a: seq<int>, b: seq<int>)
    requires Ascending(a) && Ascending(b) && forall x :: x in a <==> x in b
    ensures a == b
  {
    AscendingWithin(a, b);
    AscendingWithin(b, a);
    if a != [] {
      var m := |a| - 1;
      assert a[m] in a && b[m] in b;
      var i :| 0 <= i < |b| && b[i] == a[m];
      var j :| 0 <= j < |a| && a[j] == b[m];
      assert a[m] == b[m];
      forall x ensures x in a[..m] <==> x in a && x < a[m] { BelowLast(a, x); }
      forall x ensures x in b[..m] <==> x in b && x < b[m] { BelowLast(b, x); }
      AscendingIsUnique(a[..m], b[..m]);
      assert a == a[..m] + [a[m]] && b == b[..m] + [b[m]];
    } else {
      assert forall x :: x !in b;
    }
  }

  // ---------- pages out of the cache ----------

  /** Between the i-th request's cursor and the cursor it is given in return. */
  predicate InRange(pages: seq<Page>, i: nat, x: int)
    requires i < |pages|
  {
    !(CursorAt(None, pages, i).Some? && UpTo(x, CursorAt(None, pages, i))) && UpTo(x, pages[i].nextCursor)
  }

  lemma CursorGrows(tables: seq<seq<int>>, limit: nat, pages: seq<Page>, i: nat)
    requires limit >= 1 && Walk(tables, None, limit, pages) && forall t <- tables :: Ascending(t)
    requires i < |pages|
    ensures i + 1 < |pages| ==> CursorAt(None, pages, i + 1) == pages[i].nextCursor && pages[i].nextCursor.Some?
    ensures CursorAt(None, pages, i).Some? && pages[i].nextCursor.Some? ==>
              CursorAt(None, pages, i).value < pages[i].nextCursor.value
  {
    hide PageOf, Ascending;
    assert tables[i] in tables;
    assert pages[i] == PageOf(tables[i], CursorAt(None, pages, i), limit);
    PageHolds(tables[i], CursorAt(None, pages, i), limit);
  }

  lemma {:induction false} CursorsGrow(tables: seq<seq<int>>, limit: nat, pages: seq<Page>, i: nat, j: nat)
    requires limit >= 1 && Walk(tables, None, limit, pages) && forall t <- tables :: Ascending(t)
    requires i < j < |pages|
    ensures CursorAt(None, pages, j).Some? && pages[i].nextCursor.Some?
    ensures pages[i].nextCursor.value <= CursorAt(None, pages, j).value
    decreases j
  {
    hide Walk, Ascending, CursorAt;
    CursorGrows(tables, limit, pages, j - 1);
    if j > i + 1 { CursorsGrow(tables, limit, pages, i, j - 1); }
  }

  /** The ranges of a finished walk share out all ids. */
  lemma {:induction false} RangeOf(pages: seq<Page>, x: int, n: nat) returns (i: nat)
    requires n <= |pages| && pages != [] && forall k | 0 <= k < |pages| - 1 :: pages[k].nextCursor.Some?
    requires n == |pages| ==> pages[n - 1].nextCursor.None?
    requires n < |pages| ==> UpTo(x, pages[n].nextCursor)
    ensures i < |pages| && InRange(pages, i, x)
  {
    if n == |pages| {
      i := RangeOf(pages, x, n - 1);
    } else if n > 0 && UpTo(x, pages[n - 1].nextCursor) {
      i := RangeOf(pages, x, n - 1);
    } else {
      i := n;
    }
  }

  lemma RangesAreApart(tables: seq<seq<int>>, limit: nat, pages: seq<Page>, i: nat, j: nat, x: int)
    requires limit >= 1 && Walk(tables, None, limit, pages) && forall t <- tables :: Ascending(t)
    requires i < |pages| && j < |pages| && InRange(pages, i, x) && InRange(pages, j, x)
    ensures i == j
  {
    if i < j { CursorsGrow(tables, limit, pages, i, j); }
    if j < i { CursorsGrow(tables, limit, pages, j, i); }
  }

  lemma {:induction false} SeenOnSomePage(pages: seq<Page>, x: int)
    ensures x in Seen(pages) <==> exists i | 0 <= i < |pages| :: x in pages[i].events
  {
    if pages != [] {
      var n := |pages| - 1;
      SeenOnSomePage(pages[..n], x);
      assert forall i | 0 <= i < n :: pages[..n][i] == pages[i];
    }
  }

  /**
   * Whatever states of the table the pages of a finished walk were computed from, in whatever order: an id is shown if
   * and only if it is in the state behind the page whose range it falls into.
   */
  lemma ShownIff(tables: seq<seq<int>>, limit: nat, pages: seq<Page>, i: nat, x: int)
    requires limit >= 1 && Walk(tables, None, limit, pages) && forall t <- tables :: Ascending(t)
    requires i < |pages| && InRange(pages, i, x)
    ensures x in Seen(pages) <==> x in tables[i]
  {
    SeenOnSomePage(pages, x);
    OnPage(tables, limit, pages, i, x);
    if x in Seen(pages) {
      var k :| 0 <= k < |pages| && x in pages[k].events;
      OnPage(tables, limit, pages, k, x);
      RangesAreApart(tables, limit, pages, i, k, x);
    }
  }

  lemma OnPage(tables: seq<seq<int>>, limit: nat, pages: seq<Page>, i: nat, x: int)
    requires limit >= 1 && Walk(tables, None, limit, pages) && forall t <- tables :: Ascending(t)
    requires i < |pages|
    ensures x in pages[i].events <==> x in tables[i] && InRange(pages, i, x)
  {
    assert tables[i] in tables;
    assert pages[i] == PageOf(tables[i], CursorAt(None, pages, i), limit);
    PageHolds(tables[i], CursorAt(None, pages, i), limit);
  }

  /** How long a list is cached, in seconds. */
  const PAGE_TTL_SECONDS := 300

  /**
   * A walk through the cache: the table at every second, the second of each request, and the second whose table the
   * page it is served was computed from, which lies less than the cache's lifetime back.
   */
  ghost predicate CachedWalk(history: seq<seq<int>>, asked: seq<nat>, computed: seq<nat>, limit: nat, pages: seq<Page>) {
    && (forall t <- history :: Ascending(t))
    && (forall a, b | 0 <= a <= b < |history| :: history[a] <= history[b])
    && |asked| == |computed| == |pages| && pages != []
    && (forall i | 0 <= i < |pages| ::
          computed[i] <= asked[i] < |history| && asked[0] <= asked[i] && asked[i] - computed[i] < PAGE_TTL_SECONDS)
    && Walk(Snapshots(history, computed), None, limit, pages)
    && pages[|pages| - 1].nextCursor.None?
  }

  function Snapshots(history: seq<seq<int>>, computed: seq<nat>): seq<seq<int>> {
    seq(|computed|, i requires 0 <= i < |computed| => if computed[i] < |history| then history[computed[i]] else [])
  }

  /** A row present when the walk starts is missed exactly when the snapshot that serves its range is older than it. */
  lemma MissedIff(history: seq<seq<int>>, asked: seq<nat>, computed: seq<nat>, limit: nat, pages: seq<Page>, x: int)
    returns (i: nat)
    requires limit >= 1 && CachedWalk(history, asked, computed, limit, pages) && x in history[asked[0]]
    ensures i < |pages| && InRange(pages, i, x) && (x !in Seen(pages) <==> x !in history[computed[i]])
  {
    hide CachedWalk, Walk, Snapshots, InRange, Seen;
    var tables := SnapshotFacts(history, asked, computed, limit, pages);
    i := RangeOf(pages, x, |pages|);
    ShownIff(tables, limit, pages, i, x);
  }

  lemma SnapshotFacts(history: seq<seq<int>>, asked: seq<nat>, computed: seq<nat>, limit: nat, pages: seq<Page>)
    returns (tables: seq<seq<int>>)
    requires CachedWalk(history, asked, computed, limit, pages)
    ensures Walk(tables, None, limit, pages) && forall t <- tables :: Ascending(t)
    ensures |computed| == |pages| == |tables| && pages != []
    ensures forall i | 0 <= i < |pages| :: computed[i] < |history| && tables[i] == history[computed[i]]
    ensures forall k | 0 <= k < |pages| - 1 :: pages[k].nextCursor.Some?
    ensures pages[|pages| - 1].nextCursor.None?
  {
    hide Ascending;
    tables := Snapshots(history, computed);
    forall t | t in tables ensures Ascending(t) {
      var k :| 0 <= k < |tables| && tables[k] == t;
      assert history[computed[k]] in history;
    }
  }

  /** So a row that has been there for the cache's lifetime is never missed. */
  lemma OldRowsAreNeverMissed(history: seq<seq<int>>, asked: seq<nat>, computed: seq<nat>, limit: nat, pages: seq<Page>, x: int)
    requires limit >= 1 && CachedWalk(history, asked, computed, limit, pages)
    requires asked[0] >= PAGE_TTL_SECONDS && x in history[asked[0] - PAGE_TTL_SECONDS]
    ensures x in Seen(pages)
  {
    assert history[asked[0] - PAGE_TTL_SECONDS] <= history[asked[0]];
    var i := MissedIff(history, asked, computed, limit, pages, x);
    assert history[asked[0] - PAGE_TTL_SECONDS] <= history[computed[i]];
  }

  /** A table that fits into one page. */
  lemma SinglePage(table: seq<int>, limit: nat)
    requires limit >= 1 && Ascending(table) && |table| <= limit
    ensures var pages := [PageOf(table, None, limit)];
            && Walk([table], None, limit, pages) && pages[0].nextCursor.None?
            && forall x :: x in Seen(pages) <==> x in table
  {
    var pages := [PageOf(table, None, limit)];
    PageHolds(table, None, limit);
    assert Seen(pages) == pages[0].events by { assert pages[..0] == []; }
  }

  /**
   * A younger one can be: a walk that starts right after `row` was added, and is served the page cached a second
   * before, while everything fitted into it, ends without the row.
   */
  lemma CachedPageHidesNewRows(cached: seq<int>, limit: nat, row: int)
    requires limit >= 1 && Ascending(cached + [row]) && |cached| <= limit
    ensures var history, pages := [cached, cached + [row]], [PageOf(cached, None, limit)];
            && CachedWalk(history, [1], [0], limit, pages)
            && row in history[1] && row !in Seen(pages)
  {
    var history, pages := [cached, cached + [row]], [PageOf(cached, None, limit)];
    forall i, j | 0 <= i < j < |cached| ensures cached[i] < cached[j] {
      assert (cached + [row])[i] < (cached + [row])[j];
    }
    forall i | 0 <= i < |cached| ensures cached[i] < row {
      assert (cached + [row])[i] < (cached + [row])[|cached|];
    }
    SinglePage(cached, limit);
    hide PageOf, Walk, Seen, Ascending;
    assert Snapshots(history, [0]) == [cached];
  }
}
