// Snapshot and keyset paging over contract_events, and a client that follows
// the cursors to the end while rows are being inserted.
module Paging {
  import opened Prelude

  // created_at is in microseconds, as Postgres stores it; `matches` is whether
  // the row passes the endpoint's filters.
  datatype Row = Row(seqNo: nat, createdAt: nat, matches: bool)

  // The cursor went through a JavaScript Date: its time is cut to milliseconds.
  datatype Cursor = Cursor(createdAt: nat, seqNo: nat)

  function CursorOf(r: Row): Cursor
  {
    Cursor(r.createdAt - r.createdAt % 1000, r.seqNo)
  }

  // created_at < c OR (created_at = c AND seq < s)
  predicate After(c: Cursor, r: Row)
  {
    r.createdAt < c.createdAt || (r.createdAt == c.createdAt && r.seqNo < c.seqNo)
  }

  // ORDER BY created_at DESC, seq DESC
  predicate Before(a: Row, b: Row)
  {
    a.createdAt > b.createdAt || (a.createdAt == b.createdAt && a.seqNo > b.seqNo)
  }

  // WHERE <filters> AND seq <= snapshot
  function Snapshot(table: seq<Row>, snapshot: nat): seq<Row>
  {
    if table == [] then []
    else (if table[0].matches && table[0].seqNo <= snapshot then [table[0]] else []) + Snapshot(table[1..], snapshot)
  }

  // AND <keyset clause>
  function Seek(rows: seq<Row>, c: Cursor): seq<Row>
  {
    if rows == [] then [] else (if After(c, rows[0]) then [rows[0]] else []) + Seek(rows[1..], c)
  }

  function Insert(r: Row, rows: seq<Row>): seq<Row>
  {
    if rows == [] || Before(r, rows[0]) then [r] + rows else [rows[0]] + Insert(r, rows[1..])
  }

  function Sort(rows: seq<Row>): seq<Row>
  {
    if rows == [] then [] else Insert(rows[0], Sort(rows[1..]))
  }

  function Take(rows: seq<Row>, n: nat): seq<Row>
  {
    if |rows| <= n then rows else rows[..n]
  }

  function MaxSeq(table: seq<Row>): nat
  {
    if table == [] then 0
    else
      var m := MaxSeq(table[1..]);
      if table[0].seqNo > m then table[0].seqNo else m
  }

  // Pin the snapshot on the first request, which sends none.
  function Pin(requested: nat, table: seq<Row>): nat
  {
    if requested == 0 then MaxSeq(table) else requested
  }

  // parseKeysetParams: an absent or unusable limit is 50, a large one 100.
  function ParseLimit(limit: Option<int>): (n: nat)
    ensures limit.Some? && limit.value >= 1 ==> 1 <= n <= limit.value && (n < limit.value ==> n == 100) && n <= 100
    ensures limit.None? || limit.value < 1 ==> n == 50
  {
    if limit.None? || limit.value < 1 then 50 else if limit.value > 100 then 100 else limit.value
  }

  datatype Page = Page(items: seq<Row>, next: Option<Cursor>, snapshot: nat, totalAtSnapshot: nat)

  // One request of the event endpoints.
  function GetPage(table: seq<Row>, requested: nat, cursor: Option<Cursor>, limit: nat): Page
    requires limit >= 1
  {
    var snapshot := Pin(requested, table);
    var visible := Snapshot(table, snapshot);
    var rows := Take(Sort(if cursor.Some? then Seek(visible, cursor.value) else visible), limit + 1);
    var hasNext := |rows| > limit;
    var items := if hasNext then rows[..limit] else rows;
    Page(items, if hasNext then Some(CursorOf(items[limit - 1])) else None, snapshot, |visible|)
  }

  // ---- Sorting and seeking commute ----

  ghost predicate Descending(rows: seq<Row>)
  {
    forall i, j :: 0 <= i < j < |rows| ==> Before(rows[i], rows[j])
  }

  ghost predicate UniqueSeq(rows: seq<Row>)
  {
    forall i, j :: 0 <= i < j < |rows| ==> rows[i].seqNo != rows[j].seqNo
  }

  lemma {:induction false} InsertMultiset(r: Row, rows: seq<Row>)
    ensures multiset(Insert(r, rows)) == multiset(rows) + multiset{r} && |Insert(r, rows)| == |rows| + 1
  {
    if rows != [] && !Before(r, rows[0]) {
      InsertMultiset(r, rows[1..]);
      assert rows == [rows[0]] + rows[1..];
    }
  }

  lemma {:induction false} InsertMembers(r: Row, rows: seq<Row>)
    ensures forall i :: 0 <= i < |Insert(r, rows)| ==> Insert(r, rows)[i] == r || Insert(r, rows)[i] in rows
  {
    if rows != [] && !Before(r, rows[0]) { InsertMembers(r, rows[1..]); }
  }

  lemma {:induction false} InsertDescending(r: Row, rows: seq<Row>)
    requires Descending(rows) && forall i :: 0 <= i < |rows| ==> rows[i].seqNo != r.seqNo
    ensures Descending(Insert(r, rows))
  {
    if rows != [] && !Before(r, rows[0]) {
      InsertDescending(r, rows[1..]);
      InsertMembers(r, rows[1..]);
    }
  }

  lemma {:induction false} SortDescending(rows: seq<Row>)
    requires UniqueSeq(rows)
    ensures Descending(Sort(rows)) && multiset(Sort(rows)) == multiset(rows) && |Sort(rows)| == |rows|
  {
    if rows != [] {
      SortDescending(rows[1..]);
      var rest := Sort(rows[1..]);
      forall i | 0 <= i < |rest| ensures rest[i].seqNo != rows[0].seqNo {
        assert rest[i] in multiset(rows[1..]);
      }
      InsertDescending(rows[0], rest);
      InsertMultiset(rows[0], rest);
      assert rows == [rows[0]] + rows[1..];
    }
  }

  lemma {:induction false} SeekMembers(rows: seq<Row>, c: Cursor, r: Row)
    ensures r in Seek(rows, c) <==> r in rows && After(c, r)
  {
    if rows != [] {
      SeekMembers(rows[1..], c, r);
      assert rows == [rows[0]] + rows[1..];
    }
  }

  lemma {:induction false} SeekInsert(r: Row, rows: seq<Row>, c: Cursor)
    requires Descending(rows)
    ensures Seek(Insert(r, rows), c) == if After(c, r) then Insert(r, Seek(rows, c)) else Seek(rows, c)
  {
    if rows == [] {
      assert Insert(r, rows) == [r] && [r][1..] == [];
    } else if Before(r, rows[0]) {
      assert ([r] + rows)[1..] == rows;
      var rest := Seek(rows, c);
      if rest != [] { SeekMembers(rows, c, rest[0]); assert Before(r, rest[0]); }
    } else {
      SeekInsert(r, rows[1..], c);
      var inserted := Insert(r, rows);
      assert inserted[0] == rows[0] && inserted[1..] == Insert(r, rows[1..]);
      if After(c, rows[0]) {
        assert Seek(rows, c)[1..] == Seek(rows[1..], c);
      } else if After(c, r) {
        var rest := Seek(rows[1..], c);
        assert Seek(rows, c) == rest;
      }
    }
  }

  lemma SortCons(r: Row, rows: seq<Row>)
    ensures Sort([r] + rows) == Insert(r, Sort(rows))
  {
    assert ([r] + rows)[1..] == rows;
  }

  lemma {:induction false} SortSeek(rows: seq<Row>, c: Cursor)
    requires UniqueSeq(rows)
    ensures Sort(Seek(rows, c)) == Seek(Sort(rows), c)
  {
    if rows != [] {
      var r, rest := rows[0], rows[1..];
      SortSeek(rest, c);
      SortDescending(rest);
      SeekInsert(r, Sort(rest), c);
      if After(c, r) {
        assert Seek(rows, c) == [r] + Seek(rest, c);
        SortCons(r, Seek(rest, c));
      } else {
        assert Seek(rows, c) == Seek(rest, c);
      }
    }
  }

  // ---- A cursor cuts a sorted list in two ----

  // How many leading rows the keyset clause passes over.
  function Skipped(rows: seq<Row>, c: Cursor): (n: nat)
    ensures n <= |rows|
  {
    if rows == [] || After(c, rows[0]) then 0 else 1 + Skipped(rows[1..], c)
  }

  lemma {:induction false} SeekAll(rows: seq<Row>, c: Cursor)
    requires forall i :: 0 <= i < |rows| ==> After(c, rows[i])
    ensures Seek(rows, c) == rows
  {
    if rows != [] { SeekAll(rows[1..], c); assert rows == [rows[0]] + rows[1..]; }
  }

  lemma {:induction false} SeekIsSuffix(rows: seq<Row>, c: Cursor)
    requires Descending(rows)
    ensures Seek(rows, c) == rows[Skipped(rows, c)..]
  {
    if rows != [] {
      if After(c, rows[0]) { SeekAll(rows, c); } else { SeekIsSuffix(rows[1..], c); }
    }
  }

  lemma {:induction false} SkippedAtLeast(rows: seq<Row>, c: Cursor, n: nat)
    requires n <= |rows| && forall i :: 0 <= i < n ==> !After(c, rows[i])
    ensures Skipped(rows, c) >= n
    ensures n < |rows| ==> (Skipped(rows, c) == n <==> After(c, rows[n]))
  {
    if n > 0 { SkippedAtLeast(rows[1..], c, n - 1); }
  }

  // Where the page after row j begins.
  function NextStart(rows: seq<Row>, j: nat): nat
    requires j < |rows|
  {
    Skipped(rows, CursorOf(rows[j]))
  }

  // The next page never goes back, and it begins right after row j if and only
  // if the row there passes the truncated cursor.
  lemma NextStartAfter(rows: seq<Row>, j: nat)
    requires Descending(rows) && j < |rows|
    ensures j + 1 <= NextStart(rows, j) <= |rows|
    ensures j + 1 < |rows| ==> (NextStart(rows, j) == j + 1 <==> After(CursorOf(rows[j]), rows[j + 1]))
  {
    var c := CursorOf(rows[j]);
    forall i | 0 <= i < j + 1 ensures !After(c, rows[i]) {
      assert i < j ==> Before(rows[i], rows[j]);
    }
    SkippedAtLeast(rows, c, j + 1);
  }

  // ---- Following the cursors ----

  // The page that begins at row `start` of the sorted snapshot, and its cursor.
  function ItemsAt(rows: seq<Row>, start: nat, limit: nat): seq<Row>
    requires start <= |rows|
  {
    if start + limit < |rows| then rows[start..start + limit] else rows[start..]
  }

  function CursorAt(rows: seq<Row>, start: nat, limit: nat): Option<Cursor>
    requires limit >= 1
  {
    if start + limit < |rows| then Some(CursorOf(rows[start + limit - 1])) else None
  }

  // All rows a client sees from there on, following each cursor to the end.
  function Walk(rows: seq<Row>, start: nat, limit: nat): seq<Row>
    requires limit >= 1 && Descending(rows) && start <= |rows|
    decreases |rows| - start
  {
    if start + limit < |rows| then
      NextStartAfter(rows, start + limit - 1);
      rows[start..start + limit] + Walk(rows, NextStart(rows, start + limit - 1), limit)
    else rows[start..]
  }

  // What remains of the walk after the page at `start`.
  function Remainder(rows: seq<Row>, start: nat, limit: nat): seq<Row>
    requires limit >= 1 && Descending(rows) && start <= |rows|
  {
    if start + limit < |rows| then
      NextStartAfter(rows, start + limit - 1);
      Walk(rows, NextStart(rows, start + limit - 1), limit)
    else []
  }

  // Rows inserted after the snapshot was pinned have larger sequence numbers.
  ghost predicate Grown(table: seq<Row>, later: seq<Row>, snapshot: nat)
  {
    table <= later && UniqueSeq(later) && forall i :: |table| <= i < |later| ==> later[i].seqNo > snapshot
  }

  // Rows are only added, each with a larger sequence number than all before.
  ghost predicate Appended(table: seq<Row>, later: seq<Row>)
  {
    && table <= later && UniqueSeq(later)
    && forall i, j :: 0 <= i < |table| <= j < |later| ==> later[j].seqNo > table[i].seqNo
  }

  lemma AppendedGrown(table: seq<Row>, later: seq<Row>)
    requires Appended(table, later) && table != []
    ensures Grown(table, later, MaxSeq(table))
  {
    hide MaxSeq;
    MaxSeqAttained(table);
    var r :| r in table && r.seqNo == MaxSeq(table);
    var i :| 0 <= i < |table| && table[i] == r;
  }

  lemma {:induction false} SnapshotOfNewer(rows: seq<Row>, snapshot: nat)
    requires forall i :: 0 <= i < |rows| ==> rows[i].seqNo > snapshot
    ensures Snapshot(rows, snapshot) == []
  {
    if rows != [] { SnapshotOfNewer(rows[1..], snapshot); }
  }

  lemma {:induction false} SnapshotStable(table: seq<Row>, later: seq<Row>, snapshot: nat)
    requires table <= later && forall i :: |table| <= i < |later| ==> later[i].seqNo > snapshot
    ensures Snapshot(later, snapshot) == Snapshot(table, snapshot)
  {
    if table == [] {
      SnapshotOfNewer(later, snapshot);
    } else {
      assert later[0] == table[0];
      SnapshotStable(table[1..], later[1..], snapshot);
    }
  }

  lemma {:induction false} SnapshotUnique(table: seq<Row>, snapshot: nat)
    requires UniqueSeq(table)
    ensures UniqueSeq(Snapshot(table, snapshot))
    ensures forall r :: r in Snapshot(table, snapshot) ==> r in table
  {
    if table != [] {
      SnapshotUnique(table[1..], snapshot);
      assert forall r :: r in table[1..] ==> r.seqNo != table[0].seqNo;
    }
  }

  // The pinned snapshot is the largest sequence number in the table, and zero
  // when there is none.
  lemma {:induction false} MaxSeqAttained(table: seq<Row>)
    ensures table == [] ==> MaxSeq(table) == 0
    ensures table != [] ==> exists r :: r in table && r.seqNo == MaxSeq(table)
    ensures forall r :: r in table ==> r.seqNo <= MaxSeq(table)
  {
    forall r | r in table ensures r.seqNo <= MaxSeq(table) { MaxSeqBound(table, r); }
    if table != [] {
      MaxSeqAttained(table[1..]);
      if table[0].seqNo == MaxSeq(table) {
        assert table[0] in table;
      } else {
        assert MaxSeq(table) == MaxSeq(table[1..]);
        var r :| r in table[1..] && r.seqNo == MaxSeq(table[1..]);
        assert r in table;
      }
    }
  }

  lemma {:induction false} MaxSeqBound(table: seq<Row>, r: Row)
    requires r in table
    ensures r.seqNo <= MaxSeq(table)
  {
    if r != table[0] { MaxSeqBound(table[1..], r); }
  }

  lemma {:induction false} SnapshotMembers(table: seq<Row>, snapshot: nat, r: Row)
    ensures r in Snapshot(table, snapshot) <==> r in table && r.matches && r.seqNo <= snapshot
  {
    if table != [] {
      SnapshotMembers(table[1..], snapshot, r);
      assert table == [table[0]] + table[1..];
    }
  }

  ghost predicate IsPage(page: Page, rows: seq<Row>, start: nat, limit: nat, snapshot: nat)
    requires limit >= 1
  {
    && start <= |rows| && page.items == ItemsAt(rows, start, limit) && page.next == CursorAt(rows, start, limit)
    && page.snapshot == snapshot && page.totalAtSnapshot == |rows|
  }

  lemma FirstPage(table: seq<Row>, limit: nat)
    requires limit >= 1 && UniqueSeq(table)
    ensures
      var rows := Sort(Snapshot(table, MaxSeq(table)));
      Descending(rows) && IsPage(GetPage(table, 0, None, limit), rows, 0, limit, MaxSeq(table))
    ensures
      var snapshot := GetPage(table, 0, None, limit).snapshot;
      && (forall r :: r in table ==> r.seqNo <= snapshot)
      && (if table == [] then snapshot == 0 else exists r :: r in table && r.seqNo == snapshot)
  {
    hide Snapshot, Sort, MaxSeq, UniqueSeq;
    MaxSeqAttained(table);
    SnapshotUnique(table, MaxSeq(table));
    SortDescending(Snapshot(table, MaxSeq(table)));
  }

  lemma PageOfSuffix(table: seq<Row>, snapshot: nat, c: Cursor, limit: nat, rows: seq<Row>, k: nat)
    requires limit >= 1 && snapshot > 0 && k <= |rows|
    requires Sort(Seek(Snapshot(table, snapshot), c)) == rows[k..] && |Snapshot(table, snapshot)| == |rows|
    ensures IsPage(GetPage(table, snapshot, Some(c), limit), rows, k, limit, snapshot)
  {
    hide Snapshot, Seek, Sort, CursorOf;
  }

  // A later page, asked of a grown table, is a page of the original snapshot.
  lemma LaterPage(rows: seq<Row>, table: seq<Row>, later: seq<Row>, snapshot: nat, j: nat, limit: nat)
    requires limit >= 1 && snapshot > 0 && UniqueSeq(table) && Grown(table, later, snapshot)
    requires rows == Sort(Snapshot(table, snapshot)) && Descending(rows) && j < |rows|
    ensures IsPage(GetPage(later, snapshot, Some(CursorOf(rows[j])), limit), rows, NextStart(rows, j), limit, snapshot)
  {
    hide Seek, Sort, Snapshot, CursorOf, Skipped, GetPage, IsPage, Descending, UniqueSeq;
    var c := CursorOf(rows[j]);
    SnapshotStable(table, later, snapshot);
    SnapshotUnique(table, snapshot);
    SortDescending(Snapshot(table, snapshot));
    SortSeek(Snapshot(table, snapshot), c);
    SeekIsSuffix(rows, c);
    PageOfSuffix(later, snapshot, c, limit, rows, NextStart(rows, j));
  }

  // The client: it sends no snapshot on the first request and repeats the
  // returned one from then on. Page k is read from tables(k).
  method FollowCursors(tables: nat -> seq<Row>, limit: nat) returns (items: seq<Row>, total: nat)
    requires limit >= 1 && UniqueSeq(tables(0)) && forall i :: 0 <= i < |tables(0)| ==> tables(0)[i].seqNo > 0
    requires forall k: nat :: Appended(tables(0), tables(k))
    ensures
      var rows := Sort(Snapshot(tables(0), MaxSeq(tables(0))));
      Descending(rows) && items == Walk(rows, 0, limit) && total == |rows|
  {
    hide GetPage, NextStart, Snapshot, Sort, MaxSeq, UniqueSeq, Grown, Appended, Walk, ItemsAt;
    var table := tables(0);
    ghost var rows := Sort(Snapshot(table, MaxSeq(table)));
    FirstPage(table, limit);
    var page := GetPage(table, 0, None, limit);
    var k := 1;
    items, total := page.items, page.totalAtSnapshot;
    ghost var start := 0;
    WalkStep(rows, 0, limit);
    while page.next.Some?
      invariant IsPage(page, rows, start, limit, MaxSeq(table))
      invariant items + Remainder(rows, start, limit) == Walk(rows, 0, limit)
      decreases |rows| - start
    {
      ghost var j := start + limit - 1;
      SnapshotPinned(table, MaxSeq(table));
      AppendedGrown(table, tables(k));
      NextStartAfter(rows, j);
      LaterPage(rows, table, tables(k), page.snapshot, j, limit);
      WalkStep(rows, NextStart(rows, j), limit);
      page := GetPage(tables(k), page.snapshot, page.next, limit);
      start := NextStart(rows, j);
      assert items + (page.items + Remainder(rows, start, limit)) == items + page.items + Remainder(rows, start, limit);
      items := items + page.items;
      k := k + 1;
    }
  }

  lemma WalkStep(rows: seq<Row>, start: nat, limit: nat)
    requires limit >= 1 && Descending(rows) && start <= |rows|
    ensures Walk(rows, start, limit) == ItemsAt(rows, start, limit) + Remainder(rows, start, limit)
  {
  }

  // A snapshot with rows in it was pinned to a real sequence number.
  lemma SnapshotPinned(table: seq<Row>, snapshot: nat)
    requires UniqueSeq(table) && forall i :: 0 <= i < |table| ==> table[i].seqNo > 0
    ensures Sort(Snapshot(table, snapshot)) != [] ==> snapshot > 0 && table != []
  {
    SnapshotNotEmpty(table, snapshot);
  }

  lemma {:induction false} SnapshotNotEmpty(table: seq<Row>, snapshot: nat)
    requires forall i :: 0 <= i < |table| ==> table[i].seqNo > 0
    ensures Snapshot(table, snapshot) != [] ==> snapshot > 0
  {
    if table != [] { SnapshotNotEmpty(table[1..], snapshot); }
  }

  // ---- What the client gets ----

  // At every page boundary the next row passes the truncated cursor.
  ghost predicate NoGap(rows: seq<Row>, start: nat, limit: nat)
    requires limit >= 1
    decreases |rows| - start
  {
    start + limit < |rows| ==> After(CursorOf(rows[start + limit - 1]), rows[start + limit]) && NoGap(rows, start + limit, limit)
  }

  // Following the cursors never returns a row twice or out of order, and it
  // returns the whole snapshot if and only if there is no gap at a boundary.
  lemma {:induction false} WalkExact(rows: seq<Row>, start: nat, limit: nat)
    requires limit >= 1 && Descending(rows) && start <= |rows|
    ensures |Walk(rows, start, limit)| <= |rows| - start
    ensures NoGap(rows, start, limit) ==> Walk(rows, start, limit) == rows[start..]
    ensures !NoGap(rows, start, limit) ==> |Walk(rows, start, limit)| < |rows| - start
    decreases |rows| - start
  {
    hide Descending, NextStart, After, CursorOf, Walk, NoGap;
    WalkUnfolds(rows, start, limit);
    if start + limit < |rows| {
      var end, next := start + limit, NextStart(rows, start + limit - 1);
      NextStartAfter(rows, end - 1);
      WalkExact(rows, next, limit);
      var rest := Walk(rows, next, limit);
      assert |rows[start..end] + rest| == limit + |rest|;
      JoinAt(rows, start, end);
    }
  }

  // One page of the walk, and one boundary of the condition.
  lemma WalkUnfolds(rows: seq<Row>, start: nat, limit: nat)
    requires limit >= 1 && Descending(rows) && start <= |rows|
    ensures start + limit >= |rows| ==> NoGap(rows, start, limit) && Walk(rows, start, limit) == rows[start..]
    ensures start + limit < |rows| ==>
      && NextStart(rows, start + limit - 1) <= |rows|
      && Walk(rows, start, limit) == rows[start..start + limit] + Walk(rows, NextStart(rows, start + limit - 1), limit)
      && (NoGap(rows, start, limit) <==>
            After(CursorOf(rows[start + limit - 1]), rows[start + limit]) && NoGap(rows, start + limit, limit))
  {
    hide Descending, NextStart, After, CursorOf;
    if start + limit < |rows| { NextStartAfter(rows, start + limit - 1); }
  }

  lemma JoinAt(rows: seq<Row>, start: nat, end: nat)
    requires start <= end <= |rows|
    ensures rows[start..end] + rows[end..] == rows[start..]
  {
  }

  lemma {:induction false} WalkOrdered(rows: seq<Row>, start: nat, limit: nat)
    requires limit >= 1 && Descending(rows) && start <= |rows|
    ensures Descending(Walk(rows, start, limit))
    ensures forall r :: r in Walk(rows, start, limit) ==> r in rows[start..]
    decreases |rows| - start
  {
    hide NextStart, Before;
    if start + limit < |rows| {
      var next := NextStart(rows, start + limit - 1);
      NextStartAfter(rows, start + limit - 1);
      WalkOrdered(rows, next, limit);
      var head, tail := rows[start..start + limit], Walk(rows, next, limit);
      HeadBeforeTail(rows, start, start + limit, next, tail);
      DescendingConcat(head, tail);
      SlicesWithin(rows, start, start + limit, next);
      forall r | r in head + tail ensures r in rows[start..] {
        assert r in head || r in rows[next..];
      }
    }
  }

  lemma SlicesWithin(rows: seq<Row>, start: nat, end: nat, next: nat)
    requires start <= end <= next <= |rows|
    ensures forall r :: r in rows[start..end] || r in rows[next..] ==> r in rows[start..]
  {
  }

  lemma HeadBeforeTail(rows: seq<Row>, lo: nat, hi: nat, next: nat, tail: seq<Row>)
    requires Descending(rows) && lo <= hi <= next <= |rows| && forall r :: r in tail ==> r in rows[next..]
    ensures forall i, j :: 0 <= i < hi - lo && 0 <= j < |tail| ==> Before(rows[lo..hi][i], tail[j])
  {
    hide Before;
    forall i, j | 0 <= i < hi - lo && 0 <= j < |tail| ensures Before(rows[lo..hi][i], tail[j]) {
      assert tail[j] in rows[next..];
      var q :| next <= q < |rows| && rows[q] == tail[j];
      assert Before(rows[lo + i], rows[q]);
    }
  }

  lemma DescendingConcat(a: seq<Row>, b: seq<Row>)
    requires Descending(a) && Descending(b) && forall i, j :: 0 <= i < |a| && 0 <= j < |b| ==> Before(a[i], b[j])
    ensures Descending(a + b)
  {
  }

  // The result as a whole: exactly the matching rows up to the snapshot, each
  // once, newest first, as many as the reported total, if and only if no page
  // boundary falls into a gap.
  lemma SnapshotEnumerated(table: seq<Row>, limit: nat)
    requires limit >= 1 && UniqueSeq(table)
    ensures
      var visible := Snapshot(table, MaxSeq(table));
      var rows := Sort(visible);
      && Descending(rows) && multiset(rows) == multiset(visible) && |rows| == |visible|
      && (forall r :: r in visible <==> r in table && r.matches)
      && Descending(Walk(rows, 0, limit))
      && (Walk(rows, 0, limit) == rows <==> NoGap(rows, 0, limit))
      && (|Walk(rows, 0, limit)| == |visible| <==> NoGap(rows, 0, limit))
  {
    SnapshotUnique(table, MaxSeq(table));
    SortDescending(Snapshot(table, MaxSeq(table)));
    var rows := Sort(Snapshot(table, MaxSeq(table)));
    forall r ensures r in Snapshot(table, MaxSeq(table)) <==> r in table && r.matches {
      SnapshotMembers(table, MaxSeq(table), r);
      if r in table { MaxSeqBound(table, r); }
    }
    WalkExact(rows, 0, limit);
    WalkOrdered(rows, 0, limit);
    assert rows[0..] == rows;
  }

  // Timestamps in whole milliseconds leave no gap, whatever the page size.
  lemma {:induction false} MillisecondsSuffice(rows: seq<Row>, start: nat, limit: nat)
    requires limit >= 1 && Descending(rows) && forall i :: 0 <= i < |rows| ==> rows[i].createdAt % 1000 == 0
    ensures NoGap(rows, start, limit)
    decreases |rows| - start
  {
    if start + limit < |rows| {
      assert Before(rows[start + limit - 1], rows[start + limit]);
      MillisecondsSuffice(rows, start + limit, limit);
    }
  }

  // Rows of one transaction share their created_at. With microseconds in it, a
  // page boundary between them drops the rest of the transaction.
  lemma SameTransactionLost(t: nat, limit: nat, n: nat)
    requires t % 1000 != 0 && 1 <= limit < n
    ensures
      var rows := seq(n, i requires 0 <= i < n => Row(n - i, t, true));
      Descending(rows) && Walk(rows, 0, limit) == rows[..limit]
  {
    var rows := seq(n, i requires 0 <= i < n => Row(n - i, t, true));
    var c := CursorOf(rows[limit - 1]);
    assert forall i :: 0 <= i < n ==> !After(c, rows[i]);
    SkippedAtLeast(rows, c, n);
    assert NextStart(rows, limit - 1) == n;
    assert Walk(rows, n, limit) == [];
    assert rows[0..limit] + [] == rows[..limit];
  }
}
