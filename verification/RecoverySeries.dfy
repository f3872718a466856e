/** Workload rows of one run: merging the reports into one series, and the business frames a series leaves out. */
module RecoverySeries {
  import opened Wrappers

  /** The required workload columns; serial is the business frame. The reader asks the other columns only to be finite. */
  datatype Row = Row(epoch: nat, serial: nat, renderSerial: real, casters: real, captured: real, skipped: real,
                     receiver: real, hasReceiver: real, submitted: real, reused: real, partial: real)

  datatype Union = Union(rows: seq<Row>, duplicates: nat)

  // All rows of all reports, in reading order

  function AllRows(reports: seq<seq<Row>>): seq<Row> {
    if reports == [] then [] else AllRows(reports[..|reports| - 1]) + reports[|reports| - 1]
  }

  ghost predicate Conflict(rows: seq<Row>) {
    exists i, j | 0 <= i < |rows| && 0 <= j < |rows| :: rows[i].serial == rows[j].serial && rows[i] != rows[j]
  }

  ghost predicate Ascending(rows: seq<Row>) {
    forall i, j | 0 <= i < j < |rows| :: rows[i].serial < rows[j].serial
  }

  ghost predicate SameElements(a: seq<Row>, b: seq<Row>) {
    forall r :: r in a <==> r in b
  }

  /** What the union of these rows must be: each row once, by business frame. */
  ghost predicate IsUnion(u: Union, rows: seq<Row>) {
    Ascending(u.rows) && SameElements(u.rows, rows) && |u.rows| + u.duplicates == |rows|
  }

  // Sorting business frames

  ghost predicate Sorted(s: seq<nat>) {
    forall i, j | 0 <= i < j < |s| :: s[i] < s[j]
  }

  function Insert(x: nat, s: seq<nat>): seq<nat> {
    if s == [] || s[|s| - 1] < x then s + [x] else Insert(x, s[..|s| - 1]) + [s[|s| - 1]]
  }

  lemma {:induction false} InsertSorts(x: nat, s: seq<nat>)
    requires Sorted(s) && x !in s
    ensures Sorted(Insert(x, s)) && |Insert(x, s)| == |s| + 1
    ensures forall y :: y in Insert(x, s) <==> y == x || y in s
  {
    if s != [] && s[|s| - 1] > x {
      var n := |s| - 1;
      InsertSorts(x, s[..n]);
      assert s == s[..n] + [s[n]];
      forall i | 0 <= i < |Insert(x, s[..n])| ensures Insert(x, s[..n])[i] < s[n] {
        assert Insert(x, s[..n])[i] in Insert(x, s[..n]);
      }
    }
  }

  function SortSerials(s: seq<nat>): seq<nat> {
    if s == [] then [] else Insert(s[|s| - 1], SortSerials(s[..|s| - 1]))
  }

  ghost predicate Distinct(s: seq<nat>) {
    forall i, j | 0 <= i < j < |s| :: s[i] != s[j]
  }

  lemma {:induction false} SortSorts(s: seq<nat>)
    requires Distinct(s)
    ensures Sorted(SortSerials(s)) && |SortSerials(s)| == |s| && forall y :: y in SortSerials(s) <==> y in s
  {
    if s != [] {
      var n := |s| - 1;
      SortSorts(s[..n]);
      assert s == s[..n] + [s[n]];
      InsertSorts(s[n], SortSerials(s[..n]));
    }
  }

  // Merging

  /** The dictionary of rows by business frame, its keys in insertion order, and what has been seen of `rows`. */
  ghost predicate Merged(merged: map<nat, Row>, order: seq<nat>, duplicates: nat, conflict: bool, rows: seq<Row>) {
    && Distinct(order) && (forall k :: k in order <==> k in merged) && |order| + duplicates == |rows|
    && (forall k | k in merged :: merged[k].serial == k && merged[k] in rows)
    && (forall r | r in rows :: r.serial in merged)
    && (conflict <==> exists r | r in rows :: merged[r.serial] != r)
  }

  method MergeRow(merged: map<nat, Row>, order: seq<nat>, duplicates: nat, conflict: bool, ghost rows: seq<Row>, row: Row)
    returns (merged': map<nat, Row>, order': seq<nat>, duplicates': nat, conflict': bool)
    requires Merged(merged, order, duplicates, conflict, rows)
    ensures Merged(merged', order', duplicates', conflict', rows + [row])
  {
    merged', order', duplicates', conflict' := merged, order, duplicates, conflict;
    if row.serial !in merged {
      merged' := merged[row.serial := row];
      order' := order + [row.serial];
    } else {
      duplicates' := duplicates + 1;
      if merged[row.serial] != row {
        conflict' := true;
      }
    }
    forall r | r in rows + [row] ensures r.serial in merged' && (r in rows || r == row) {}
    assert row in rows + [row];
    assert forall r | r in rows :: r in rows + [row];
  }

  lemma MergedOrder(merged: map<nat, Row>, order: seq<nat>, duplicates: nat, rows: seq<Row>)
    requires Merged(merged, order, duplicates, false, rows)
    ensures Distinct(order) && forall k :: k in order <==> k in merged
  {
  }

  lemma NothingMerged()
    ensures Merged(map[], [], 0, false, [])
  {
  }

  /** Merges the reports of a run; None where the source raises for conflicting duplicates. */
  method MergeRunSeries(reports: seq<seq<Row>>) returns (r: Option<Union>)
    ensures r.None? <==> Conflict(AllRows(reports))
    ensures r.Some? ==> IsUnion(r.value, AllRows(reports))
  {
    hide Merged, Conflict, IsUnion;
    var merged: map<nat, Row>, order: seq<nat>, duplicates, conflict := map[], [], 0, false;
    NothingMerged();
    for k := 0 to |reports|
      invariant Merged(merged, order, duplicates, conflict, AllRows(reports[..k]))
    {
      assert reports[..k + 1][..k] == reports[..k];
      ghost var before := AllRows(reports[..k]);
      var report := reports[k];
      assert before + report[..0] == before;
      for i := 0 to |report|
        invariant Merged(merged, order, duplicates, conflict, before + report[..i])
      {
        merged, order, duplicates, conflict :=
          MergeRow(merged, order, duplicates, conflict, before + report[..i], report[i]);
        assert before + report[..i] + [report[i]] == before + report[..i + 1];
      }
      assert report[..|report|] == report;
    }
    assert reports[..|reports|] == reports;
    ghost var rows := AllRows(reports);
    ConflictIsSeen(merged, order, duplicates, conflict, rows);
    if conflict {
      return None;
    }
    MergedOrder(merged, order, duplicates, rows);
    var union := Collect(merged, order);
    UnionOfMerged(merged, order, duplicates, rows, union);
    return Some(Union(union, duplicates));
  }

  lemma ConflictIsSeen(merged: map<nat, Row>, order: seq<nat>, duplicates: nat, conflict: bool, rows: seq<Row>)
    requires Merged(merged, order, duplicates, conflict, rows)
    ensures conflict <==> Conflict(rows)
  {
    if conflict {
      var r :| r in rows && merged[r.serial] != r;
      var i :| 0 <= i < |rows| && rows[i] == r;
      var j :| 0 <= j < |rows| && rows[j] == merged[r.serial];
    }
  }

  ghost predicate RowsOf(union: seq<Row>, merged: map<nat, Row>, serials: seq<nat>) {
    && |union| == |serials|
    && forall i | 0 <= i < |union| :: serials[i] in merged && union[i] == merged[serials[i]]
  }

  method Collect(merged: map<nat, Row>, order: seq<nat>) returns (rows: seq<Row>)
    requires Distinct(order) && (forall k :: k in order <==> k in merged)
    ensures RowsOf(rows, merged, SortSerials(order))
  {
    SortSorts(order);
    var serials := SortSerials(order);
    rows := [];
    for i := 0 to |serials|
      invariant RowsOf(rows, merged, serials[..i])
    {
      assert serials[i] in serials;
      rows := rows + [merged[serials[i]]];
    }
    assert serials[..|serials|] == serials;
  }

  lemma UnionOfMerged(merged: map<nat, Row>, order: seq<nat>, duplicates: nat, rows: seq<Row>, union: seq<Row>)
    requires Merged(merged, order, duplicates, false, rows) && RowsOf(union, merged, SortSerials(order))
    ensures IsUnion(Union(union, duplicates), rows)
  {
    SortSorts(order);
    var serials := SortSerials(order);
    forall r | r in union ensures r in rows {
      var i :| 0 <= i < |union| && union[i] == r;
      assert serials[i] in merged;
    }
    forall r | r in rows ensures r in union {
      assert r.serial in serials;
      var i :| 0 <= i < |serials| && serials[i] == r.serial;
      assert union[i] == r;
    }
  }

  // The union does not depend on the order of the reports

  lemma {:induction false} AscendingDetermined(a: seq<Row>, b: seq<Row>)
    requires Ascending(a) && Ascending(b) && SameElements(a, b)
    ensures a == b
  {
    if a != [] {
      SameLast(a, b);
      var n, m := |a| - 1, |b| - 1;
      WithoutLast(a, b);
      WithoutLast(b, a);
      AscendingDetermined(a[..n], b[..m]);
      assert a == a[..n] + [a[n]] && b == b[..m] + [b[m]];
    } else if b != [] {
      SameLast(b, a);
    }
  }

  lemma SameLast(a: seq<Row>, b: seq<Row>)
    requires a != [] && Ascending(a) && Ascending(b) && SameElements(a, b)
    ensures b != [] && a[|a| - 1] == b[|b| - 1]
  {
    assert a[|a| - 1] in a;
    assert b[|b| - 1] in b;
    LastIsLargest(a, b[|b| - 1]);
    LastIsLargest(b, a[|a| - 1]);
  }

  lemma LastIsLargest(a: seq<Row>, r: Row)
    requires Ascending(a) && r in a
    ensures r.serial <= a[|a| - 1].serial && (r.serial == a[|a| - 1].serial ==> r == a[|a| - 1])
  {
    var i :| 0 <= i < |a| && a[i] == r;
  }

  lemma WithoutLast(a: seq<Row>, b: seq<Row>)
    requires a != [] && b != [] && Ascending(a) && SameElements(a, b) && a[|a| - 1] == b[|b| - 1]
    ensures var earlier, others := a[..|a| - 1], b[..|b| - 1]; forall r :: r in earlier ==> r in others
  {
    var earlier, others := a[..|a| - 1], b[..|b| - 1];
    forall r | r in earlier ensures r in others {
      var i :| 0 <= i < |a| - 1 && a[i] == r;
      assert r in b;
      var j :| 0 <= j < |b| && b[j] == r;
    }
  }

  /** Reports in any order, and rows spread over them in any way: the same rows conflict or merge to the same union, with
      the same number of duplicates. */
  lemma MergeIgnoresOrder(a: seq<seq<Row>>, b: seq<seq<Row>>, u: Union, v: Union)
    requires multiset(AllRows(a)) == multiset(AllRows(b))
    requires IsUnion(u, AllRows(a)) && IsUnion(v, AllRows(b))
    ensures u == v
    ensures Conflict(AllRows(a)) <==> Conflict(AllRows(b))
  {
    SameRows(AllRows(a), AllRows(b));
    SameRows(AllRows(b), AllRows(a));
    AscendingDetermined(u.rows, v.rows);
    assert |multiset(AllRows(a))| == |multiset(AllRows(b))|;
  }

  lemma SameRows(a: seq<Row>, b: seq<Row>)
    requires multiset(a) == multiset(b)
    ensures forall r :: r in a ==> r in b
    ensures Conflict(a) ==> Conflict(b)
  {
    forall r | r in a ensures r in b {
      assert r in multiset(a);
    }
    if Conflict(a) {
      var i, j :| 0 <= i < |a| && 0 <= j < |a| && a[i].serial == a[j].serial && a[i] != a[j];
      assert a[i] in b && a[j] in b;
      var k :| 0 <= k < |b| && b[k] == a[i];
      var l :| 0 <= l < |b| && b[l] == a[j];
    }
  }

  // Frames the series leaves out

  datatype Gap = Gap(first: int, last: int)

  predicate Present(rows: seq<Row>, frame: int) {
    exists i | 0 <= i < |rows| :: rows[i].serial == frame
  }

  predicate InGap(gaps: seq<Gap>, frame: int) {
    exists k | 0 <= k < |gaps| :: gaps[k].first <= frame <= gaps[k].last
  }

  /** The gaps are the maximal runs of missing frames in [start, end), in order. */
  ghost predicate GapsOf(gaps: seq<Gap>, rows: seq<Row>, start: int, end: int) {
    && (forall f | start <= f < end :: InGap(gaps, f) <==> !Present(rows, f))
    && (forall k | 0 <= k < |gaps| :: start <= gaps[k].first <= gaps[k].last < end)
    && (forall k, l | 0 <= k < l < |gaps| :: gaps[k].last + 1 < gaps[l].first)
  }

  method IsPresent(rows: seq<Row>, frame: int) returns (present: bool)
    ensures present <==> Present(rows, frame)
  {
    present := false;
    for i := 0 to |rows|
      invariant present <==> exists j | 0 <= j < i :: rows[j].serial == frame
    {
      if rows[i].serial == frame {
        present := true;
      }
    }
  }

  method CoverageGaps(rows: seq<Row>, start: int, end: int) returns (gaps: seq<Gap>)
    ensures GapsOf(gaps, rows, start, end + 1)
  {
    gaps := [];
    var frame := start;
    while frame <= end
      invariant start <= frame && (frame <= end + 1 || frame == start)
      invariant start <= end + 1 ==> GapsOf(gaps, rows, start, frame)
      invariant start > end + 1 ==> gaps == []
    {
      var present := IsPresent(rows, frame);
      if !present {
        gaps := ExtendGaps(gaps, rows, start, frame);
      } else {
        assert GapsOf(gaps, rows, start, frame + 1);
      }
      frame := frame + 1;
    }
  }

  method ExtendGaps(gaps: seq<Gap>, rows: seq<Row>, start: int, frame: int) returns (longer: seq<Gap>)
    requires GapsOf(gaps, rows, start, frame) && start <= frame && !Present(rows, frame)
    ensures GapsOf(longer, rows, start, frame + 1)
  {
    var n := |gaps| - 1;
    if n >= 0 && frame == gaps[n].last + 1 {
      longer := gaps[n := Gap(gaps[n].first, frame)];
    } else {
      longer := gaps + [Gap(frame, frame)];
    }
    forall f | start <= f < frame + 1 ensures InGap(longer, f) <==> !Present(rows, f) {
      SameGaps(gaps, longer, f, frame);
    }
  }

  lemma SameGaps(gaps: seq<Gap>, longer: seq<Gap>, f: int, frame: int)
    requires |longer| >= 1 && longer[|longer| - 1].last == frame && longer[|longer| - 1].first <= frame
    requires var n := |longer| - 1;
      || (gaps == longer[..n] && longer[n].first == frame)
      || (|gaps| == n + 1 && gaps[..n] == longer[..n] && gaps[n].first == longer[n].first && gaps[n].last + 1 == frame)
    ensures f < frame ==> (InGap(longer, f) <==> InGap(gaps, f))
    ensures f == frame ==> InGap(longer, f)
  {
    var n := |longer| - 1;
    if InGap(gaps, f) {
      var k :| 0 <= k < |gaps| && gaps[k].first <= f <= gaps[k].last;
      assert k < n ==> longer[k] == longer[..n][k];
      assert longer[k].first <= f <= longer[k].last;
    }
    if f < frame && InGap(longer, f) {
      var k :| 0 <= k < |longer| && longer[k].first <= f <= longer[k].last;
      assert k < n ==> longer[k] == longer[..n][k];
      assert k < n ==> gaps[k] == gaps[..n][k];
      assert gaps[k].first <= f <= gaps[k].last;
    }
  }
}
