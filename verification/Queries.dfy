/** Answering an aggregate query: from the rollup when it is eligible, from raw samples
    otherwise, with one specification for both. */
module Queries {
  import opened Options
  import opened Calendar
  import opened Aggregates
  import opened Tables
  import opened Scan
  import opened Partials
  import opened Downsample
  import opened FastPath
  import RollupRuns
  import RollupAgreement
  import WritePath

  // ---------------------------------------------------------------------
  // The fast path as it runs
  // ---------------------------------------------------------------------

  method GroupCells(rollup: map<Cell, Agg>, C: set<Cell>, b: Option<int>) returns (m: map<Option<int>, Agg>)
    requires IsBucket(b) && forall c :: c in C ==> c in rollup
    ensures m == GroupBy(C, CellKey(b), CellAgg(rollup))
  {
    m := map[];
    var todo := C;
    ghost var done: set<Cell> := {};
    assert GroupBy(done, CellKey(b), CellAgg(rollup)) == map[];
    while todo != {}
      invariant done !! todo && done + todo == C
      invariant m == GroupBy(done, CellKey(b), CellAgg(rollup))
    {
      var c :| c in todo;
      GroupByAdd(done, CellKey(b), CellAgg(rollup), c);
      var k := CellKey(b)(c);
      m := m[k := Merge(At(m, k), rollup[c])];
      todo, done := todo - {c}, done + {c};
    }
    assert done == C;
  }

  method ListPartials(m: map<Option<int>, Agg>) returns (parts: seq<Part>)
    ensures PartsOf(parts, m)
  {
    parts := [];
    var todo := m.Keys;
    while todo != {}
      invariant todo <= m.Keys
      invariant forall i, j :: 0 <= i < j < |parts| ==> parts[i].0 != parts[j].0
      invariant forall i :: 0 <= i < |parts| ==> parts[i].0 in m.Keys - todo && m[parts[i].0] == parts[i].1
      invariant forall k :: k in m && k !in todo ==> exists i :: 0 <= i < |parts| && parts[i].0 == k
    {
      var k :| k in todo;
      ghost var before := parts;
      parts, todo := parts + [(k, m[k])], todo - {k};
      forall l | l in m && l !in todo
        ensures exists i :: 0 <= i < |parts| && parts[i].0 == l
      {
        if l == k {
          assert parts[|before|].0 == l;
        } else {
          var i :| 0 <= i < |before| && before[i].0 == l;
          assert parts[i].0 == l;
        }
      }
    }
  }

  method QueryRollupPartial(rollup: map<Cell, Agg>, ids: set<int>, lo: int, hi: int, b: Option<int>) returns (parts: seq<Part>)
    requires IsBucket(b)
    ensures PartsOf(parts, RollupPartial(rollup, ids, lo, hi, b))
  {
    var m := GroupCells(rollup, CellsIn(rollup, ids, lo, hi), b);
    parts := ListPartials(m);
  }

  lemma EmptyMerge(m: map<Option<int>, Agg>)
    ensures MergeMaps(map[], m) == m && MergeMaps(m, map[]) == m
  {
    forall j | j in m
      ensures Merge(m[j], Empty) == m[j]
    {
      MergeCommutes(m[j], Empty);
    }
  }

  lemma ThreeGroups(l: seq<Part>, r: seq<Part>, m: seq<Part>, L: map<Option<int>, Agg>, R: map<Option<int>, Agg>, M: map<Option<int>, Agg>)
    requires PartsOf(l, L) && PartsOf(r, R) && PartsOf(m, M)
    ensures MergeGroups([l, r, m]) == MergeMaps(MergeMaps(L, R), M)
  {
    assert [l, r, m][..2] == [l, r] && [l, r][..1] == [l] && [l][..0] == [];
    assert MergeGroups([l]) == MergeParts(map[], l);
    MergePartsIsMerge(map[], l, L);
    EmptyMerge(L);
    MergePartsIsMerge(L, r, R);
    MergePartsIsMerge(MergeMaps(L, R), m, M);
  }

  lemma ListedSet(rows: seq<Row>, S: set<Row>)
    requires Lists(rows, S)
    ensures WritePath.RowSet(rows) == S
  {}

  /** An edge hour: its partials, or None if it has more rows than the cap allows. */
  method EdgePartials(t: Partitions, q: Query, wanted: bool, b: Option<int>, cap: int, ghost S: set<Row>)
    returns (parts: Option<seq<Part>>)
    requires ValidTables(t) && IsBucket(b) && S == if wanted then Selected(t, q) else {}
    ensures parts.None? <==> cap > 0 && |S| > cap
    ensures parts.Some? ==> PartsOf(parts.value, Reference(S, b))
  {
    var rows: seq<Row> := [];
    if wanted {
      var fetched := Fetch(t, q, cap, None, Asc);
      if fetched.None? {
        return None;
      }
      rows := fetched.value;
      FullScanLists(rows, S, Asc, None);
    }
    ListedSet(rows, S);
    var listed := BucketPartials(rows, b);
    return Some(listed);
  }

  /** The rolled middle, if the window has one. */
  method MiddleParts(db: Db, q: Query, now: int, b: Option<int>) returns (parts: seq<Part>)
    requires IsBucket(b)
    ensures PartsOf(parts, MiddlePartial(db, q, now, b))
  {
    parts := [];
    if HasMiddle(q, now) {
      MiddleIsRollup(db, q, now, b);
      parts := QueryRollupPartial(db.rollup, q.ids, StartHour(q) + HOUR_NS, EndHour(q, now), b);
    } else {
      assert MiddlePartial(db, q, now, b) == map[];
    }
  }

  /** An edge of the window is larger than the row cap. */
  ghost predicate EdgeTooLarge(t: Partitions, q: Query, now: int, cap: int) {
    cap > 0 && (|LeftRows(t, q, now)| > cap || |RightRows(t, q, now)| > cap)
  }

  /** `_rollup_window_partials`: partials merged from the left edge, the right edge and the
      rolled middle, or None if an edge exceeds the cap. */
  method RollupWindowPartials(db: Db, q: Query, now: int, b: Option<int>, cap: int) returns (merged: Option<map<Option<int>, Agg>>)
    requires ValidTables(db.tables) && IsBucket(b)
    ensures merged.None? <==> EdgeTooLarge(db.tables, q, now, cap)
    ensures merged.Some? ==> merged.value == FastPartials(db, q, now, b)
  {
    ghost var L, R := LeftRows(db.tables, q, now), RightRows(db.tables, q, now);
    var left := EdgePartials(db.tables, LeftQuery(q, now), HasLeft(q, now), b, cap, L);
    if left.None? {
      return None;
    }
    var right := EdgePartials(db.tables, RightQuery(q, now), HasRight(q, now), b, cap, R);
    if right.None? {
      return None;
    }
    var middle := MiddleParts(db, q, now, b);
    ThreeGroups(left.value, right.value, middle, Reference(L, b), Reference(R, b), MiddlePartial(db, q, now, b));
    var m := MergePartials([left.value, right.value, middle]);
    return Some(m);
  }

  // ---------------------------------------------------------------------
  // What the answer must be
  // ---------------------------------------------------------------------

  /** The answer to an aggregate query over the rows `S`, before any limit: one entry per
      bucket, or one entry at the oldest sample for the whole window. */
  ghost predicate RightAnswer(out: Answer, S: set<Row>, fn: Func, b: Option<int>)
    requires IsBucket(b)
  {
    if b.Some? then
      NonemptyPartials(Reference(S, b)) && IsAnswer(out, Reference(S, b), fn)
    else if S == {} then out == []
    else
      && |out| == 1 && IsFirst(S, Some(out[0].0))
      && AggRows(S).Stats? && AggRows(S).count >= 1 && out[0].1 == Value(fn, AggRows(S))
  }

  /** The rows determine the answer. */
  lemma RightAnswerIsUnique(x: Answer, y: Answer, S: set<Row>, fn: Func, b: Option<int>)
    requires IsBucket(b) && RightAnswer(x, S, fn, b) && RightAnswer(y, S, fn, b)
    ensures x == y
  {
    if b.Some? {
      AnswersAgree(x, y, Reference(S, b), fn);
    } else if S != {} {
      var r :| r in S && r.ts == x[0].0;
      var r' :| r' in S && r'.ts == y[0].0;
      assert x[0] == y[0];
    }
  }

  /** Where a whole-window answer is anchored: at the oldest sample of the query, or at its
      start if there is none. */
  ghost predicate IsAnchor(S: set<Row>, q: Query, ts: int) {
    if S == {} then ts == if q.start.Some? then q.start.value else 0 else IsFirst(S, Some(ts))
  }

  /** The answer read off the fast path's partials, before any limit. */
  ghost predicate FastAnswer(out: Answer, db: Db, q: Query, now: int, fn: Func, b: Option<int>)
    requires IsBucket(b)
  {
    var m := FastPartials(db, q, now, b);
    && NonemptyPartials(m)
    && (if b.Some? then IsAnswer(out, m, fn)
        else if m == map[] then out == []
        else None in m && |out| == 1 && IsAnchor(Selected(db.tables, q), q, out[0].0) && out[0].1 == Value(fn, m[None]))
  }

  /** The rolled hours the query reads are exact. */
  ghost predicate HoursExact(db: Db, q: Query, now: int) {
    Exact(db, q.ids, StartHour(q) + HOUR_NS, EndHour(q, now))
  }

  /** They are, and none of them lies strictly inside a bucket before the epoch. */
  ghost predicate RollupSound(db: Db, q: Query, now: int, b: Option<int>)
    requires IsBucket(b)
  {
    HoursExact(db, q, now) && BucketSafe(db.rollup, q.ids, StartHour(q) + HOUR_NS, EndHour(q, now), b)
  }

  /** Over a sound rollup the fast answer is the answer of the samples in the window. */
  lemma FastAnswerIsRight(out: Answer, db: Db, q: Query, now: int, fn: Func, b: Option<int>)
    requires IsBucket(b) && Eligible(db.watermark, q, now, b) && RollupSound(db, q, now, b)
    requires FastAnswer(out, db, q, now, fn, b)
    ensures RightAnswer(out, Selected(db.tables, Window(q, now)), fn, b)
  {
    var S := Selected(db.tables, Window(q, now));
    FastPartialsExactWhen(db, q, now, b);
    if b.None? {
      WholeWindowReference(S);
      if S != {} {
        var r :| r in S;
        assert r in Selected(db.tables, q);
        assert None in Reference(S, None);
        AggRowsMeaning(S);
        FirstInWindow(db.tables, q, now, Some(out[0].0));
      }
    }
  }

  /** `_query_rollup`. The limit applies to buckets only. */
  method QueryRollup(db: Db, q: Query, now: int, fn: Func, b: Option<int>, limit: Option<int>, cap: int)
    returns (out: Option<Answer>, ghost full: Answer)
    requires ValidTables(db.tables) && ValidRollup(db.rollup) && IsBucket(b)
    ensures out.None? <==> EdgeTooLarge(db.tables, q, now, cap)
    ensures out.Some? ==> FastAnswer(full, db, q, now, fn, b)
    ensures out.Some? ==> if b.Some? then TakesFirst(out.value, full, limit) else out.value == full
  {
    FastPartialsShape(db, q, now, b);
    var merged := RollupWindowPartials(db, q, now, b, cap);
    if merged.None? {
      return None, [];
    }
    if b.Some? {
      var rows;
      rows, full := FinalizeBuckets(merged.value, fn, limit);
      return Some(rows), full;
    }
    if merged.value == map[] {
      return Some([]), [];
    }
    OnlyWholeWindow(merged.value);
    var first := FirstSampleTs(db.tables, q);
    var anchor := if first.Some? then first.value else if q.start.Some? then q.start.value else 0;
    full := [(anchor, Value(fn, merged.value[None]))];
    return Some([(anchor, Value(fn, merged.value[None]))]), full;
  }

  lemma OnlyWholeWindow(m: map<Option<int>, Agg>)
    requires m != map[] && forall k :: k in m ==> k.None?
    ensures None in m
  {
    var k :| k in m;
  }

  /** The anchor is looked up without the clock bound; a nonempty window still has the
      same first sample. */
  lemma FirstInWindow(t: Partitions, q: Query, now: int, first: Option<int>)
    requires IsFirst(Selected(t, q), first) && Selected(t, Window(q, now)) != {}
    ensures first.Some? && IsFirst(Selected(t, Window(q, now)), first)
  {
    var r :| r in Selected(t, Window(q, now));
    assert r in Selected(t, q);
    var f :| f in Selected(t, q) && f.ts == first.value;
    assert f in Selected(t, Window(q, now));
  }

  /** The month of the oldest sample holds no later one. */
  ghost predicate OldestMonthFlat(S: set<Row>) {
    forall r, s :: r in S && s in S && IsFirst(S, Some(r.ts)) && MonthOf(s.ts) == MonthOf(r.ts) ==> s.ts == r.ts
  }

  /** Where the raw path anchors a whole window, it anchors it at the oldest sample. */
  ghost predicate AnchorSafe(S: set<Row>, b: Option<int>, order: Order) {
    b.Some? || !order.Other? || OldestMonthFlat(S)
  }

  /** The raw paths: SQL downsampling for buckets, a full fetch for the whole window. With
      any order but `asc` and `desc` a whole window is anchored at the newest sample of its
      oldest month. */
  method QueryRaw(t: Partitions, q: Query, fn: Func, b: Option<int>, limit: Option<int>, order: Order, cap: int)
    returns (out: Option<Answer>, ghost full: Answer)
    requires ValidTables(t) && IsBucket(b)
    ensures out.None? <==> RawTooLarge(t, q, b, cap)
    ensures out.Some? ==> TakesFirst(out.value, full, limit)
    ensures out.Some? ==> (RightAnswer(full, Selected(t, q), fn, b) <==> AnchorSafe(Selected(t, q), b, order))
  {
    if b.Some? {
      var rows := DownsampleSql(t, q, b.value, fn, cap);
      if rows.None? {
        return None, [];
      }
      return Some(Slice(rows.value, limit)), rows.value;
    }
    out := QueryWholeRaw(t, q, fn, order, cap);
    if out.None? {
      return None, [];
    }
    return Some(Slice(out.value, limit)), out.value;
  }

  /** The raw path without buckets, before any limit. */
  method QueryWholeRaw(t: Partitions, q: Query, fn: Func, order: Order, cap: int) returns (out: Option<Answer>)
    requires ValidTables(t)
    ensures out.None? <==> RawTooLarge(t, q, None, cap)
    ensures out.Some? ==> (RightAnswer(out.value, Selected(t, q), fn, None) <==> AnchorSafe(Selected(t, q), None, order))
  {
    var rows := Fetch(t, q, cap, None, order);
    if rows.None? {
      return None;
    }
    WholeFromScan(rows.value, Selected(t, q), order, fn);
    if rows.value == [] {
      return Some([]);
    }
    var anchor := if order.Desc? then rows.value[|rows.value| - 1].ts else rows.value[0].ts;
    return Some([(anchor, ListFunc(fn, Values(rows.value)))]);
  }

  lemma WholeFromScan(rows: seq<Row>, S: set<Row>, order: Order, fn: Func)
    requires FirstRows(rows, S, order, None)
    ensures rows == [] ==> (RightAnswer([], S, fn, None) <==> AnchorSafe(S, None, order))
    ensures rows != [] ==>
              var anchor := if order.Desc? then rows[|rows| - 1].ts else rows[0].ts;
              RightAnswer([(anchor, ListFunc(fn, Values(rows)))], S, fn, None) <==> AnchorSafe(S, None, order)
  {
    FullScanLists(rows, S, order, None);
    if rows == [] {
      assert S == {};
    } else {
      WholeFromRows(rows, S, order, fn);
    }
  }

  lemma WholeFromRows(rows: seq<Row>, S: set<Row>, order: Order, fn: Func)
    requires Lists(rows, S) && Ordered(rows, order) && rows != []
    ensures var anchor := if order.Desc? then rows[|rows| - 1].ts else rows[0].ts;
            RightAnswer([(anchor, ListFunc(fn, Values(rows)))], S, fn, None) <==> AnchorSafe(S, None, order)
  {
    FoldListIsFold(rows, S);
    ListFuncIsValue(fn, rows);
    assert rows[0] in rows && S != {};
    if order.Other? {
      OtherAnchor(rows, S);
    } else {
      SortedAnchor(rows, S, order);
    }
  }

  lemma SortedAnchor(rows: seq<Row>, S: set<Row>, order: Order)
    requires Lists(rows, S) && Ordered(rows, order) && rows != [] && !order.Other?
    ensures IsFirst(S, Some(if order.Desc? then rows[|rows| - 1].ts else rows[0].ts))
  {
    var f := if order.Desc? then rows[|rows| - 1] else rows[0];
    assert f in rows;
    assert f in S;
    forall r | r in S
      ensures f.ts <= r.ts
    {
      var i :| 0 <= i < |rows| && rows[i] == r;
    }
  }

  lemma {:induction false} OldestRow(S: set<Row>) returns (r: Row)
    requires S != {}
    ensures r in S && IsFirst(S, Some(r.ts))
    decreases |S|
  {
    r :| r in S;
    if S != {r} {
      var s := OldestRow(S - {r});
      assert forall x :: x in S ==> x == r || x in S - {r};
      r := if r.ts <= s.ts then r else s;
    }
  }

  /** The first row of a whole read in another order is the newest of the oldest month. */
  lemma OtherAnchor(rows: seq<Row>, S: set<Row>)
    requires Lists(rows, S) && Ordered(rows, Other) && rows != []
    ensures IsFirst(S, Some(rows[0].ts)) <==> OldestMonthFlat(S)
  {
    var x := rows[0];
    assert x in rows;
    forall s | s in S
      ensures Before(x, s, Other)
    {
      var i :| 0 <= i < |rows| && rows[i] == s;
    }
    var f := OldestRow(S);
    if MonthOf(f.ts) != MonthOf(x.ts) {
      LaterMonth(x, f);
    }
    assert MonthOf(f.ts) == MonthOf(x.ts);
    forall r, s | r in S && s in S && IsFirst(S, Some(r.ts)) && MonthOf(s.ts) == MonthOf(r.ts)
      ensures r.ts == f.ts && s.ts <= x.ts
    {
      assert Before(x, s, Other);
    }
  }

  /** More rows, or more buckets, than the cap allows on the raw paths. */
  ghost predicate RawTooLarge(t: Partitions, q: Query, b: Option<int>, cap: int)
    requires IsBucket(b)
  {
    cap > 0 && (if b.Some? then |Image(Selected(t, q), IndexKey(b.value))| else |Selected(t, q)|) > cap
  }

  /** The rollup is sound, and no wanted sample lies past the clock if the end is open. */
  ghost predicate FastIsSafe(db: Db, q: Query, now: int, b: Option<int>)
    requires IsBucket(b)
  {
    RollupSound(db, q, now, b) && (q.end.Some? || NoneAfter(db.tables, q, now))
  }

  /** `query` with an aggregation the partials can express: the rollup when eligible, the raw
      paths otherwise. The entries are those of the samples in the window whichever ran: over
      a sound rollup, with no wanted sample past the clock if the end is open, and on the raw
      path exactly if the anchor is safe. */
  method QueryAggregate(db: Db, q: Query, now: int, fn: Func, b: Option<int>, limit: Option<int>, order: Order, cap: int)
    returns (out: Option<Answer>, ghost full: Answer)
    requires ValidTables(db.tables) && ValidRollup(db.rollup) && IsBucket(b)
    ensures out.None? <==> if Eligible(db.watermark, q, now, b) then EdgeTooLarge(db.tables, q, now, cap)
                           else RawTooLarge(db.tables, q, b, cap)
    ensures out.Some? && Eligible(db.watermark, q, now, b) && FastIsSafe(db, q, now, b) ==>
              RightAnswer(full, Selected(db.tables, q), fn, b)
    ensures out.Some? && !Eligible(db.watermark, q, now, b) ==>
              (RightAnswer(full, Selected(db.tables, q), fn, b) <==> AnchorSafe(Selected(db.tables, q), b, order))
    ensures out.Some? && (b.Some? || limit.None? || limit.value >= 1 || !Eligible(db.watermark, q, now, b)) ==> TakesFirst(out.value, full, limit)
  {
    if Eligible(db.watermark, q, now, b) {
      out, full := QueryRollup(db, q, now, fn, b, limit, cap);
      if out.Some? && FastIsSafe(db, q, now, b) {
        FastAnswerIsRight(full, db, q, now, fn, b);
        WindowIsQuery(db.tables, q, now);
      }
    } else {
      out, full := QueryRaw(db.tables, q, fn, b, limit, order, cap);
    }
  }

  // ---------------------------------------------------------------------
  // One value for the whole window
  // ---------------------------------------------------------------------

  /** The value over no samples: zero for count and sum if the caller's spelling is lower
      case, not a number (None) otherwise. */
  function EmptyValue(fn: Func, lower: bool): Option<real> {
    if lower && (fn.Count? || fn.Sum?) then Some(0.0) else None
  }

  ghost function WindowValue(S: set<Row>, fn: Func, lower: bool): Option<real> {
    FoldNonempty(S, RowAgg());
    if S == {} then EmptyValue(fn, lower) else Some(Value(fn, AggRows(S)))
  }

  lemma SafeWholeWindow(db: Db, q: Query, now: int)
    requires Eligible(db.watermark, q, now, None) && FastIsSafe(db, q, now, None)
    ensures var S := Selected(db.tables, q);
            if S == {} then FastPartials(db, q, now, None) == map[]
            else None in FastPartials(db, q, now, None) && FastPartials(db, q, now, None)[None] == AggRows(S)
  {
    FastPartialsExactWhen(db, q, now, None);
    WindowIsQuery(db.tables, q, now);
    WholeWindowReference(Selected(db.tables, q));
  }

  /** In lower case, the count and the sum of a window are the number of its samples and their
      sum, zero for none. */
  lemma WindowCounts(S: set<Row>)
    ensures WindowValue(S, Count, true) == Some(|S| as real) && WindowValue(S, Sum, true) == Some(SumRows(S))
    ensures S == {} ==> |S| == 0 && SumRows(S) == 0.0
  {
    if S != {} {
      StatsOf(S);
    }
  }

  /** Over no samples nothing else has a value. */
  lemma EmptyWindowValues(lower: bool)
    ensures WindowValue({}, Avg, lower) == WindowValue({}, Minimum, lower) == WindowValue({}, Maximum, lower) == None
    ensures WindowValue({}, Count, false) == WindowValue({}, Sum, false) == None
  {}

  /** Over some, the spelling does not matter: the count and the sum as before, the mean, and the
      tight bounds. */
  lemma WindowMeasures(S: set<Row>, lower: bool)
    requires S != {}
    ensures WindowValue(S, Count, lower) == Some(|S| as real) && WindowValue(S, Sum, lower) == Some(SumRows(S))
    ensures WindowValue(S, Avg, lower) == Some(SumRows(S) / |S| as real)
    ensures WindowValue(S, Minimum, lower).Some? && IsBound(S, WindowValue(S, Minimum, lower).value, true)
    ensures WindowValue(S, Maximum, lower).Some? && IsBound(S, WindowValue(S, Maximum, lower).value, false)
  {
    StatsOf(S);
  }

  lemma StatsOf(S: set<Row>)
    requires S != {}
    ensures AggRows(S).Stats? && AggRows(S).count == |S| && AggRows(S).sum == SumRows(S)
    ensures IsBound(S, AggRows(S).lo, true) && IsBound(S, AggRows(S).hi, false)
  {
    AggRowsMeaning(S);
  }

  /** A value of some sample that is at most, or at least, every sample's. */
  ghost predicate IsBound(S: set<Row>, v: real, low: bool) {
    (exists r :: r in S && r.value == v) && forall r :: r in S ==> if low then v <= r.value else r.value <= v
  }

  /** `_rollup_whole_window`: the value from the merged partials; the function's name was
      lower-cased before. */
  method RollupWholeWindow(db: Db, q: Query, now: int, fn: Func, cap: int) returns (value: Option<Option<real>>)
    requires ValidTables(db.tables) && ValidRollup(db.rollup) && Eligible(db.watermark, q, now, None)
    ensures value.None? <==> EdgeTooLarge(db.tables, q, now, cap)
    ensures value.Some? && FastIsSafe(db, q, now, None) ==> value.value == WindowValue(Selected(db.tables, q), fn, true)
  {
    FastPartialsShape(db, q, now, None);
    var merged := RollupWindowPartials(db, q, now, None, cap);
    if merged.None? {
      return None;
    }
    if FastIsSafe(db, q, now, None) {
      SafeWholeWindow(db, q, now);
    }
    if merged.value == map[] {
      return Some(EmptyValue(fn, true));
    }
    OnlyWholeWindow(merged.value);
    return Some(Some(Value(fn, merged.value[None])));
  }

  /** The raw branch: a counted and fetched window. */
  method RawWholeWindow(t: Partitions, q: Query, fn: Func, lower: bool, cap: int) returns (value: Option<Option<real>>)
    requires ValidTables(t)
    ensures value.None? <==> RawTooLarge(t, q, None, cap)
    ensures value.Some? ==> value.value == WindowValue(Selected(t, q), fn, lower)
  {
    var rows, _ := FetchForAggregate(t, q, cap);
    if rows.None? {
      return None;
    }
    FullScanLists(rows.value, Selected(t, q), Asc, None);
    if rows.value == [] {
      assert Selected(t, q) == {};
      return Some(EmptyValue(fn, lower));
    }
    assert rows.value[0] in Selected(t, q);
    ListFuncIsValue(fn, rows.value);
    FoldListIsFold(rows.value, Selected(t, q));
    return Some(Some(ListFunc(fn, Values(rows.value))));
  }

  /** One function of `aggregate`: from the rollup when eligible, from raw rows otherwise; None
      when the row cap refuses. The fast path lower-cases the function's name before it looks
      at an empty window, the raw path does not. */
  method AggregateOne(db: Db, q: Query, now: int, fn: Func, lower: bool, cap: int) returns (value: Option<Option<real>>)
    requires ValidTables(db.tables) && ValidRollup(db.rollup)
    ensures value.None? <==> if Eligible(db.watermark, q, now, None) then EdgeTooLarge(db.tables, q, now, cap)
                             else RawTooLarge(db.tables, q, None, cap)
    ensures value.Some? && (Eligible(db.watermark, q, now, None) ==> FastIsSafe(db, q, now, None)) ==>
              value.value == WindowValue(Selected(db.tables, q), fn, lower || Eligible(db.watermark, q, now, None))
  {
    if Eligible(db.watermark, q, now, None) {
      value := RollupWholeWindow(db, q, now, fn, cap);
    } else {
      value := RawWholeWindow(db.tables, q, fn, lower, cap);
    }
  }

  /** The two paths of `aggregate` agree on every window except an empty one asked for count
      or sum in another spelling than lower case. */
  lemma SpellingMattersWhen(S: set<Row>, fn: Func, lower: bool)
    ensures WindowValue(S, fn, true) == WindowValue(S, fn, lower) <==> S != {} || lower || !(fn.Count? || fn.Sum?)
  {}

  // ---------------------------------------------------------------------
  // Fast and raw answers compared
  // ---------------------------------------------------------------------

  /** No wanted sample is later than the clock. */
  ghost predicate NoneAfter(t: Partitions, q: Query, now: int) {
    forall r :: r in Selected(t, q) ==> r.ts <= now
  }

  lemma WindowIsQuery(t: Partitions, q: Query, now: int)
    requires q.end.Some? || NoneAfter(t, q, now)
    ensures Selected(t, Window(q, now)) == Selected(t, q)
  {}

  /** The fast path and a raw path over the same rows give the same buckets, and the same
      whole-window entry; after limits they differ exactly for a whole-window query with a
      limit below one on a nonempty window, where only the raw path drops its entry. */
  lemma FastEqualsRaw(fast: Answer, raw: Answer, S: set<Row>, fn: Func, b: Option<int>, limit: Option<int>)
    requires IsBucket(b) && RightAnswer(fast, S, fn, b) && RightAnswer(raw, S, fn, b)
    ensures fast == raw
    ensures (if b.Some? then Slice(fast, limit) else fast) == Slice(raw, limit)
       <==> b.Some? || S == {} || limit.None? || limit.value >= 1
  {
    RightAnswerIsUnique(fast, raw, S, fn, b);
  }

  /** Without an `end` the fast path stops at the clock and the raw path does not: whatever
      the buckets, their partials agree if and only if no wanted sample lies in the future. */
  lemma OpenEndAgreesWhen(t: Partitions, q: Query, now: int, b: Option<int>)
    requires q.end.None? && IsBucket(b)
    ensures Reference(Selected(t, Window(q, now)), b) == Reference(Selected(t, q), b) <==> NoneAfter(t, q, now)
  {
    var A, B := Selected(t, Window(q, now)), Selected(t, q);
    assert A <= B;
    if NoneAfter(t, q, now) {
      assert A == B;
    } else {
      var r :| r in B && r.ts > now;
      assert r !in A;
      LateRowShows(A, B, b, r);
    }
  }

  /** A row more makes its bucket count more. */
  lemma LateRowShows(A: set<Row>, B: set<Row>, b: Option<int>, r: Row)
    requires IsBucket(b) && A <= B && r in B && r !in A
    ensures Reference(A, b) != Reference(B, b)
  {
    var j := StartKey(b)(r);
    var GA, GB := Group(A, StartKey(b), j), Group(B, StartKey(b), j);
    assert r in GB && r !in GA && GA <= GB;
    GroupByAt(A, StartKey(b), RowAgg(), j);
    GroupByAt(B, StartKey(b), RowAgg(), j);
    FoldCountsLess(GA, GB, RowAgg());
  }

  /** The hours the fast path reads from the rollup: outside months awaiting retention
      cleanup, and with no wanted sample misfiled into or out of them. */
  ghost predicate ReadsCleanHours(s: RollupRuns.State, q: Query, now: int) {
    && (forall h :: IsHour(h) && StartHour(q) < h < EndHour(q, now) ==> MonthOf(h) !in s.dropping)
    && (forall c :: c in s.misfiled && c.sid in q.ids ==> !(StartHour(q) < c.hour < EndHour(q, now)))
  }

  /** Agreement, as every unbroken run keeps it, is what the fast path needs. */
  lemma AgreementMakesExact(s: RollupRuns.State, q: Query, now: int, b: Option<int>)
    requires RollupRuns.Inv(s) && RollupRuns.Agreement(s)
    requires Eligible(s.db.watermark, q, now, b) && ReadsCleanHours(s, q, now)
    ensures ValidTables(s.db.tables) && ValidRollup(s.db.rollup) && HoursExact(s.db, q, now)
  {
    forall c: Cell | IsHour(c.hour) && c.sid in q.ids && StartHour(q) + HOUR_NS <= c.hour < EndHour(q, now)
      ensures Agrees(s.db, c)
    {
      assert RollupRuns.Live(s, c);
    }
  }

  /** A window that starts at or after the epoch never reads a misfiled hour. */
  lemma LateWindowsAreClean(s: RollupRuns.State, q: Query, now: int)
    requires RollupRuns.Inv(s) && (q.start.None? || q.start.value >= 0)
    ensures forall c :: c in s.misfiled && c.sid in q.ids ==> !(StartHour(q) < c.hour < EndHour(q, now))
  {
    if q.start.Some? {
      HourContains(q.start.value);
      HourBound(q.start.value, 0);
    }
  }

  /** End to end: after any interleaving of writes, passes and retention in which no step
      breaks agreement, `QueryAggregate` may be asked, and the fast path's partials are the
      exact partials of the window if and only if no rolled hour it reads lies strictly
      inside a bucket before the epoch. */
  lemma EveryRunAnswersExactly(run: seq<RollupRuns.Event>, q: Query, now: int, b: Option<int>)
    requires RollupAgreement.IsRun(RollupRuns.INITIAL, run) && RollupAgreement.Unbroken(RollupRuns.INITIAL, run)
    requires var s := RollupAgreement.After(RollupRuns.INITIAL, run);
             IsBucket(b) && Eligible(s.db.watermark, q, now, b) && ReadsCleanHours(s, q, now)
    ensures var db := RollupAgreement.After(RollupRuns.INITIAL, run).db;
            && ValidTables(db.tables) && ValidRollup(db.rollup) && HoursExact(db, q, now)
            && (FastPartials(db, q, now, b) == Reference(Selected(db.tables, Window(q, now)), b) <==> RollupSound(db, q, now, b))
  {
    var s := RollupAgreement.After(RollupRuns.INITIAL, run);
    RollupAgreement.InitialOk();
    RollupAgreement.EveryRunIsExact(RollupRuns.INITIAL, run);
    RollupAgreement.EveryRunKeepsAgreement(RollupRuns.INITIAL, run);
    AgreementMakesExact(s, q, now, b);
    FastPartialsExactWhen(s.db, q, now, b);
  }
}
