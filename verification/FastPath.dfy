/** The rollup fast path: two raw edge hours merged with the rolled hours between them,
    and its agreement with the raw paths. */
module FastPath {
  import opened Options
  import opened Calendar
  import opened Aggregates
  import opened Tables
  import opened Rollup
  import opened Scan
  import opened Partials

  /** Where the window ends: at `end`, or at the clock reading when `end` is absent. */
  function EffectiveEnd(q: Query, now: int): int {
    if q.end.Some? then q.end.value else now
  }

  function StartHour(q: Query): int {
    if q.start.Some? then FloorHour(q.start.value) else 0
  }

  function EndHour(q: Query, now: int): int {
    FloorHour(EffectiveEnd(q, now))
  }

  /** The window the fast path answers for. */
  function Window(q: Query, now: int): Query {
    q.(end := Some(EffectiveEnd(q, now)))
  }

  /** `_rollup_eligible` for an aggregation the partials can express. */
  predicate Eligible(watermark: Option<int>, q: Query, now: int, b: Option<int>) {
    var w := WatermarkOf(watermark);
    && (b.Some? ==> IsHour(b.value))
    && w > 0
    && EndHour(q, now) <= w
    && EndHour(q, now) >= StartHour(q) + 2 * HOUR_NS
    && !(q.start.Some? && q.start.value >= w)
  }

  /** An hour the fast path reads from the rollup. */
  predicate ReadsHour(q: Query, now: int, h: int) {
    IsHour(h) && StartHour(q) + HOUR_NS <= h < EndHour(q, now)
  }

  /** A query is eligible if and only if its buckets are whole hours, something was rolled, it
      would read at least one hour from the rollup, and every hour it would read lies below
      the watermark. */
  lemma EligibleWhen(watermark: Option<int>, q: Query, now: int, b: Option<int>)
    requires watermark.Some? ==> IsHour(watermark.value)
    ensures Eligible(watermark, q, now, b) <==>
            && (b.Some? ==> b.value % HOUR_NS == 0)
            && watermark.Some? && watermark.value > 0
            && (exists h :: ReadsHour(q, now, h))
            && (forall h :: ReadsHour(q, now, h) ==> h < watermark.value)
  {
    WindowHours(q, now);
    var lo, hi := StartHour(q) + HOUR_NS, EndHour(q, now);
    if lo < hi {
      LastHourBelow(lo, hi);
      assert ReadsHour(q, now, hi - HOUR_NS);
      if watermark.Some? && hi - HOUR_NS < watermark.value {
        HourGap(hi - HOUR_NS, watermark.value);
      }
      if q.start.Some? {
        HourContains(q.start.value);
      }
    }
  }

  /** Hours that differ are an hour apart. */
  lemma HourGap(g: int, h: int)
    requires IsHour(g) && IsHour(h) && g < h
    ensures g + HOUR_NS <= h
  {}

  lemma LastHourBelow(lo: int, hi: int)
    requires IsHour(lo) && IsHour(hi) && lo < hi
    ensures IsHour(hi - HOUR_NS) && lo <= hi - HOUR_NS
  {
    HourGap(lo, hi);
    HourSteps(hi - 2 * HOUR_NS);
  }

  // ---------------------------------------------------------------------
  // The three sources
  // ---------------------------------------------------------------------

  function LeftQuery(q: Query, now: int): Query {
    var edge := StartHour(q) + HOUR_NS - 1;
    Query(q.ids, q.start, Some(if EffectiveEnd(q, now) < edge then EffectiveEnd(q, now) else edge))
  }

  function RightQuery(q: Query, now: int): Query {
    Query(q.ids, Some(EndHour(q, now)), Some(EffectiveEnd(q, now)))
  }

  predicate HasLeft(q: Query, now: int) {
    LeftQuery(q, now).end.value >= if q.start.Some? then q.start.value else 0
  }

  predicate HasRight(q: Query, now: int) {
    EndHour(q, now) > StartHour(q) && EffectiveEnd(q, now) >= EndHour(q, now)
  }

  predicate HasMiddle(q: Query, now: int) {
    EndHour(q, now) >= StartHour(q) + 2 * HOUR_NS
  }

  ghost function LeftRows(t: Partitions, q: Query, now: int): set<Row> {
    if HasLeft(q, now) then Selected(t, LeftQuery(q, now)) else {}
  }

  ghost function RightRows(t: Partitions, q: Query, now: int): set<Row> {
    if HasRight(q, now) then Selected(t, RightQuery(q, now)) else {}
  }

  /** Rollup rows of the wanted series with hours in [lo, hi). */
  function CellsIn(rollup: map<Cell, Agg>, ids: set<int>, lo: int, hi: int): set<Cell> {
    set c | c in rollup && c.sid in ids && lo <= c.hour < hi
  }

  function CellAgg(rollup: map<Cell, Agg>): Cell -> Agg {
    (c: Cell) => At(rollup, c)
  }

  /** SQL bucket of an hour: truncating division. */
  function CellKey(b: Option<int>): Cell -> Option<int>
    requires IsBucket(b)
  {
    (c: Cell) => if b.None? then None else Some(SqlDiv(c.hour, b.value) * b.value)
  }

  /** `query_rollup_partial`: SUM, MIN and MAX over stored partials, by bucket. */
  ghost function RollupPartial(rollup: map<Cell, Agg>, ids: set<int>, lo: int, hi: int, b: Option<int>): map<Option<int>, Agg>
    requires IsBucket(b)
  {
    GroupBy(CellsIn(rollup, ids, lo, hi), CellKey(b), CellAgg(rollup))
  }

  ghost function MiddlePartial(db: Db, q: Query, now: int, b: Option<int>): map<Option<int>, Agg>
    requires IsBucket(b)
  {
    if HasMiddle(q, now) then RollupPartial(db.rollup, q.ids, StartHour(q) + HOUR_NS, EndHour(q, now), b) else map[]
  }

  /** The merged partials of the fast path. */
  ghost function FastPartials(db: Db, q: Query, now: int, b: Option<int>): map<Option<int>, Agg>
    requires IsBucket(b)
  {
    MergeMaps(MergeMaps(Reference(LeftRows(db.tables, q, now), b), Reference(RightRows(db.tables, q, now), b)),
              MiddlePartial(db, q, now, b))
  }

  lemma MergedNonempty<J>(m: map<J, Agg>, n: map<J, Agg>)
    requires NonemptyPartials(m) && NonemptyPartials(n)
    ensures NonemptyPartials(MergeMaps(m, n))
  {}

  lemma RollupPartialNonempty(rollup: map<Cell, Agg>, ids: set<int>, lo: int, hi: int, b: Option<int>)
    requires IsBucket(b) && ValidRollup(rollup)
    ensures NonemptyPartials(RollupPartial(rollup, ids, lo, hi, b))
  {
    var C := CellsIn(rollup, ids, lo, hi);
    forall j | j in RollupPartial(rollup, ids, lo, hi, b)
      ensures RollupPartial(rollup, ids, lo, hi, b)[j].Stats? && RollupPartial(rollup, ids, lo, hi, b)[j].count >= 1
    {
      GroupByAt(C, CellKey(b), CellAgg(rollup), j);
      FoldNonempty(Group(C, CellKey(b), j), CellAgg(rollup));
    }
  }

  /** Whatever the rollup holds, the merged partials are nonempty, and they are keyed by
      bucket starts or by the whole window. */
  lemma FastPartialsShape(db: Db, q: Query, now: int, b: Option<int>)
    requires IsBucket(b) && ValidRollup(db.rollup)
    ensures NonemptyPartials(FastPartials(db, q, now, b))
    ensures forall k :: k in FastPartials(db, q, now, b) ==> (k.Some? <==> b.Some?)
  {
    var L, R := Reference(LeftRows(db.tables, q, now), b), Reference(RightRows(db.tables, q, now), b);
    ReferenceNonempty(LeftRows(db.tables, q, now), b);
    ReferenceNonempty(RightRows(db.tables, q, now), b);
    RollupPartialNonempty(db.rollup, q.ids, StartHour(q) + HOUR_NS, EndHour(q, now), b);
    MergedNonempty(L, R);
    MergedNonempty(MergeMaps(L, R), MiddlePartial(db, q, now, b));
  }

  // ---------------------------------------------------------------------
  // The rolled hours stand for their samples
  // ---------------------------------------------------------------------

  ghost function RowsIn(t: Partitions, ids: set<int>, lo: int, hi: int): set<Row> {
    set r | r in AllRows(t) && r.sid in ids && lo <= r.ts < hi
  }

  /** Every hour in [lo, hi) is exact for the wanted series. */
  ghost predicate Exact(db: Db, ids: set<int>, lo: int, hi: int) {
    && ValidRollup(db.rollup)
    && (forall c: Cell :: IsHour(c.hour) && c.sid in ids && lo <= c.hour < hi ==> Agrees(db, c))
  }

  lemma HourInBucket(ts: int, b: int)
    requires b > 0 && IsHour(b)
    ensures FloorHour(ts) / b == ts / b
  {
    var k := ts / b;
    assert ts == k * b + ts % b;
    assert IsHour(k * b) by {
      var n := b / HOUR_NS;
      assert b == n * HOUR_NS;
      assert k * b == (k * n) * HOUR_NS;
      MultipleOf(k * n, HOUR_NS);
    }
    HourBound(ts, k * b);
    HourContains(ts);
    DivideProduct(k, FloorHour(ts) - k * b, b);
  }

  /** The bucket an hour belongs to. */
  function FloorCellKey(b: Option<int>): Cell -> Option<int>
    requires IsBucket(b)
  {
    (c: Cell) => BucketStart(c.hour, b)
  }

  /** A cell and its samples belong to the same bucket. */
  lemma CellBucket(r: Row, b: Option<int>)
    requires IsBucket(b) && (b.Some? ==> IsHour(b.value))
    ensures FloorCellKey(b)(CellOf(r)) == StartKey(b)(r)
  {
    if b.Some? {
      HourInBucket(r.ts, b.value);
    }
  }

  /** The SQL bucket of the hour is its bucket. */
  predicate Aligned(h: int, b: Option<int>)
    requires IsBucket(b)
  {
    h >= 0 || b.None? || h % b.value == 0
  }

  /** The SQL bucket is the bucket if and only if the hour is not strictly inside a bucket
      before the epoch; there it is the next bucket. */
  lemma CellKeyExactWhen(c: Cell, b: Option<int>)
    requires IsBucket(b)
    ensures CellKey(b)(c) == FloorCellKey(b)(c) <==> Aligned(c.hour, b)
    ensures !Aligned(c.hour, b) ==> b.Some? && CellKey(b)(c) == Some(FloorCellKey(b)(c).value + b.value)
  {
    if b.Some? {
      SqlMultiple(c.hour, b.value);
    }
  }

  /** No rolled hour the query reads lies strictly inside a bucket before the epoch. */
  ghost predicate BucketSafe(rollup: map<Cell, Agg>, ids: set<int>, lo: int, hi: int, b: Option<int>)
    requires IsBucket(b)
  {
    forall c :: c in CellsIn(rollup, ids, lo, hi) ==> Aligned(c.hour, b)
  }

  lemma SampledCell(db: Db, ids: set<int>, lo: int, hi: int, r: Row)
    requires IsHour(lo) && IsHour(hi) && Exact(db, ids, lo, hi)
    requires r in RowsIn(db.tables, ids, lo, hi)
    ensures CellOf(r) in CellsIn(db.rollup, ids, lo, hi)
  {
    HourContains(r.ts);
    HourBound(r.ts, lo);
    HourBound(r.ts, hi);
    assert r in HourRows(db.tables, CellOf(r));
    assert Agrees(db, CellOf(r));
  }

  lemma CellRows(db: Db, ids: set<int>, lo: int, hi: int, c: Cell)
    requires IsHour(lo) && IsHour(hi) && Exact(db, ids, lo, hi)
    requires c in CellsIn(db.rollup, ids, lo, hi)
    ensures HourRows(db.tables, c) != {} && HourRows(db.tables, c) <= RowsIn(db.tables, ids, lo, hi)
    ensures db.rollup[c] == AggRows(HourRows(db.tables, c))
  {
    assert IsHour(c.hour) && Agrees(db, c);
    forall r | r in HourRows(db.tables, c)
      ensures lo <= r.ts < hi
    {
      HourBound(r.ts, lo);
      HourBound(r.ts, hi);
    }
  }

  lemma CellRowKey(db: Db, ids: set<int>, lo: int, hi: int, c: Cell, b: Option<int>, r: Row)
    requires IsHour(lo) && IsHour(hi) && Exact(db, ids, lo, hi)
    requires IsBucket(b) && (b.Some? ==> IsHour(b.value))
    requires c in CellsIn(db.rollup, ids, lo, hi) && r in HourRows(db.tables, c)
    ensures FloorCellKey(b)(c) == StartKey(b)(r) && r in RowsIn(db.tables, ids, lo, hi)
  {
    CellRows(db, ids, lo, hi, c);
    CellBucket(r, b);
  }

  lemma BucketFold(db: Db, ids: set<int>, lo: int, hi: int, b: Option<int>, j: Option<int>)
    requires IsHour(lo) && IsHour(hi) && Exact(db, ids, lo, hi)
    requires IsBucket(b) && (b.Some? ==> IsHour(b.value))
    ensures Fold(Group(CellsIn(db.rollup, ids, lo, hi), FloorCellKey(b), j), CellAgg(db.rollup))
         == Fold(Group(RowsIn(db.tables, ids, lo, hi), StartKey(b), j), RowAgg())
  {
    var C := Group(CellsIn(db.rollup, ids, lo, hi), FloorCellKey(b), j);
    var R := Group(RowsIn(db.tables, ids, lo, hi), StartKey(b), j);
    var cellOf := (r: Row) => CellOf(r);
    forall r | r in R
      ensures cellOf(r) in C
    {
      SampledCell(db, ids, lo, hi, r);
      CellRowKey(db, ids, lo, hi, CellOf(r), b, r);
    }
    forall c | c in C
      ensures CellAgg(db.rollup)(c) == Fold(Group(R, cellOf, c), RowAgg())
    {
      CellRows(db, ids, lo, hi, c);
      forall r | r in HourRows(db.tables, c)
        ensures r in R
      {
        CellRowKey(db, ids, lo, hi, c, b, r);
      }
      assert Group(R, cellOf, c) == HourRows(db.tables, c);
    }
    FoldRegroup(R, cellOf, RowAgg(), C, CellAgg(db.rollup));
  }

  lemma BucketKeys(db: Db, ids: set<int>, lo: int, hi: int, b: Option<int>, j: Option<int>)
    requires IsHour(lo) && IsHour(hi) && Exact(db, ids, lo, hi)
    requires IsBucket(b) && (b.Some? ==> IsHour(b.value))
    ensures j in Image(CellsIn(db.rollup, ids, lo, hi), FloorCellKey(b)) <==> j in Image(RowsIn(db.tables, ids, lo, hi), StartKey(b))
  {
    var C, R := CellsIn(db.rollup, ids, lo, hi), RowsIn(db.tables, ids, lo, hi);
    if j in Image(C, FloorCellKey(b)) {
      var c :| c in C && FloorCellKey(b)(c) == j;
      CellRows(db, ids, lo, hi, c);
      var r :| r in HourRows(db.tables, c);
      CellRowKey(db, ids, lo, hi, c, b, r);
    }
    if j in Image(R, StartKey(b)) {
      var r :| r in R && StartKey(b)(r) == j;
      SampledCell(db, ids, lo, hi, r);
      assert r in HourRows(db.tables, CellOf(r));
      CellRowKey(db, ids, lo, hi, CellOf(r), b, r);
    }
  }

  /** Stored partials, grouped by the bucket of their hour, are the exact partials of their
      samples. */
  lemma PartialsByFloor(db: Db, ids: set<int>, lo: int, hi: int, b: Option<int>)
    requires IsHour(lo) && IsHour(hi) && Exact(db, ids, lo, hi)
    requires IsBucket(b) && (b.Some? ==> IsHour(b.value))
    ensures GroupBy(CellsIn(db.rollup, ids, lo, hi), FloorCellKey(b), CellAgg(db.rollup))
         == Reference(RowsIn(db.tables, ids, lo, hi), b)
  {
    forall j
      ensures j in Image(CellsIn(db.rollup, ids, lo, hi), FloorCellKey(b)) <==> j in Image(RowsIn(db.tables, ids, lo, hi), StartKey(b))
      ensures Fold(Group(CellsIn(db.rollup, ids, lo, hi), FloorCellKey(b), j), CellAgg(db.rollup))
           == Fold(Group(RowsIn(db.tables, ids, lo, hi), StartKey(b), j), RowAgg())
    {
      BucketKeys(db, ids, lo, hi, b, j);
      BucketFold(db, ids, lo, hi, b, j);
    }
  }

  // ---------------------------------------------------------------------
  // The SQL buckets before the epoch
  // ---------------------------------------------------------------------

  lemma {:induction false} EarliestCell(C: set<Cell>) returns (c: Cell)
    requires C != {}
    ensures c in C && forall x :: x in C ==> c.hour <= x.hour
    decreases |C|
  {
    c :| c in C;
    if C != {c} {
      var d := EarliestCell(C - {c});
      assert forall x :: x in C ==> x == c || x in C - {c};
      c := if c.hour <= d.hour then c else d;
    }
  }

  lemma EarliestWrong(C: set<Cell>, b: Option<int>, some: Cell) returns (c: Cell)
    requires IsBucket(b) && some in C && !Aligned(some.hour, b)
    ensures c in C && !Aligned(c.hour, b)
    ensures forall x :: x in C && !Aligned(x.hour, b) ==> c.hour <= x.hour
  {
    var wrong := set x | x in C && !Aligned(x.hour, b);
    assert some in wrong;
    c := EarliestCell(wrong);
    assert forall x :: x in C && !Aligned(x.hour, b) ==> x in wrong;
  }

  /** An hour filed into another hour's bucket without belonging there is the earlier one. */
  lemma FiledFromBelow(x: Cell, c: Cell, b: Option<int>)
    requires IsBucket(b) && !Aligned(x.hour, b) && CellKey(b)(x) == FloorCellKey(b)(c)
    ensures x.hour < c.hour
  {
    CellKeyExactWhen(x, b);
    assert x.hour == x.hour / b.value * b.value + x.hour % b.value;
    assert c.hour == c.hour / b.value * b.value + c.hour % b.value;
  }

  /** The bucket of the earliest hour that is filed wrong loses samples and gains none. */
  lemma EarliestBucketLoses(C: set<Cell>, b: Option<int>, c: Cell)
    requires IsBucket(b) && c in C && !Aligned(c.hour, b)
    requires forall x :: x in C && !Aligned(x.hour, b) ==> c.hour <= x.hour
    ensures Group(C, CellKey(b), FloorCellKey(b)(c)) < Group(C, FloorCellKey(b), FloorCellKey(b)(c))
  {
    var j := FloorCellKey(b)(c);
    CellKeyExactWhen(c, b);
    forall x | x in Group(C, CellKey(b), j)
      ensures x in Group(C, FloorCellKey(b), j)
    {
      CellKeyExactWhen(x, b);
      if !Aligned(x.hour, b) {
        FiledFromBelow(x, c, b);
      }
    }
    assert c in Group(C, FloorCellKey(b), j) && c !in Group(C, CellKey(b), j);
  }

  lemma GroupCountsLess(C: set<Cell>, f: Cell -> Agg, key: Cell -> Option<int>, key': Cell -> Option<int>, j: Option<int>)
    requires forall c :: c in C ==> f(c).Stats? && f(c).count >= 1
    requires Group(C, key, j) < Group(C, key', j)
    ensures Counted(At(GroupBy(C, key, f), j)) < Counted(At(GroupBy(C, key', f), j))
  {
    GroupByAt(C, key, f, j);
    GroupByAt(C, key', f, j);
    FoldCountsLess(Group(C, key, j), Group(C, key', j), f);
  }

  /** A rolled hour inside a bucket before the epoch makes some bucket count too few. */
  lemma SomeBucketCountsLess(rollup: map<Cell, Agg>, ids: set<int>, lo: int, hi: int, b: Option<int>) returns (j: Option<int>)
    requires IsBucket(b) && ValidRollup(rollup) && !BucketSafe(rollup, ids, lo, hi, b)
    ensures Counted(At(RollupPartial(rollup, ids, lo, hi, b), j))
          < Counted(At(GroupBy(CellsIn(rollup, ids, lo, hi), FloorCellKey(b), CellAgg(rollup)), j))
  {
    var C := CellsIn(rollup, ids, lo, hi);
    var c :| c in C && !Aligned(c.hour, b);
    c := EarliestWrong(C, b, c);
    j := FloorCellKey(b)(c);
    EarliestBucketLoses(C, b, c);
    GroupCountsLess(C, CellAgg(rollup), CellKey(b), FloorCellKey(b), j);
  }

  lemma SafeBuckets(rollup: map<Cell, Agg>, ids: set<int>, lo: int, hi: int, b: Option<int>)
    requires IsBucket(b) && BucketSafe(rollup, ids, lo, hi, b)
    ensures RollupPartial(rollup, ids, lo, hi, b) == GroupBy(CellsIn(rollup, ids, lo, hi), FloorCellKey(b), CellAgg(rollup))
  {
    forall c | c in CellsIn(rollup, ids, lo, hi)
      ensures CellKey(b)(c) == FloorCellKey(b)(c)
    {
      CellKeyExactWhen(c, b);
    }
    GroupBySameKey(CellsIn(rollup, ids, lo, hi), CellKey(b), FloorCellKey(b), CellAgg(rollup));
  }

  /** Stored partials grouped by SQL bucket are the exact partials of their samples if and
      only if no rolled hour read lies strictly inside a bucket before the epoch. */
  lemma RollupPartialExactWhen(db: Db, ids: set<int>, lo: int, hi: int, b: Option<int>)
    requires IsHour(lo) && IsHour(hi) && Exact(db, ids, lo, hi)
    requires IsBucket(b) && (b.Some? ==> IsHour(b.value))
    ensures RollupPartial(db.rollup, ids, lo, hi, b) == Reference(RowsIn(db.tables, ids, lo, hi), b)
       <==> BucketSafe(db.rollup, ids, lo, hi, b)
  {
    PartialsByFloor(db, ids, lo, hi, b);
    if BucketSafe(db.rollup, ids, lo, hi, b) {
      SafeBuckets(db.rollup, ids, lo, hi, b);
    } else {
      var j := SomeBucketCountsLess(db.rollup, ids, lo, hi, b);
    }
  }

  /** Windows from the epoch on, whole windows and hourly buckets are never at risk. */
  lemma UsuallySafe(rollup: map<Cell, Agg>, ids: set<int>, lo: int, hi: int, b: Option<int>)
    requires ValidRollup(rollup) && IsBucket(b) && (lo >= 0 || b.None? || b.value == HOUR_NS)
    ensures BucketSafe(rollup, ids, lo, hi, b)
  {}

  // ---------------------------------------------------------------------
  // The window is the disjoint union of its three sources
  // ---------------------------------------------------------------------

  ghost function MiddleRows(t: Partitions, q: Query, now: int): set<Row> {
    RowsIn(t, q.ids, StartHour(q) + HOUR_NS, EndHour(q, now))
  }

  lemma HourSteps(h: int)
    requires IsHour(h)
    ensures IsHour(h + HOUR_NS)
  {
    MultipleOf(h / HOUR_NS + 1, HOUR_NS);
  }

  lemma WindowSplit(t: Partitions, q: Query, now: int)
    requires EndHour(q, now) >= StartHour(q) + 2 * HOUR_NS
    ensures HasLeft(q, now) && HasRight(q, now) && HasMiddle(q, now)
    ensures Selected(t, Window(q, now)) == LeftRows(t, q, now) + RightRows(t, q, now) + MiddleRows(t, q, now)
    ensures LeftRows(t, q, now) !! RightRows(t, q, now)
    ensures LeftRows(t, q, now) + RightRows(t, q, now) !! MiddleRows(t, q, now)
  {
    HourContains(EffectiveEnd(q, now));
    if q.start.Some? {
      HourContains(q.start.value);
    }
  }

  /** The fast path's partials with the middle grouped by the bucket of each hour. */
  lemma FastPartialsByFloor(db: Db, q: Query, now: int, b: Option<int>)
    requires IsBucket(b) && Eligible(db.watermark, q, now, b)
    requires Exact(db, q.ids, StartHour(q) + HOUR_NS, EndHour(q, now))
    ensures MergeMaps(MergeMaps(Reference(LeftRows(db.tables, q, now), b), Reference(RightRows(db.tables, q, now), b)),
                      Reference(MiddleRows(db.tables, q, now), b))
         == Reference(Selected(db.tables, Window(q, now)), b)
  {
    WindowSplit(db.tables, q, now);
    var L, R, M := LeftRows(db.tables, q, now), RightRows(db.tables, q, now), MiddleRows(db.tables, q, now);
    GroupByUnion(L, R, StartKey(b), RowAgg());
    GroupByUnion(L + R, M, StartKey(b), RowAgg());
  }

  lemma WindowHours(q: Query, now: int)
    ensures IsHour(StartHour(q) + HOUR_NS) && IsHour(EndHour(q, now))
  {
    HourContains(EffectiveEnd(q, now));
    if q.start.Some? {
      HourContains(q.start.value);
    }
    HourSteps(StartHour(q));
  }

  lemma MiddleIsRollup(db: Db, q: Query, now: int, b: Option<int>)
    requires IsBucket(b) && HasMiddle(q, now)
    ensures MiddlePartial(db, q, now, b) == RollupPartial(db.rollup, q.ids, StartHour(q) + HOUR_NS, EndHour(q, now), b)
  {}

  /** Counts can be compared before merging. */
  lemma MergedDiffers<J>(e: map<J, Agg>, m: map<J, Agg>, n: map<J, Agg>, j: J)
    requires Counted(At(m, j)) < Counted(At(n, j))
    ensures MergeMaps(e, m) != MergeMaps(e, n)
  {
    MergeMapsCount(e, m, j);
    MergeMapsCount(e, n, j);
  }

  /** Over exact hours, the fast path's partials are the exact partials of the window if and
      only if no rolled hour it reads lies strictly inside a bucket before the epoch. */
  lemma FastPartialsExactWhen(db: Db, q: Query, now: int, b: Option<int>)
    requires IsBucket(b) && Eligible(db.watermark, q, now, b)
    requires Exact(db, q.ids, StartHour(q) + HOUR_NS, EndHour(q, now))
    ensures FastPartials(db, q, now, b) == Reference(Selected(db.tables, Window(q, now)), b)
       <==> BucketSafe(db.rollup, q.ids, StartHour(q) + HOUR_NS, EndHour(q, now), b)
  {
    MiddleIsRollup(db, q, now, b);
    FastPartialsByFloor(db, q, now, b);
    MiddleExactWhen(db, q, now, b,
                    MergeMaps(Reference(LeftRows(db.tables, q, now), b), Reference(RightRows(db.tables, q, now), b)));
  }

  lemma MiddleExactWhen(db: Db, q: Query, now: int, b: Option<int>, edges: map<Option<int>, Agg>)
    requires IsBucket(b) && (b.Some? ==> IsHour(b.value))
    requires Exact(db, q.ids, StartHour(q) + HOUR_NS, EndHour(q, now))
    ensures MergeMaps(edges, RollupPartial(db.rollup, q.ids, StartHour(q) + HOUR_NS, EndHour(q, now), b))
         == MergeMaps(edges, Reference(MiddleRows(db.tables, q, now), b))
       <==> BucketSafe(db.rollup, q.ids, StartHour(q) + HOUR_NS, EndHour(q, now), b)
  {
    var lo, hi := StartHour(q) + HOUR_NS, EndHour(q, now);
    WindowHours(q, now);
    if BucketSafe(db.rollup, q.ids, lo, hi, b) {
      RollupPartialExactWhen(db, q.ids, lo, hi, b);
    } else {
      PartialsByFloor(db, q.ids, lo, hi, b);
      var j := SomeBucketCountsLess(db.rollup, q.ids, lo, hi, b);
      MergedDiffers(edges, RollupPartial(db.rollup, q.ids, lo, hi, b), Reference(MiddleRows(db.tables, q, now), b), j);
    }
  }
}
