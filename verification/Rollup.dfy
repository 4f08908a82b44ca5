/** The hourly rollup: aggregating partitions into (series, hour) cells, rewinding and
    settling the watermark. */
module Rollup {
  import opened Options
  import opened Calendar
  import opened Aggregates
  import opened Tables

  /** SQLite integer division truncates toward zero. */
  function SqlDiv(a: int, b: int): int
    requires b > 0
  {
    if a >= 0 then a / b else -((-a) / b)
  }

  /** The hour key of the rollup's GROUP BY. */
  function TruncHour(ts: int): int {
    SqlDiv(ts, HOUR_NS) * HOUR_NS
  }

  /** A missing watermark row reads as 0. */
  function WatermarkOf(w: Option<int>): int {
    if w.Some? then w.value else 0
  }

  /** Truncating to a multiple of `b` is flooring to one, except strictly inside a span of `b`
      before zero, where it gives the next multiple. */
  lemma SqlMultiple(h: int, b: int)
    requires b > 0
    ensures SqlDiv(h, b) * b == h / b * b + if h >= 0 || h % b == 0 then 0 else b
  {
    if h < 0 {
      var k, r := (-h) / b, (-h) % b;
      NegativeQuotient(h, b, k, r);
      NegatedProduct(k, b);
    }
  }

  lemma NegativeQuotient(h: int, b: int, k: int, r: int)
    requires b > 0 && h == -(k * b) - r && 0 <= r < b
    ensures r == 0 ==> h / b == -k && h % b == 0
    ensures r > 0 ==> h / b == -k - 1 && h % b == b - r
  {
    NegatedProduct(k, b);
    if r == 0 {
      DivideProduct(-k, 0, b);
    } else {
      DivideProduct(-k - 1, b - r, b);
    }
  }

  lemma NegatedProduct(k: int, b: int)
    ensures (-k) * b == -(k * b) && (-k - 1) * b == -(k * b) - b
  {}

  /** The SQL hour key is the true hour exactly for non-negative timestamps and for
      negative ones that are themselves hour boundaries. */
  lemma TruncHourExactWhen(ts: int)
    ensures TruncHour(ts) == FloorHour(ts) <==> ts >= 0 || IsHour(ts)
  {
    HourContains(ts);
    if ts < 0 {
      HourContains(-ts);
      if IsHour(ts) {
        HourOf(ts, ts);
        HourOf(-ts, -ts);
      }
    }
  }

  // ---------------------------------------------------------------------
  // One partition
  // ---------------------------------------------------------------------

  ghost function RollRows(S: set<Row>, start: int, cutoff: int): set<Row> {
    set r | r in S && start <= r.ts < cutoff
  }

  function RollKey(): Row -> Cell {
    (r: Row) => Cell(r.sid, TruncHour(r.ts))
  }

  /** The rows one GROUP BY over a partition writes. */
  ghost function RollMap(S: set<Row>, start: int, cutoff: int): map<Cell, Agg> {
    GroupBy(RollRows(S, start, cutoff), RollKey(), RowAgg())
  }

  /** INSERT OR REPLACE of one partition's groups. */
  ghost function Roll(db: Db, p: Month, start: int, cutoff: int): Db {
    db.(rollup := db.rollup + RollMap(Table(db.tables, p), start, cutoff))
  }

  /** DELETE of the cells with hours in [lo, hi). */
  function DeleteHours(m: map<Cell, Agg>, lo: int, hi: int): map<Cell, Agg> {
    map c | c in m && !(lo <= c.hour < hi) :: m[c]
  }

  /** The SQL key of the timestamp is its hour. */
  predicate KeySafe(ts: int) {
    ts >= 0 || IsHour(ts)
  }

  /** The row's SQL key differs from its hour, and the cell is one of the two. */
  predicate Misfiles(r: Row, c: Cell) {
    !KeySafe(r.ts) && (RollKey()(r) == c || CellOf(r) == c)
  }

  /** No stored row is misfiled into the cell or out of it. */
  ghost predicate FiledRight(t: Partitions, c: Cell) {
    forall r :: r in AllRows(t) ==> !Misfiles(r, c)
  }

  lemma RollKeyIsCell(r: Row)
    ensures RollKey()(r) == CellOf(r) <==> KeySafe(r.ts)
  {
    TruncHourExactWhen(r.ts);
  }

  lemma PositiveIsFiledRight(r: Row, c: Cell)
    requires c.hour > 0
    ensures !Misfiles(r, c)
  {
    HourBound(r.ts, 0);
  }

  /** The samples of an hour that a roll of `p` over [start, cutoff) has to group. */
  ghost function HourShare(t: Partitions, p: Month, start: int, cutoff: int, c: Cell): set<Row> {
    if MonthOf(c.hour) == p && start <= c.hour < cutoff then HourRows(t, c) else {}
  }

  /** The share of an hour is the rolled rows of that hour: the range does not cut hours and
      the month does not either. */
  lemma HourShareRows(t: Partitions, p: Month, start: int, cutoff: int, c: Cell)
    requires ValidTables(t) && IsHour(start) && IsHour(cutoff)
    ensures forall r :: r in HourShare(t, p, start, cutoff, c) <==> r in RollRows(Table(t, p), start, cutoff) && CellOf(r) == c
  {
    forall r: Row
      ensures r in HourShare(t, p, start, cutoff, c) <==> r in RollRows(Table(t, p), start, cutoff) && CellOf(r) == c
    {
      if CellOf(r) == c {
        RowInItsTable(t, r);
        HourBound(r.ts, start);
        HourBound(r.ts, cutoff);
        HourInOnePartition(r.ts);
      }
    }
  }

  /** A roll from an hour boundary to an hour boundary groups exactly the samples of an hour
      under its key if and only if no row it reads is misfiled there. */
  lemma RollGroupExactWhen(t: Partitions, p: Month, start: int, cutoff: int, c: Cell)
    requires ValidTables(t) && IsHour(start) && IsHour(cutoff)
    ensures Group(RollRows(Table(t, p), start, cutoff), RollKey(), c) == HourShare(t, p, start, cutoff, c)
       <==> forall r :: r in RollRows(Table(t, p), start, cutoff) ==> !Misfiles(r, c)
  {
    var S := RollRows(Table(t, p), start, cutoff);
    var G, E := Group(S, RollKey(), c), HourShare(t, p, start, cutoff, c);
    HourShareRows(t, p, start, cutoff, c);
    forall r | r in S
      ensures Misfiles(r, c) <==> !(r in G <==> r in E)
    {
      RollKeyIsCell(r);
    }
  }

  /** The roll of a partition is exact, for every hour, if and only if each row it reads is
      at or after the epoch or lies on an hour boundary. */
  lemma RollExactWhen(t: Partitions, p: Month, start: int, cutoff: int)
    requires ValidTables(t) && IsHour(start) && IsHour(cutoff)
    ensures (forall c :: Group(RollRows(Table(t, p), start, cutoff), RollKey(), c) == HourShare(t, p, start, cutoff, c))
       <==> forall r :: r in RollRows(Table(t, p), start, cutoff) ==> KeySafe(r.ts)
  {
    forall c
      ensures Group(RollRows(Table(t, p), start, cutoff), RollKey(), c) == HourShare(t, p, start, cutoff, c)
         <==> forall r :: r in RollRows(Table(t, p), start, cutoff) ==> !Misfiles(r, c)
    {
      RollGroupExactWhen(t, p, start, cutoff, c);
    }
    forall r | r in RollRows(Table(t, p), start, cutoff) && !KeySafe(r.ts)
      ensures Group(RollRows(Table(t, p), start, cutoff), RollKey(), CellOf(r)) != HourShare(t, p, start, cutoff, CellOf(r))
    {
      assert Misfiles(r, CellOf(r));
    }
  }

  lemma RollGroup(t: Partitions, p: Month, start: int, cutoff: int, c: Cell)
    requires ValidTables(t) && IsHour(start) && IsHour(cutoff) && FiledRight(t, c)
    ensures Group(RollRows(Table(t, p), start, cutoff), RollKey(), c) == HourShare(t, p, start, cutoff, c)
  {
    forall r | r in RollRows(Table(t, p), start, cutoff)
      ensures !Misfiles(r, c)
    {
      assert r in AllRows(t);
    }
    RollGroupExactWhen(t, p, start, cutoff, c);
  }

  /** What a roll does to one hour: it makes covered hours with samples exact
      and leaves every other cell alone. */
  lemma RollCell(db: Db, p: Month, start: int, cutoff: int, c: Cell)
    requires ValidTables(db.tables) && IsHour(start) && IsHour(cutoff) && FiledRight(db.tables, c)
    ensures var after := Roll(db, p, start, cutoff);
            if MonthOf(c.hour) == p && start <= c.hour < cutoff && HourRows(db.tables, c) != {}
            then Agrees(after, c)
            else (c in after.rollup <==> c in db.rollup) && (c in db.rollup ==> after.rollup[c] == db.rollup[c])
  {
    RollGroup(db.tables, p, start, cutoff, c);
    RollMapAt(Table(db.tables, p), start, cutoff, c);
  }

  lemma RollMapAt(S: set<Row>, start: int, cutoff: int, c: Cell)
    ensures var G := Group(RollRows(S, start, cutoff), RollKey(), c);
            if G == {} then c !in RollMap(S, start, cutoff)
            else c in RollMap(S, start, cutoff) && RollMap(S, start, cutoff)[c] == AggRows(G)
  {
    GroupByAt(RollRows(S, start, cutoff), RollKey(), RowAgg(), c);
  }

  /** GROUP BY evaluated row by row. */
  method GroupRows<J(==, !new)>(S: set<Row>, key: Row -> J) returns (m: map<J, Agg>)
    ensures m == GroupBy(S, key, RowAgg())
  {
    m := map[];
    var todo := S;
    ghost var done: set<Row> := {};
    assert GroupBy(done, key, RowAgg()) == map[];
    while todo != {}
      invariant done !! todo && done + todo == S
      invariant m == GroupBy(done, key, RowAgg())
    {
      var r :| r in todo;
      GroupByAdd(done, key, RowAgg(), r);
      m := m[key(r) := Merge(At(m, key(r)), One(r.value))];
      todo, done := todo - {r}, done + {r};
    }
    assert done == S;
  }

  /** `rollup_partition`: without `replace`, the hours from the stored watermark to the
      cutoff; with it, the cells from the month's start to the cutoff are deleted first.
      A table dropped meanwhile raises, which the None result stands for. */
  ghost function RollPartition(db: Db, p: Month, replace: bool, cutoff: int): Db
    requires IsMonth(p)
  {
    var start := if replace then MonthStart(p) else WatermarkOf(db.watermark);
    if start >= cutoff || p !in db.tables then db
    else
      Roll(if replace then db.(rollup := DeleteHours(db.rollup, start, cutoff)) else db, p, start, cutoff)
  }

  method RollupPartition(db: Database, p: Month, replace: bool, cutoff: int) returns (written: Option<nat>)
    requires IsMonth(p)
    modifies db
    ensures db.Value() == RollPartition(old(db.Value()), p, replace, cutoff)
    ensures var start := if replace then MonthStart(p) else WatermarkOf(old(db.watermark));
            && (written.None? <==> start < cutoff && p !in old(db.tables))
            && (start >= cutoff ==> written == Some(0))
            && (start < cutoff && p in old(db.tables) ==> written == Some(|RollMap(old(db.tables)[p], start, cutoff)|))
  {
    var start := if replace then MonthStart(p) else WatermarkOf(db.watermark);
    if start >= cutoff {
      return Some(0);
    }
    if p !in db.tables {
      return None;
    }
    var rows := GroupRows((set r | r in db.tables[p] && start <= r.ts < cutoff), RollKey());
    if replace {
      db.rollup := DeleteHours(db.rollup, start, cutoff);
    }
    db.rollup := db.rollup + rows;
    return Some(|rows|);
  }

  // ---------------------------------------------------------------------
  // A pass
  // ---------------------------------------------------------------------

  /** Month intersection test of the pass. The upper bound is exclusive, so the test
      keeps one month more than needed when `lo` is a month's end. */
  predicate Intersects(p: Month, lo: int, hi: int)
    requires IsMonth(p)
  {
    !(MonthEnd(p) < lo || MonthStart(p) >= hi)
  }

  ghost function ToRoll(t: Partitions, lo: int, hi: int): set<Month> {
    set p | p in t && IsMonth(p) && Intersects(p, lo, hi)
  }

  /** The months of `S` in time order, which is name order. */
  predicate Sorted(names: seq<Month>) {
    forall i, j :: 0 <= i < j < |names| ==> Index(names[i]) < Index(names[j])
  }

  ghost predicate SortedListing(names: seq<Month>, S: set<Month>) {
    Sorted(names) && forall p :: p in names <==> p in S
  }

  /** The listing names no month out of reach: a listed month meets [lo, hi), or ends at `lo`. */
  lemma ListedMeetsRange(t: Partitions, lo: int, hi: int, p: Month)
    requires p in ToRoll(t, lo, hi) && lo < hi
    ensures MonthEnd(p) == lo || exists ts :: MonthOf(ts) == p && lo <= ts < hi
  {
    if MonthEnd(p) != lo {
      MonthLength(p);
      var ts := if lo > MonthStart(p) then lo else MonthStart(p);
      PartitionLaw(ts, p);
    }
  }

  /** A partition with samples in [lo, hi) is listed. */
  lemma ListingCovers(t: Partitions, lo: int, hi: int, r: Row)
    requires ValidTables(t) && r in AllRows(t) && lo <= r.ts < hi
    ensures MonthOf(r.ts) in ToRoll(t, lo, hi)
  {
    RowInItsTable(t, r);
    MonthOfContains(r.ts);
  }

  /** The partial aggregates written by rolling the listed partitions in order. */
  ghost function Written(t: Partitions, names: seq<Month>, start: int, cutoff: int): map<Cell, Agg> {
    if names == [] then map[]
    else
      var n := |names| - 1;
      Written(t, names[..n], start, cutoff) + RollMap(Table(t, names[n]), start, cutoff)
  }

  /** The watermark a pass settles on: the cutoff, unless the stored watermark moved
      below the value the pass began from. */
  function Settled(current: Option<int>, w0: int, cutoff: int): int {
    if current.Some? && current.value < w0 then current.value else cutoff
  }

  ghost function Pass(db: Db, names: seq<Month>, cutoff: int): Db {
    var w0 := WatermarkOf(db.watermark);
    if w0 >= cutoff then db
    else Db(db.tables, db.rollup + Written(db.tables, names, w0, cutoff), Some(cutoff))
  }

  /** Selection sort of a set of months. */
  method SortMonths(S: set<Month>) returns (names: seq<Month>)
    requires forall p :: p in S ==> IsMonth(p)
    ensures SortedListing(names, S)
  {
    names := [];
    var todo := S;
    while todo != {}
      invariant todo <= S && Sorted(names)
      invariant forall p :: p in names <==> p in S && p !in todo
      invariant forall p, q :: p in names && q in todo ==> Index(p) < Index(q)
    {
      var least :| least in todo;
      var rest := todo - {least};
      while rest != {}
        invariant rest <= todo && least in todo - rest
        invariant forall p :: p in todo - rest ==> Index(least) <= Index(p)
      {
        var p :| p in rest;
        rest := rest - {p};
        if Index(p) < Index(least) {
          least := p;
        }
      }
      forall q | q in todo && Index(q) == Index(least)
        ensures q == least
      {
        assert IsMonth(q) && IsMonth(least);
      }
      assert forall p :: p in names + [least] <==> p in names || p == least;
      names, todo := names + [least], todo - {least};
    }
  }

  lemma MapAssociates<K, V>(a: map<K, V>, b: map<K, V>, c: map<K, V>)
    ensures (a + b) + c == a + (b + c)
  {}

  lemma MapAbsorbs<K, V>(a: map<K, V>, b: map<K, V>, c: map<K, V>)
    requires b.Keys <= c.Keys
    ensures (a + b) + c == a + c
  {}

  lemma RollOneMore(rollup: map<Cell, Agg>, t: Partitions, names: seq<Month>, i: nat, start: int, cutoff: int)
    requires i < |names|
    ensures (rollup + Written(t, names[..i], start, cutoff)) + RollMap(Table(t, names[i]), start, cutoff)
         == rollup + Written(t, names[..i + 1], start, cutoff)
  {
    assert names[..i + 1][..i] == names[..i];
    MapAssociates(rollup, Written(t, names[..i], start, cutoff), RollMap(Table(t, names[i]), start, cutoff));
  }

  /** How many rollup rows rolling the listed partitions writes. */
  ghost function RowsWritten(t: Partitions, names: seq<Month>, start: int, cutoff: int): nat {
    if names == [] then 0
    else RowsWritten(t, names[..|names| - 1], start, cutoff) + |RollMap(Table(t, names[|names| - 1]), start, cutoff)|
  }

  lemma RowsWrittenNext(t: Partitions, names: seq<Month>, i: nat, start: int, cutoff: int)
    requires i < |names|
    ensures RowsWritten(t, names[..i + 1], start, cutoff)
         == RowsWritten(t, names[..i], start, cutoff) + |RollMap(Table(t, names[i]), start, cutoff)|
  {
    assert names[..i + 1][..i] == names[..i];
  }

  /** The database after the first partitions of a pass, before it settles. */
  ghost function PartPass(before: Db, names: seq<Month>, cutoff: int): Db {
    before.(rollup := before.rollup + Written(before.tables, names, WatermarkOf(before.watermark), cutoff))
  }

  lemma PartPassNext(before: Db, names: seq<Month>, i: nat, cutoff: int)
    requires i < |names| && IsMonth(names[i]) && names[i] in before.tables && WatermarkOf(before.watermark) < cutoff
    ensures RollPartition(PartPass(before, names[..i], cutoff), names[i], false, cutoff) == PartPass(before, names[..i + 1], cutoff)
  {
    RollOneMore(before.rollup, before.tables, names, i, WatermarkOf(before.watermark), cutoff);
  }

  /** Rolling the listed partitions one after another. */
  method RollListed(db: Database, names: seq<Month>, cutoff: int) returns (total: nat)
    requires WatermarkOf(db.watermark) < cutoff && forall p :: p in names ==> IsMonth(p) && p in db.tables
    modifies db
    ensures db.Value() == PartPass(old(db.Value()), names, cutoff)
    ensures total == RowsWritten(old(db.tables), names, WatermarkOf(old(db.watermark)), cutoff)
  {
    total := 0;
    ghost var before := db.Value();
    for i := 0 to |names|
      invariant db.Value() == PartPass(before, names[..i], cutoff)
      invariant total == RowsWritten(before.tables, names[..i], WatermarkOf(before.watermark), cutoff)
    {
      assert names[i] in names;
      RowsWrittenNext(before.tables, names, i, WatermarkOf(before.watermark), cutoff);
      PartPassNext(before, names, i, cutoff);
      var written := RollupPartition(db, names[i], false, cutoff);
      total := total + written.value;
    }
    assert names[..|names|] == names;
  }

  /** `rollup_new_hours` with nothing running beside it; the total counts the rows written. */
  method RollupNewHours(db: Database, cutoff: int) returns (names: seq<Month>, total: nat)
    requires ValidTables(db.tables)
    modifies db
    ensures total == RowsWritten(old(db.tables), names, WatermarkOf(old(db.watermark)), cutoff)
    ensures db.Value() == Pass(old(db.Value()), names, cutoff)
    ensures WatermarkOf(old(db.watermark)) < cutoff ==>
              SortedListing(names, ToRoll(db.tables, WatermarkOf(old(db.watermark)), cutoff))
  {
    var w0 := WatermarkOf(db.watermark);
    if w0 >= cutoff {
      return [], 0;
    }
    names := SortMonths(set p | p in db.tables && Intersects(p, w0, cutoff));
    total := RollListed(db, names, cutoff);
    db.watermark := Some(Settled(db.watermark, w0, cutoff));
  }

  /** A cell is written by a pass exactly if one of its partitions writes it. */
  lemma {:induction false} WrittenKeys(t: Partitions, names: seq<Month>, start: int, cutoff: int, c: Cell)
    ensures c in Written(t, names, start, cutoff) <==> exists p :: p in names && c in RollMap(Table(t, p), start, cutoff)
  {
    if names != [] {
      var n := |names| - 1;
      WrittenKeys(t, names[..n], start, cutoff, c);
      assert names == names[..n] + [names[n]];
    }
  }

  /** A pass interrupted after any number of partitions leaves the watermark alone, and a full
      pass afterwards, with its own listing and a cutoff that may be later, ends in the state
      that pass alone would have given. */
  lemma InterruptedThenFull(db: Db, names: seq<Month>, k: nat, cutoff: int, names': seq<Month>, cutoff': int)
    requires k <= |names| && WatermarkOf(db.watermark) < cutoff <= cutoff'
    requires SortedListing(names, ToRoll(db.tables, WatermarkOf(db.watermark), cutoff))
    requires SortedListing(names', ToRoll(db.tables, WatermarkOf(db.watermark), cutoff'))
    ensures var part := db.(rollup := db.rollup + Written(db.tables, names[..k], WatermarkOf(db.watermark), cutoff));
            Pass(part, names', cutoff') == Pass(db, names', cutoff')
  {
    var t, w0 := db.tables, WatermarkOf(db.watermark);
    var some, all := Written(t, names[..k], w0, cutoff), Written(t, names', w0, cutoff');
    forall c | c in some
      ensures c in all
    {
      WrittenKeys(t, names[..k], w0, cutoff, c);
      var p :| p in names[..k] && c in RollMap(Table(t, p), w0, cutoff);
      assert p in names;
      assert p in ToRoll(t, w0, cutoff');
      WrittenKeys(t, names', w0, cutoff', c);
    }
    MapAbsorbs(db.rollup, some, all);
  }

  /** A repeated pass with no writes between changes nothing, and a pass that runs
      moves the watermark strictly up, also from a rewound one. */
  lemma RepeatedPass(db: Db, names: seq<Month>, names': seq<Month>, cutoff: int)
    ensures Pass(Pass(db, names, cutoff), names', cutoff) == Pass(db, names, cutoff)
    ensures Pass(db, names, cutoff) != db ==> WatermarkOf(Pass(db, names, cutoff).watermark) > WatermarkOf(db.watermark)
  {}
}
