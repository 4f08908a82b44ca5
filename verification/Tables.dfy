/** The stored state: one measurement table per month, the hourly rollup table and
    the rollup watermark, with the facts about rows and hours every layer uses. */
module Tables {
  import opened Options
  import opened Calendar
  import opened Aggregates

  /** A stored sample. Its primary key inside a partition is (sid, ts). */
  datatype Row = Row(sid: int, ts: int, value: real)

  /** A rollup row is identified by series and hour start. */
  datatype Cell = Cell(sid: int, hour: int)

  type Partitions = map<Month, set<Row>>

  datatype Db = Db(tables: Partitions, rollup: map<Cell, Agg>, watermark: Option<int>)

  const EMPTY_DB: Db := Db(map[], map[], None)

  /** The database file as the code sees it: state that transactions replace. */
  class Database {
    var tables: Partitions
    var rollup: map<Cell, Agg>
    var watermark: Option<int>

    constructor ()
      ensures Value() == EMPTY_DB
    {
      tables, rollup, watermark := map[], map[], None;
    }

    ghost function Value(): Db
      reads this
    {
      Db(tables, rollup, watermark)
    }
  }

  function Table(t: Partitions, p: Month): set<Row> {
    if p in t then t[p] else {}
  }

  ghost function AllRows(t: Partitions): set<Row> {
    set p, r | p in t && r in t[p] :: r
  }

  predicate SameKey(r: Row, q: Row) {
    r.sid == q.sid && r.ts == q.ts
  }

  /** No two rows share series and timestamp. */
  ghost predicate UniqueKeys(S: set<Row>) {
    forall r, q :: r in S && q in S && r.sid == q.sid && r.ts == q.ts ==> r == q
  }

  /** What the schema and the write path keep: each row sits in its own month's table,
      and primary keys are unique inside a table. */
  ghost predicate ValidTables(t: Partitions) {
    forall p :: p in t ==> IsMonth(p) && UniqueKeys(t[p]) && forall r :: r in t[p] ==> MonthOf(r.ts) == p
  }

  lemma RowInItsTable(t: Partitions, r: Row)
    requires ValidTables(t)
    ensures r in AllRows(t) <==> r in Table(t, MonthOf(r.ts))
  {}

  /** Primary keys are unique per table; routing by month makes them unique overall. */
  lemma KeysUniqueOverall(t: Partitions)
    requires ValidTables(t)
    ensures forall r, q :: r in AllRows(t) && q in AllRows(t) && r.sid == q.sid && r.ts == q.ts ==> r == q
  {
    forall r, q | r in AllRows(t) && q in AllRows(t) && r.sid == q.sid && r.ts == q.ts
      ensures r == q
    {
      RowInItsTable(t, r);
      RowInItsTable(t, q);
    }
  }

  function CellOf(r: Row): Cell {
    Cell(r.sid, FloorHour(r.ts))
  }

  ghost function CellsOf(S: set<Row>): set<Cell> {
    set r | r in S :: CellOf(r)
  }

  /** All samples of one series in one hour, whatever table they are in. */
  ghost function HourRows(t: Partitions, c: Cell): set<Row> {
    set r | r in AllRows(t) && CellOf(r) == c
  }

  predicate IsHour(h: int) {
    h % HOUR_NS == 0
  }

  /** What a rollup row is: keyed by an hour boundary, over at least one sample. */
  ghost predicate ValidRollup(rollup: map<Cell, Agg>) {
    forall c :: c in rollup ==> IsHour(c.hour) && rollup[c].Stats? && rollup[c].count >= 1
  }

  function RowAgg(): Row -> Agg {
    (r: Row) => One(r.value)
  }

  ghost function AggRows(S: set<Row>): Agg {
    Fold(S, RowAgg())
  }

  ghost function SumRows(S: set<Row>): real {
    if S == {} then 0.0 else AggRows(S).sum
  }

  /** What a row aggregate says, without its definition: it counts the rows, its
      bounds are tight, and its sum grows by each row's value. */
  lemma {:induction false} AggRowsMeaning(S: set<Row>)
    ensures AggRows(S).Empty? <==> S == {}
    ensures S != {} ==> AggRows(S).count == |S|
    ensures S != {} ==> forall r :: r in S ==> AggRows(S).lo <= r.value <= AggRows(S).hi
    ensures S != {} ==> exists r :: r in S && r.value == AggRows(S).lo
    ensures S != {} ==> exists r :: r in S && r.value == AggRows(S).hi
    ensures forall r :: r in S ==> SumRows(S) == SumRows(S - {r}) + r.value
    decreases |S|
  {
    forall r | r in S
      ensures SumRows(S) == SumRows(S - {r}) + r.value
      ensures AggRows(S) == Merge(One(r.value), AggRows(S - {r}))
    {
      FoldTake(S, RowAgg(), r);
      AggRowsMeaning(S - {r});
    }
    if S != {} {
      var r :| r in S;
      AggRowsMeaning(S - {r});
      assert AggRows(S) == Merge(One(r.value), AggRows(S - {r}));
      assert forall q :: q in S ==> q == r || q in S - {r};
    }
  }

  /** A stored rollup row is right when it exists exactly if the hour has samples and
      then equals their exact count, sum, min and max. */
  ghost predicate Agrees(db: Db, c: Cell) {
    var S := HourRows(db.tables, c);
    if S == {} then c !in db.rollup else c in db.rollup && db.rollup[c] == AggRows(S)
  }

  /** The hour of a row's cell is in the row's month. */
  lemma CellMonth(r: Row)
    ensures IsHour(CellOf(r).hour) && MonthOf(CellOf(r).hour) == MonthOf(r.ts)
  {
    HourContains(r.ts);
    HourInOnePartition(r.ts);
  }
}
