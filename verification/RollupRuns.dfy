/** The rollup protocol as a step system: the transactions of one background pass
    interleaved with write transactions and with retention.

    A pass reads the watermark, lists the partitions, then for each partition reads the
    watermark again and aggregates in a transaction of its own, and finally settles the
    watermark. Anything may commit between two of these steps.

    History variables observe the run without influencing it. `stale` holds the cells
    written since they were last aggregated; `late` holds the cells a write touched
    during the pass after the pass was done with their partition; `dropping` holds the
    months whose table is gone and whose rollup rows are not yet deleted; `misfiled`
    holds the cells that a stored sample's SQL hour key confused: the hour the sample
    belongs to and the hour it was filed under, when these differ. */
module RollupRuns {
  import opened Options
  import opened Calendar
  import opened Aggregates
  import opened Tables
  import opened Rollup
  import WritePath

  datatype Phase =
    | Idle
    | Begun(w0: int, cutoff: int)
    | Rolling(w0: int, cutoff: int, todo: seq<Month>)
    | Reading(w0: int, cutoff: int, todo: seq<Month>, start: int)

  datatype State = State(db: Db, phase: Phase, stale: set<Cell>, late: set<Cell>, dropping: set<Month>, misfiled: set<Cell>)

  datatype Event =
    | Begin(cutoff: int)
    | List(names: seq<Month>)
    | ReadStart
    | RollNext
    | Settle
    | Abort
    | Insert(rows: seq<Row>)
    | DropTable(p: Month)
    | DropRollup(p: Month)

  const INITIAL: State := State(EMPTY_DB, Idle, {}, {}, {}, {})

  ghost predicate Enabled(s: State, e: Event) {
    match e
    case Begin(cutoff) => s.phase.Idle? && IsHour(cutoff) && WatermarkOf(s.db.watermark) < cutoff
    case List(names) => s.phase.Begun? && SortedListing(names, ToRoll(s.db.tables, s.phase.w0, s.phase.cutoff))
    case ReadStart => s.phase.Rolling? && s.phase.todo != []
    case RollNext => s.phase.Reading? && s.phase.todo != []
    case Settle => s.phase.Rolling? && s.phase.todo == []
    case Abort => !s.phase.Idle?
    case Insert(_) => true
    case DropTable(p) => IsMonth(p)
    case DropRollup(p) => IsMonth(p) && p in s.dropping
  }

  function MonthOfCell(c: Cell): Month {
    MonthOf(c.hour)
  }

  ghost function InMonth(S: set<Cell>, p: Month): set<Cell> {
    set c | c in S && MonthOfCell(c) == p
  }

  /** The pass has listed its partitions, covers the cell's hour and will not visit the
      cell's partition any more. */
  ghost predicate PassedBy(ph: Phase, c: Cell) {
    && (ph.Rolling? || ph.Reading?)
    && ph.w0 <= c.hour < ph.cutoff
    && MonthOfCell(c) !in ph.todo
  }

  ghost function PassedBys(ph: Phase, S: set<Cell>): set<Cell> {
    set c | c in S && PassedBy(ph, c)
  }

  ghost function Covered(S: set<Cell>, p: Month, start: int, cutoff: int): set<Cell> {
    set c | c in InMonth(S, p) && start <= c.hour < cutoff
  }

  ghost function MisfiledCells(B: set<Row>): set<Cell> {
    (set r | r in B && !KeySafe(r.ts) :: CellOf(r)) + (set r | r in B && !KeySafe(r.ts) :: RollKey()(r))
  }

  ghost function Step(s: State, e: Event): State
    requires Enabled(s, e)
  {
    match e
    case Begin(cutoff) => s.(phase := Begun(WatermarkOf(s.db.watermark), cutoff), late := {})
    case List(names) => s.(phase := Rolling(s.phase.w0, s.phase.cutoff, names))
    case ReadStart =>
      s.(phase := Reading(s.phase.w0, s.phase.cutoff, s.phase.todo, WatermarkOf(s.db.watermark)))
    case RollNext =>
      var p := s.phase.todo[0];
      if p !in s.db.tables then s.(phase := Idle, late := {})
      else if s.phase.start >= s.phase.cutoff then s.(phase := Rolling(s.phase.w0, s.phase.cutoff, s.phase.todo[1..]))
      else
        s.(db := Roll(s.db, p, s.phase.start, s.phase.cutoff),
           phase := Rolling(s.phase.w0, s.phase.cutoff, s.phase.todo[1..]),
           stale := s.stale - Covered(s.stale, p, s.phase.start, s.phase.cutoff))
    case Settle =>
      s.(db := s.db.(watermark := Some(Settled(s.db.watermark, s.phase.w0, s.phase.cutoff))), phase := Idle, late := {})
    case Abort => s.(phase := Idle, late := {})
    case Insert(rows) =>
      if rows == [] || !WritePath.Accepts(s.db.tables, rows) then s
      else
        var cells := CellsOf(WritePath.RowSet(rows));
        s.(db := WritePath.Write(s.db, rows), stale := s.stale + cells, late := s.late + PassedBys(s.phase, cells),
           misfiled := s.misfiled + MisfiledCells(WritePath.RowSet(rows)))
    case DropTable(p) => s.(db := s.db.(tables := s.db.tables - {p}), dropping := s.dropping + {p})
    case DropRollup(p) =>
      var cells := CellsOf(Table(s.db.tables, p));
      s.(db := s.db.(rollup := DeleteHours(s.db.rollup, MonthStart(p), MonthEnd(p))),
         stale := s.stale - InMonth(s.stale, p) + cells,
         late := s.late - InMonth(s.late, p) + PassedBys(s.phase, cells),
         dropping := s.dropping - {p})
  }

  // ---------------------------------------------------------------------
  // The invariant
  // ---------------------------------------------------------------------

  /** The hours the protocol answers for: those no sample was misfiled into or out of, which
      are all the positive ones and all others that no unaligned sample from before the
      epoch touched, outside the months whose cleanup is pending. */
  ghost predicate Live(s: State, c: Cell) {
    IsHour(c.hour) && c !in s.misfiled && MonthOfCell(c) !in s.dropping
  }

  /** Cells that are not misfiled receive their own samples only; misfiled ones are never
      positive hours. */
  ghost predicate FilingOk(t: Partitions, misfiled: set<Cell>) {
    && (forall c :: c !in misfiled ==> FiledRight(t, c))
    && (forall c :: c in misfiled ==> c.hour <= 0)
  }

  /** A cell whose stored aggregate misses samples. */
  ghost predicate Behind(db: Db, c: Cell) {
    && HourRows(db.tables, c) != {}
    && (c in db.rollup ==> db.rollup[c].Stats? && db.rollup[c].count < |HourRows(db.tables, c)|)
  }

  ghost predicate CellOk(s: State, c: Cell) {
    if c in s.stale then Behind(s.db, c) else Agrees(s.db, c)
  }

  ghost predicate CellsOk(s: State) {
    forall c :: Live(s, c) ==> CellOk(s, c)
  }

  ghost predicate PassOk(s: State) {
    var ph := s.phase;
    !ph.Idle? ==>
      && IsHour(ph.w0) && IsHour(ph.cutoff) && ph.w0 < ph.cutoff
      && (if s.db.watermark.Some? then s.db.watermark.value <= ph.w0 else ph.w0 == 0)
      && (!ph.Begun? ==> Sorted(ph.todo))
      && (ph.Reading? ==> IsHour(ph.start) && ph.start <= ph.w0)
  }

  /** The late cells are the stale cells the pass has left behind. */
  ghost predicate LateOk(s: State) {
    && (forall c :: c in s.late ==> c in s.stale && PassedBy(s.phase, c))
    && (forall c :: c in s.stale && Live(s, c) && PassedBy(s.phase, c) ==> c in s.late)
  }

  ghost predicate Inv(s: State) {
    && ValidTables(s.db.tables)
    && (s.db.watermark.Some? ==> IsHour(s.db.watermark.value))
    && FilingOk(s.db.tables, s.misfiled)
    && ValidRollup(s.db.rollup)
    && CellsOk(s)
    && PassOk(s)
    && LateOk(s)
  }

  /** Rollup agreement: every live hour below the stored watermark is exact. */
  ghost predicate Agreement(s: State) {
    forall c :: Live(s, c) && s.db.watermark.Some? && c.hour < s.db.watermark.value ==> Agrees(s.db, c)
  }

  ghost predicate NoStaleBelow(s: State, w: Option<int>) {
    forall c :: c in s.stale && Live(s, c) && w.Some? ==> c.hour >= w.value
  }

  lemma BehindDisagrees(db: Db, c: Cell)
    requires Behind(db, c)
    ensures !Agrees(db, c)
  {
    AggRowsMeaning(HourRows(db.tables, c));
  }

  /** In an invariant state agreement is exactly the absence of stale cells below the
      watermark. */
  lemma AgreementIsNoStaleBelow(s: State)
    requires CellsOk(s)
    ensures Agreement(s) <==> NoStaleBelow(s, s.db.watermark)
  {
    forall c | c in s.stale && Live(s, c)
      ensures !Agrees(s.db, c)
    {
      BehindDisagrees(s.db, c);
    }
  }

  // ---------------------------------------------------------------------
  // Every step keeps the invariant
  // ---------------------------------------------------------------------

  lemma RollKeepsCell(s: State, c: Cell)
    requires Inv(s) && Enabled(s, RollNext) && s.phase.todo[0] in s.db.tables && s.phase.start < s.phase.cutoff
    requires Live(s, c)
    ensures CellOk(Step(s, RollNext), c)
  {
    RollCell(s.db, s.phase.todo[0], s.phase.start, s.phase.cutoff, c);
  }

  /** A cell that gains a sample is behind, whatever it was before. */
  lemma GrownIsBehind(db: Db, after: Db, c: Cell)
    requires Agrees(db, c) || Behind(db, c)
    requires after.rollup == db.rollup && HourRows(db.tables, c) < HourRows(after.tables, c)
    ensures Behind(after, c)
  {
    var Old, New := HourRows(db.tables, c), HourRows(after.tables, c);
    assert |New - Old| > 0 && Old + (New - Old) == New;
    AggRowsMeaning(Old);
  }

  lemma WriteGrows(t: Partitions, rows: seq<Row>, c: Cell)
    requires WritePath.Accepts(t, rows)
    ensures var B := WritePath.RowSet(rows);
            var Old, New := HourRows(t, c), HourRows(WritePath.InsertRows(t, B), c);
            if c in CellsOf(B) then Old < New else Old == New
  {
    var B := WritePath.RowSet(rows);
    WritePath.WriteHourRows(t, B, c);
    if c in CellsOf(B) {
      var r :| r in B && CellOf(r) == c;
      assert r !in HourRows(t, c) && r in HourRows(WritePath.InsertRows(t, B), c);
    }
  }

  /** The effect of a write on one cell, in terms of the database alone. */
  lemma WriteCell(db: Db, rows: seq<Row>, c: Cell)
    requires rows != [] && WritePath.Accepts(db.tables, rows)
    requires Agrees(db, c) || Behind(db, c)
    ensures var after := WritePath.Write(db, rows);
            if c in CellsOf(WritePath.RowSet(rows)) then Behind(after, c)
            else (Agrees(db, c) ==> Agrees(after, c)) && (Behind(db, c) ==> Behind(after, c))
  {
    WriteGrows(db.tables, rows, c);
    var after := WritePath.Write(db, rows);
    assert after.rollup == db.rollup && after.tables == WritePath.InsertRows(db.tables, WritePath.RowSet(rows));
    if c in CellsOf(WritePath.RowSet(rows)) {
      GrownIsBehind(db, after, c);
    }
  }

  lemma WriteKeepsCell(s: State, rows: seq<Row>, c: Cell)
    requires rows != [] && WritePath.Accepts(s.db.tables, rows)
    requires CellOk(s, c)
    ensures CellOk(Step(s, Insert(rows)), c)
  {
    var t := Step(s, Insert(rows));
    assert t.db == WritePath.Write(s.db, rows);
    assert c in t.stale <==> c in s.stale || c in CellsOf(WritePath.RowSet(rows));
    WriteCell(s.db, rows, c);
  }

  lemma OtherHoursStay(t: Partitions, p: Month, c: Cell)
    requires ValidTables(t) && MonthOfCell(c) != p
    ensures HourRows(t - {p}, c) == HourRows(t, c)
  {
    var u := t - {p};
    forall r | r in HourRows(t, c)
      ensures r in HourRows(u, c)
    {
      HourInOnePartition(r.ts);
      RowInItsTable(t, r);
      assert r in u[MonthOf(r.ts)];
    }
  }

  lemma DropTableKeepsCell(s: State, p: Month, c: Cell)
    requires ValidTables(s.db.tables) && IsMonth(p)
    requires CellOk(s, c) && MonthOfCell(c) != p
    ensures CellOk(Step(s, DropTable(p)), c)
  {
    OtherHoursStay(s.db.tables, p, c);
  }

  lemma DropRollupKeepsCell(s: State, p: Month, c: Cell)
    requires Inv(s) && Enabled(s, DropRollup(p))
    requires Live(Step(s, DropRollup(p)), c)
    ensures CellOk(Step(s, DropRollup(p)), c)
  {
    var t := s.db.tables;
    PartitionLaw(c.hour, p);
    forall r: Row
      ensures r in HourRows(t, c) && MonthOfCell(c) == p <==> r in Table(t, p) && CellOf(r) == c
    {
      HourInOnePartition(r.ts);
      RowInItsTable(t, r);
    }
    if MonthOfCell(c) == p {
      assert c in CellsOf(Table(t, p)) <==> HourRows(t, c) != {};
    } else {
      assert c !in CellsOf(Table(t, p));
      assert Live(s, c);
    }
  }

  lemma WriteKeepsDb(db: Db, rows: seq<Row>)
    requires ValidTables(db.tables) && rows != [] && WritePath.Accepts(db.tables, rows)
    requires db.watermark.Some? ==> IsHour(db.watermark.value)
    ensures var after := WritePath.Write(db, rows);
            && ValidTables(after.tables)
            && (after.watermark.Some? <==> db.watermark.Some?)
            && (after.watermark.Some? ==> IsHour(after.watermark.value) && after.watermark.value <= db.watermark.value)
  {
    WritePath.InsertKeepsValid(db.tables, rows);
    HourContains(WritePath.MinTs(rows));
  }

  lemma MisfiledMember(B: set<Row>, r: Row, c: Cell)
    requires r in B && Misfiles(r, c)
    ensures c in MisfiledCells(B)
  {}

  /** A write misfiles into the cells it records, and those are no positive hours. */
  lemma WriteKeepsFiling(t: Partitions, misfiled: set<Cell>, B: set<Row>)
    requires FilingOk(t, misfiled)
    ensures FilingOk(WritePath.InsertRows(t, B), misfiled + MisfiledCells(B))
  {
    WritePath.InsertRowsAdds(t, B);
    forall c, r | c !in misfiled + MisfiledCells(B) && r in AllRows(WritePath.InsertRows(t, B))
      ensures !Misfiles(r, c)
    {
      if r in B && Misfiles(r, c) {
        MisfiledMember(B, r, c);
      } else if r !in B {
        assert r in AllRows(t);
      }
    }
    forall c | c in MisfiledCells(B)
      ensures c.hour <= 0
    {
      var r :| r in B && Misfiles(r, c);
      if c.hour > 0 {
        PositiveIsFiledRight(r, c);
      }
    }
  }

  lemma ListKeepsLate(s: State, names: seq<Month>)
    requires Inv(s) && Enabled(s, List(names))
    ensures LateOk(Step(s, List(names)))
  {
    assert s.late == {} by {
      assert forall c :: !PassedBy(s.phase, c);
    }
    var t := Step(s, List(names));
    forall c | c in t.stale && Live(t, c) && s.phase.w0 <= c.hour < s.phase.cutoff
      ensures MonthOfCell(c) in names
    {
      assert Live(s, c) && CellOk(s, c);
      var r :| r in HourRows(s.db.tables, c);
      HourBound(r.ts, s.phase.w0);
      HourBound(r.ts, s.phase.cutoff);
      ListingCovers(s.db.tables, s.phase.w0, s.phase.cutoff, r);
      HourInOnePartition(r.ts);
    }
  }

  lemma RollKeepsRest(s: State)
    requires Inv(s) && Enabled(s, RollNext)
    ensures var t := Step(s, RollNext); PassOk(t) && LateOk(t)
  {
    var p := s.phase.todo[0];
    assert forall q :: q in s.phase.todo <==> q == p || q in s.phase.todo[1..];
    assert p !in s.phase.todo[1..];
  }

  /** Steps that change neither tables nor rollup. */
  lemma PhaseStepKeepsInv(s: State, e: Event)
    requires Inv(s) && Enabled(s, e) && (e.Begin? || e.ReadStart? || e.Settle? || e.Abort?)
    ensures Inv(Step(s, e))
  {
    var t := Step(s, e);
    forall c | Live(t, c)
      ensures CellOk(t, c)
    {
      assert Live(s, c);
    }
  }

  lemma ListKeepsInv(s: State, names: seq<Month>)
    requires Inv(s) && Enabled(s, List(names))
    ensures Inv(Step(s, List(names)))
  {
    ListKeepsLate(s, names);
    var t := Step(s, List(names));
    forall c | Live(t, c)
      ensures CellOk(t, c)
    {
      assert Live(s, c);
    }
  }

  lemma RollMapValid(S: set<Row>, start: int, cutoff: int)
    ensures ValidRollup(RollMap(S, start, cutoff))
  {
    var m := RollMap(S, start, cutoff);
    forall c | c in m
      ensures IsHour(c.hour) && m[c].Stats? && m[c].count >= 1
    {
      var r :| r in RollRows(S, start, cutoff) && RollKey()(r) == c;
      MultipleOf(SqlDiv(r.ts, HOUR_NS), HOUR_NS);
      RollMapAt(S, start, cutoff, c);
      FoldNonempty(Group(RollRows(S, start, cutoff), RollKey(), c), RowAgg());
    }
  }

  lemma RollKeepsInv(s: State)
    requires Inv(s) && Enabled(s, RollNext)
    ensures Inv(Step(s, RollNext))
  {
    RollKeepsRest(s);
    RollMapValid(Table(s.db.tables, s.phase.todo[0]), s.phase.start, s.phase.cutoff);
    var t := Step(s, RollNext);
    forall c | Live(t, c)
      ensures CellOk(t, c)
    {
      assert Live(s, c);
      if s.phase.todo[0] in s.db.tables && s.phase.start < s.phase.cutoff {
        RollKeepsCell(s, c);
      }
    }
  }

  lemma DropTableKeepsInv(s: State, p: Month)
    requires Inv(s) && IsMonth(p)
    ensures Inv(Step(s, DropTable(p)))
  {
    var t := Step(s, DropTable(p));
    forall c | Live(t, c)
      ensures CellOk(t, c)
    {
      assert Live(s, c);
      DropTableKeepsCell(s, p, c);
    }
  }

  lemma InsertKeepsInv(s: State, rows: seq<Row>)
    requires Inv(s) && rows != [] && WritePath.Accepts(s.db.tables, rows)
    ensures Inv(Step(s, Insert(rows)))
  {
    WriteKeepsDb(s.db, rows);
    WriteKeepsFiling(s.db.tables, s.misfiled, WritePath.RowSet(rows));
    var t := Step(s, Insert(rows));
    forall c | Live(t, c)
      ensures CellOk(t, c)
    {
      assert Live(s, c);
      WriteKeepsCell(s, rows, c);
    }
  }

  lemma DropRollupKeepsLate(s: State, p: Month)
    requires Inv(s) && Enabled(s, DropRollup(p))
    ensures LateOk(Step(s, DropRollup(p)))
  {
    var t := Step(s, DropRollup(p));
    forall c | c in t.stale && Live(t, c) && PassedBy(t.phase, c)
      ensures c in t.late
    {
      if c !in CellsOf(Table(s.db.tables, p)) {
        assert MonthOfCell(c) != p && Live(s, c);
      }
    }
  }

  lemma DropRollupKeepsInv(s: State, p: Month)
    requires Inv(s) && Enabled(s, DropRollup(p))
    ensures Inv(Step(s, DropRollup(p)))
  {
    DropRollupKeepsLate(s, p);
    var t := Step(s, DropRollup(p));
    forall c | Live(t, c)
      ensures CellOk(t, c)
    {
      DropRollupKeepsCell(s, p, c);
    }
  }

  /** Every step of every transaction, enabled in any order, keeps the invariant. */
  lemma StepKeepsInv(s: State, e: Event)
    requires Inv(s) && Enabled(s, e)
    ensures Inv(Step(s, e))
  {
    match e
    case List(names) => ListKeepsInv(s, names);
    case RollNext => RollKeepsInv(s);
    case Insert(rows) =>
      if rows != [] && WritePath.Accepts(s.db.tables, rows) {
        InsertKeepsInv(s, rows);
      }
    case DropTable(p) => DropTableKeepsInv(s, p);
    case DropRollup(p) => DropRollupKeepsInv(s, p);
    case Begin(_) => PhaseStepKeepsInv(s, e);
    case ReadStart => PhaseStepKeepsInv(s, e);
    case Settle => PhaseStepKeepsInv(s, e);
    case Abort => PhaseStepKeepsInv(s, e);
  }
}
