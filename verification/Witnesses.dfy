/** Inputs on which the code does less than its comments say: a write that a pass loses,
    samples before the epoch that are counted twice, put into the wrong bucket or never
    rolled, a rebuild that clears a later month, and a read that is not in global order.
    The exact conditions are proved where the operations are modelled. */
module Witnesses {
  import opened Options
  import opened Calendar
  import opened Aggregates
  import opened Tables
  import opened Rollup
  import opened RollupRuns
  import opened RollupAgreement
  import opened Scan
  import opened Partials
  import opened FastPath
  import opened Downsample
  import opened Queries
  import RollupPasses
  import WritePath

  const JANUARY: Month := Month(1970, 1)
  const FEBRUARY: Month := Month(1970, 2)
  const DECEMBER: Month := Month(1969, 12)

  lemma Bounds()
    ensures MonthStart(DECEMBER) == -31 * DAY_NS && MonthEnd(DECEMBER) == MonthStart(JANUARY) == 0
    ensures MonthEnd(JANUARY) == MonthStart(FEBRUARY) == 31 * DAY_NS
    ensures MonthEnd(FEBRUARY) == 59 * DAY_NS
  {
    MonthTable(1969);
    MonthTable(1970);
  }

  // ---------------------------------------------------------------------
  // A write during a pass
  // ---------------------------------------------------------------------

  /** In any reachable state in which a pass has visited all its partitions, an accepted write
      into an hour the pass covered, at or above the watermark, is lost to the rollup: the
      settle that follows puts the watermark above an hour whose row misses the sample. */
  lemma LateWriteIsLost(s: RollupRuns.State, rows: seq<Row>, r: Row)
    requires Inv(s) && Agreement(s) && Enabled(s, Settle)
    requires s.db.watermark == Some(s.phase.w0) || (s.db.watermark.None? && s.phase.w0 == 0)
    requires WritePath.Accepts(s.db.tables, rows) && r in rows
    requires forall q :: q in rows ==> q.ts >= s.phase.w0
    requires r.ts < s.phase.cutoff && Live(Step(s, Insert(rows)), CellOf(r))
    ensures Enabled(Step(s, Insert(rows)), Settle) && !Agreement(Step(Step(s, Insert(rows)), Settle))
  {
    LateCell(s, rows, r);
    StepKeepsInv(s, Insert(rows));
    StepKeepsAgreement(s, Insert(rows));
    StepKeepsAgreement(Step(s, Insert(rows)), Settle);
  }

  lemma LateCell(s: RollupRuns.State, rows: seq<Row>, r: Row)
    requires PassOk(s) && Enabled(s, Settle)
    requires WritePath.Accepts(s.db.tables, rows) && r in rows
    requires forall q :: q in rows ==> q.ts >= s.phase.w0
    requires s.db.watermark.Some? ==> s.db.watermark.value >= s.phase.w0
    requires r.ts < s.phase.cutoff
    ensures var t := Step(s, Insert(rows));
            CellOf(r) in t.late && (t.db.watermark.Some? ==> t.db.watermark.value >= s.phase.w0) && t.phase == s.phase
  {
    HourBound(r.ts, s.phase.w0);
    HourBound(r.ts, s.phase.cutoff);
    HourBound(WritePath.MinTs(rows), s.phase.w0);
    assert CellOf(r) in CellsOf(WritePath.RowSet(rows));
  }

  lemma RunCons(s: RollupRuns.State, e: Event, rest: seq<Event>)
    requires Enabled(s, e) && IsRun(Step(s, e), rest)
    ensures IsRun(s, [e] + rest) && After(s, [e] + rest) == After(Step(s, e), rest)
  {
    assert ([e] + rest)[1..] == rest;
  }

  lemma {:induction false} RunConcat(s: RollupRuns.State, a: seq<Event>, b: seq<Event>)
    requires IsRun(s, a) && IsRun(After(s, a), b)
    ensures IsRun(s, a + b) && After(s, a + b) == After(After(s, a), b)
    decreases |a|
  {
    if a == [] {
      assert a + b == b;
    } else {
      assert (a + b)[0] == a[0] && (a + b)[1..] == a[1..] + b;
      RunConcat(Step(s, a[0]), a[1..], b);
    }
  }

  const FIRST: Row := Row(1, HOUR_NS, 1.0)
  const LATE: Row := Row(1, HOUR_NS + 1, 2.0)

  lemma OneRowAccepted(t: Partitions, r: Row)
    requires FitsInt64(r.ts) && forall q :: q in AllRows(t) ==> !SameKey(q, r)
    ensures WritePath.Accepts(t, [r])
  {
    assert [r][..0] == [] && WritePath.DistinctKeys([]);
  }

  /** A first pass over one sample, up to its settle. */
  function BeforeSettle(): seq<Event> {
    [Insert([FIRST])] + PassSteps()
  }

  function PassSteps(): seq<Event> {
    [Begin(2 * HOUR_NS)] + ([List([JANUARY])] + ([ReadStart] + ([RollNext] + [])))
  }

  ghost predicate HoldsFirst(s: RollupRuns.State) {
    && s.db.watermark.None? && s.dropping == {}
    && s.db.tables.Keys == {JANUARY} && AllRows(s.db.tables) == {FIRST}
  }

  lemma FirstStored() returns (s: RollupRuns.State)
    ensures Enabled(INITIAL, Insert([FIRST])) && s == Step(INITIAL, Insert([FIRST]))
    ensures s.phase.Idle? && HoldsFirst(s)
  {
    Bounds();
    PartitionLaw(FIRST.ts, JANUARY);
    assert AllRows(map[]) == {};
    OneRowAccepted(map[], FIRST);
    s := Step(INITIAL, Insert([FIRST]));
    WritePath.InsertRowsAdds(map[], WritePath.RowSet([FIRST]));
    assert WritePath.RowSet([FIRST]) == {FIRST};
    assert WritePath.MonthsOf({FIRST}) == {JANUARY};
  }

  lemma PassStepsRun(s: RollupRuns.State)
    requires s.phase.Idle? && HoldsFirst(s)
    ensures IsRun(s, PassSteps())
    ensures var t := After(s, PassSteps()); t.phase == Rolling(0, 2 * HOUR_NS, []) && HoldsFirst(t)
  {
    Bounds();
    MultipleOf(2, HOUR_NS);
    var s2 := Step(s, Begin(2 * HOUR_NS));
    assert ToRoll(s.db.tables, 0, 2 * HOUR_NS) == {JANUARY};
    var s3 := Step(s2, List([JANUARY]));
    var s4 := Step(s3, ReadStart);
    RunCons(s4, RollNext, []);
    RunCons(s3, ReadStart, [RollNext] + []);
    RunCons(s2, List([JANUARY]), [ReadStart] + ([RollNext] + []));
    RunCons(s, Begin(2 * HOUR_NS), [List([JANUARY])] + ([ReadStart] + ([RollNext] + [])));
  }

  /** A positive hour is live unless its month awaits cleanup, also after a write into it. */
  lemma LiveHour(s: RollupRuns.State, r: Row)
    requires Inv(s) && s.dropping == {} && WritePath.Accepts(s.db.tables, [r]) && FloorHour(r.ts) > 0
    ensures Live(Step(s, Insert([r])), CellOf(r))
  {
    CellMonth(r);
    StepKeepsInv(s, Insert([r]));
  }

  /** From a state about to settle with the one sample stored, one more write is lost. */
  lemma LateWriteAfter(s: RollupRuns.State)
    requires Inv(s) && HoldsFirst(s) && s.phase == Rolling(0, 2 * HOUR_NS, [])
    ensures IsRun(s, [Insert([LATE])] + ([Settle] + [])) && !Agreement(After(s, [Insert([LATE])] + ([Settle] + [])))
  {
    assert Agreement(s);
    OneRowAccepted(s.db.tables, LATE);
    HourOf(LATE.ts, HOUR_NS);
    PartitionLaw(HOUR_NS, JANUARY);
    LiveHour(s, LATE);
    LateWriteIsLost(s, [LATE], LATE);
    RunCons(Step(s, Insert([LATE])), Settle, []);
    RunCons(s, Insert([LATE]), [Settle] + []);
  }

  /** One run from the empty store in which agreement is lost. */
  lemma SomeRunLosesAWrite()
    ensures IsRun(INITIAL, BeforeSettle())
    ensures var s := After(INITIAL, BeforeSettle());
            && IsRun(s, [Insert([LATE])] + ([Settle] + []))
            && !Agreement(After(s, [Insert([LATE])] + ([Settle] + [])))
  {
    var s := FirstStored();
    PassStepsRun(s);
    RunCons(INITIAL, Insert([FIRST]), PassSteps());
    InitialOk();
    EveryRunIsExact(INITIAL, BeforeSettle());
    LateWriteAfter(After(INITIAL, BeforeSettle()));
  }

  // ---------------------------------------------------------------------
  // Samples before the epoch
  // ---------------------------------------------------------------------

  /** A sample of the last hour before the epoch, written after a first pass and rolled by a
      second one in the same hour. */
  function Backfill(r: Row): seq<Event> {
    RollupPasses.PassEvents([], 3 * HOUR_NS) + ([Insert([r])] + RollupPasses.PassEvents([DECEMBER], 3 * HOUR_NS))
  }

  /** What the store then holds: the sample, and its rollup row under the SQL key. */
  ghost predicate Backfilled(db: Db, r: Row) {
    && db.tables.Keys == {DECEMBER} && Table(db.tables, DECEMBER) == {r} && AllRows(db.tables) == {r}
    && db.rollup == map[RollKey()(r) := One(r.value)]
    && db.watermark == Some(3 * HOUR_NS)
  }

  predicate JustBefore(r: Row) {
    -HOUR_NS <= r.ts < 0
  }

  lemma FirstPass() returns (s: RollupRuns.State)
    ensures IsRun(INITIAL, RollupPasses.PassEvents([], 3 * HOUR_NS))
    ensures s == After(INITIAL, RollupPasses.PassEvents([], 3 * HOUR_NS))
    ensures s.phase.Idle? && s.db == Db(map[], map[], Some(3 * HOUR_NS))
  {
    MultipleOf(3, HOUR_NS);
    assert ToRoll(map[], 0, 3 * HOUR_NS) == {};
    RollupPasses.UndisturbedPassIsRun(INITIAL, [], 3 * HOUR_NS);
    s := After(INITIAL, RollupPasses.PassEvents([], 3 * HOUR_NS));
  }

  lemma OneRowStored(s: RollupRuns.State, r: Row)
    requires s.phase.Idle? && s.db.tables == map[] && s.db.rollup == map[] && JustBefore(r)
    ensures WritePath.Accepts(s.db.tables, [r])
    ensures var u := Step(s, Insert([r]));
            && u.phase.Idle? && u.db.tables.Keys == {DECEMBER} && Table(u.db.tables, DECEMBER) == {r} && AllRows(u.db.tables) == {r}
            && u.db.rollup == map[] && u.db.watermark == WritePath.Rewind(s.db.watermark, r.ts)
  {
    Bounds();
    PartitionLaw(r.ts, DECEMBER);
    assert AllRows(map[]) == {};
    OneRowAccepted(map[], r);
    WritePath.InsertRowsAdds(map[], {r});
    assert WritePath.RowSet([r]) == {r};
    assert WritePath.MonthsOf({r}) == {DECEMBER} && WritePath.RowsOfMonth({r}, DECEMBER) == {r};
  }

  lemma RolledBackfill(db: Db, r: Row)
    requires JustBefore(r) && db.tables.Keys == {DECEMBER} && Table(db.tables, DECEMBER) == {r} && AllRows(db.tables) == {r}
    requires db.rollup == map[] && db.watermark == Some(-HOUR_NS)
    ensures Backfilled(Pass(db, [DECEMBER], 3 * HOUR_NS), r)
  {
    var t := db.tables;
    assert [DECEMBER][..0] == [];
    assert Written(t, [], -HOUR_NS, 3 * HOUR_NS) == map[];
    var S := RollRows({r}, -HOUR_NS, 3 * HOUR_NS);
    assert S == {r};
    OneRowRolled(r);
    assert Written(t, [DECEMBER], -HOUR_NS, 3 * HOUR_NS) == map[] + RollMap({r}, -HOUR_NS, 3 * HOUR_NS);
  }

  lemma OneRowRolled(r: Row)
    requires JustBefore(r)
    ensures RollMap({r}, -HOUR_NS, 3 * HOUR_NS) == map[RollKey()(r) := One(r.value)]
  {
    var S := RollRows({r}, -HOUR_NS, 3 * HOUR_NS);
    assert S == {r};
    assert Image(S, RollKey()) == {RollKey()(r)};
    assert Group(S, RollKey(), RollKey()(r)) == {r};
    OneRowAgg(r);
  }

  lemma SecondPass(u: RollupRuns.State, r: Row)
    requires JustBefore(r) && u.phase.Idle? && u.db.rollup == map[] && u.db.watermark == Some(-HOUR_NS)
    requires u.db.tables.Keys == {DECEMBER} && Table(u.db.tables, DECEMBER) == {r} && AllRows(u.db.tables) == {r}
    ensures IsRun(u, RollupPasses.PassEvents([DECEMBER], 3 * HOUR_NS))
    ensures Backfilled(After(u, RollupPasses.PassEvents([DECEMBER], 3 * HOUR_NS)).db, r)
  {
    Bounds();
    MultipleOf(3, HOUR_NS);
    assert ToRoll(u.db.tables, -HOUR_NS, 3 * HOUR_NS) == {DECEMBER};
    RollupPasses.UndisturbedPassIsRun(u, [DECEMBER], 3 * HOUR_NS);
    RolledBackfill(u.db, r);
  }

  /** The backfill is a run from the empty store. */
  lemma BackfillRuns(r: Row)
    requires JustBefore(r)
    ensures IsRun(INITIAL, Backfill(r)) && Backfilled(After(INITIAL, Backfill(r)).db, r)
  {
    var s := FirstPass();
    OneRowStored(s, r);
    HourOf(r.ts, -HOUR_NS);
    SecondPass(Step(s, Insert([r])), r);
    RunCons(s, Insert([r]), RollupPasses.PassEvents([DECEMBER], 3 * HOUR_NS));
    RunConcat(INITIAL, RollupPasses.PassEvents([], 3 * HOUR_NS), [Insert([r])] + RollupPasses.PassEvents([DECEMBER], 3 * HOUR_NS));
  }

  lemma OneRowAgg(r: Row)
    ensures AggRows({r}) == One(r.value)
  {
    FoldAdd({}, RowAgg(), r);
    assert {} + {r} == {r};
  }

  const OLD: Row := Row(1, -1, 5.0)
  const EARLY: Query := Query({1}, Some(-HOUR_NS), Some(2 * HOUR_NS))

  lemma EarlyWindow(db: Db)
    requires Backfilled(db, OLD)
    ensures Eligible(db.watermark, EARLY, 0, None) && Eligible(db.watermark, EARLY, 0, Some(HOUR_NS))
    ensures LeftRows(db.tables, EARLY, 0) == {OLD} && RightRows(db.tables, EARLY, 0) == {} && Selected(db.tables, EARLY) == {OLD}
    ensures StartHour(EARLY) + HOUR_NS == 0 && EndHour(EARLY, 0) == 2 * HOUR_NS
    ensures db.rollup == map[Cell(1, 0) := One(5.0)] && CellsIn(db.rollup, {1}, 0, 2 * HOUR_NS) == {Cell(1, 0)}
  {
    HourOf(-HOUR_NS, -HOUR_NS);
    HourOf(2 * HOUR_NS, 2 * HOUR_NS);
    assert RollKey()(OLD) == Cell(1, 0);
  }

  /** The SQL hour key files a sample a nanosecond before the epoch under hour zero. After a
      run from the empty store, a window that starts before the epoch counts it twice: once
      at the raw edge, once in the rolled middle; with hourly buckets it shows a bucket that
      has no sample. */
  lemma OldSampleCountsTwice()
    ensures IsRun(INITIAL, Backfill(OLD))
    ensures var db := After(INITIAL, Backfill(OLD)).db;
            && Eligible(db.watermark, EARLY, 0, None)
            && At(FastPartials(db, EARLY, 0, None), None) == Stats(2, 10.0, 5.0, 5.0)
            && At(Reference(Selected(db.tables, EARLY), None), None) == Stats(1, 5.0, 5.0, 5.0)
            && Some(0) in FastPartials(db, EARLY, 0, Some(HOUR_NS)) && Some(0) !in Reference(Selected(db.tables, EARLY), Some(HOUR_NS))
  {
    BackfillRuns(OLD);
    var db := After(INITIAL, Backfill(OLD)).db;
    EarlyWindow(db);
    CountedTwice(db);
    ExtraBucket(db);
  }

  lemma CountedTwice(db: Db)
    requires Backfilled(db, OLD)
    ensures At(FastPartials(db, EARLY, 0, None), None) == Stats(2, 10.0, 5.0, 5.0)
    ensures At(Reference(Selected(db.tables, EARLY), None), None) == Stats(1, 5.0, 5.0, 5.0)
  {
    EarlyWindow(db);
    WholeWindowReference({OLD});
    WholeWindowReference({});
    OneRowAgg(OLD);
    OneCellPartial(db.rollup, Cell(1, 0));
  }

  lemma ExtraBucket(db: Db)
    requires Backfilled(db, OLD)
    ensures Some(0) in FastPartials(db, EARLY, 0, Some(HOUR_NS)) && Some(0) !in Reference(Selected(db.tables, EARLY), Some(HOUR_NS))
  {
    EarlyWindow(db);
    var C := {Cell(1, 0)};
    assert CellKey(Some(HOUR_NS))(Cell(1, 0)) == Some(0);
    assert Some(0) in Image(C, CellKey(Some(HOUR_NS)));
    assert Some(0) in MiddlePartial(db, EARLY, 0, Some(HOUR_NS));
    assert StartKey(Some(HOUR_NS))(OLD) == Some(-HOUR_NS);
  }

  const ALIGNED: Row := Row(1, -3_600_000_000_000, 7.0)

  /** A sample on the hour boundary before the epoch is filed right, yet a query in buckets of
      two hours puts its rolled hour into the bucket after its own: an eligible query after a
      run from the empty store whose hours are exact, and which is answered wrong. */
  lemma EarlyHourInWrongBucket()
    ensures IsRun(INITIAL, Backfill(ALIGNED))
    ensures var db := After(INITIAL, Backfill(ALIGNED)).db;
            var q := Query({1}, Some(-3 * HOUR_NS), Some(2 * HOUR_NS));
            && Eligible(db.watermark, q, 0, Some(2 * HOUR_NS)) && HoursExact(db, q, 0)
            && FastPartials(db, q, 0, Some(2 * HOUR_NS)) != Reference(Selected(db.tables, Window(q, 0)), Some(2 * HOUR_NS))
  {
    BackfillRuns(ALIGNED);
    WrongBucket(After(INITIAL, Backfill(ALIGNED)).db);
  }

  lemma WrongBucket(db: Db)
    requires Backfilled(db, ALIGNED)
    ensures var q := Query({1}, Some(-3 * HOUR_NS), Some(2 * HOUR_NS));
            && Eligible(db.watermark, q, 0, Some(2 * HOUR_NS)) && HoursExact(db, q, 0)
            && FastPartials(db, q, 0, Some(2 * HOUR_NS)) != Reference(Selected(db.tables, Window(q, 0)), Some(2 * HOUR_NS))
  {
    var q := Query({1}, Some(-3 * HOUR_NS), Some(2 * HOUR_NS));
    HourOf(-3 * HOUR_NS, -3 * HOUR_NS);
    HourOf(2 * HOUR_NS, 2 * HOUR_NS);
    AlignedIsExact(db);
    assert Cell(1, -HOUR_NS) in CellsIn(db.rollup, {1}, -2 * HOUR_NS, 2 * HOUR_NS);
    assert !Aligned(-HOUR_NS, Some(2 * HOUR_NS));
    FastPartialsExactWhen(db, q, 0, Some(2 * HOUR_NS));
  }

  lemma AlignedIsExact(db: Db)
    requires Backfilled(db, ALIGNED)
    ensures db.rollup == map[Cell(1, -HOUR_NS) := One(7.0)] && ValidRollup(db.rollup)
    ensures forall c :: Agrees(db, c)
  {
    HourOf(ALIGNED.ts, -HOUR_NS);
    assert CellOf(ALIGNED) == RollKey()(ALIGNED) == Cell(1, -HOUR_NS);
    OneRowAgg(ALIGNED);
    forall c
      ensures Agrees(db, c)
    {
      if c == Cell(1, -HOUR_NS) {
        assert HourRows(db.tables, c) == {ALIGNED};
      } else {
        assert HourRows(db.tables, c) == {};
      }
    }
  }

  function FirstPassOver(r: Row): seq<Event> {
    [Insert([r])] + RollupPasses.PassEvents([DECEMBER], 3 * HOUR_NS)
  }

  /** A sample before the epoch that is stored before the first pass is never rolled: that pass
      starts at the epoch and settles above the sample's hour. */
  lemma FirstPassSkipsEarlyHours()
    ensures IsRun(INITIAL, FirstPassOver(ALIGNED)) && !Agreement(After(INITIAL, FirstPassOver(ALIGNED)))
  {
    OneRowStored(INITIAL, ALIGNED);
    var u := Step(INITIAL, Insert([ALIGNED]));
    Bounds();
    MultipleOf(3, HOUR_NS);
    assert ToRoll(u.db.tables, 0, 3 * HOUR_NS) == {DECEMBER};
    RollupPasses.UndisturbedPassIsRun(u, [DECEMBER], 3 * HOUR_NS);
    RunCons(INITIAL, Insert([ALIGNED]), RollupPasses.PassEvents([DECEMBER], 3 * HOUR_NS));
    SkippedHour(u, After(INITIAL, FirstPassOver(ALIGNED)));
  }

  lemma SkippedHour(u: RollupRuns.State, s: RollupRuns.State)
    requires u == Step(INITIAL, Insert([ALIGNED])) && AllRows(u.db.tables) == {ALIGNED} && u.db.watermark.None? && u.db.rollup == map[]
    requires Table(u.db.tables, DECEMBER) == {ALIGNED} && WritePath.Accepts(map[], [ALIGNED])
    requires s.db == Pass(u.db, [DECEMBER], 3 * HOUR_NS) && s.dropping == u.dropping && s.misfiled == u.misfiled
    ensures !Agreement(s)
  {
    var c := Cell(1, -HOUR_NS);
    HourOf(ALIGNED.ts, -HOUR_NS);
    assert CellOf(ALIGNED) == c;
    assert ALIGNED in HourRows(s.db.tables, c);
    assert [DECEMBER][..0] == [];
    assert RollRows({ALIGNED}, 0, 3 * HOUR_NS) == {};
    assert Written(u.db.tables, [DECEMBER], 0, 3 * HOUR_NS) == map[];
    assert MisfiledCells(WritePath.RowSet([ALIGNED])) == {};
    assert Live(s, c) && !Agrees(s.db, c);
  }

  lemma OneCellPartial(rollup: map<Cell, Agg>, c: Cell)
    requires c in rollup
    ensures GroupBy({c}, CellKey(None), CellAgg(rollup)) == map[None := rollup[c]]
  {
    assert CellKey(None)(c) == None;
    assert Image({c}, CellKey(None)) == {None};
    assert Group({c}, CellKey(None), None) == {c};
    FoldAdd({}, CellAgg(rollup), c);
    assert {} + {c} == {c};
  }

  // ---------------------------------------------------------------------
  // A rebuild
  // ---------------------------------------------------------------------

  const LATER: Row := Row(1, 31 * 86_400_000_000_000, 3.0)

  /** Two months, the second one rolled. */
  ghost function TwoMonths(): Db {
    Roll(Db(map[JANUARY := {}, FEBRUARY := {LATER}], map[], Some(MonthEnd(FEBRUARY))), FEBRUARY, 0, MonthEnd(FEBRUARY))
  }

  /** The bounds the two months need, as plain facts. */
  lemma TwoMonthBounds()
    ensures IsHour(MonthStart(JANUARY)) && IsHour(MonthEnd(FEBRUARY)) && MonthOf(LATER.ts) == FEBRUARY
    ensures MonthStart(JANUARY) == 0 && MonthEnd(JANUARY) == LATER.ts < MonthEnd(FEBRUARY)
    ensures FloorHour(LATER.ts) == LATER.ts
  {
    Bounds();
    PartitionLaw(LATER.ts, FEBRUARY);
    HourAligned(JANUARY);
    HourAligned(FEBRUARY);
    HourAligned(Next(FEBRUARY));
    HourOf(LATER.ts, LATER.ts);
  }

  /** With one sample stored and nothing rolled, a roll of its month up to `end` makes every hour
      exact. */
  lemma RolledCellAgrees(bare: Db, p: Month, r: Row, end: int, c: Cell)
    requires ValidTables(bare.tables) && AllRows(bare.tables) == {r} && bare.rollup == map[]
    requires IsHour(end) && 0 <= r.ts && r.ts < end && MonthOf(r.ts) == p
    ensures Agrees(Roll(bare, p, 0, end), c)
  {
    RollCell(bare, p, 0, end, c);
    if HourRows(bare.tables, c) != {} {
      assert c == CellOf(r);
      CellMonth(r);
      HourContains(r.ts);
      HourBound(r.ts, 0);
    } else {
      assert HourRows(Roll(bare, p, 0, end).tables, c) == {};
    }
  }

  lemma TwoMonthTables(t: Partitions)
    requires t == map[JANUARY := {}, FEBRUARY := {LATER}] && MonthOf(LATER.ts) == FEBRUARY
    ensures ValidTables(t) && AllRows(t) == {LATER}
  {
    assert LATER in t[FEBRUARY];
  }

  lemma TwoMonthsAgree(end: int)
    requires end == MonthEnd(FEBRUARY)
    ensures ValidTables(TwoMonths().tables) && AllRows(TwoMonths().tables) == {LATER}
    ensures forall c :: Agrees(TwoMonths(), c)
  {
    TwoMonthBounds();
    TwoMonthTables(TwoMonths().tables);
    forall c
      ensures Agrees(TwoMonths(), c)
    {
      RolledCellAgrees(Db(map[JANUARY := {}, FEBRUARY := {LATER}], map[], Some(end)), FEBRUARY, LATER, end, c);
    }
  }

  /** Rebuilding January with February's end as the cutoff deletes February's rollup rows:
      agreement held before and is gone afterwards. */
  lemma RebuildClearsLaterMonth()
    ensures ValidTables(TwoMonths().tables)
    ensures RollupPasses.AgreesBelow(TwoMonths(), MonthEnd(FEBRUARY))
    ensures !RollupPasses.AgreesBelow(RollPartition(TwoMonths(), JANUARY, true, MonthEnd(FEBRUARY)), MonthEnd(FEBRUARY))
  {
    var end := MonthEnd(FEBRUARY);
    TwoMonthBounds();
    TwoMonthsAgree(end);
    RollupPasses.RebuildKeepsAgreementWhen(TwoMonths(), JANUARY, end, end);
    assert RollupPasses.LosesLaterMonth(TwoMonths(), JANUARY, end, end);
  }

  // ---------------------------------------------------------------------
  // A read in another order
  // ---------------------------------------------------------------------

  /** Asked for the first row in an order that is neither `asc` nor `desc`, a read over two
      months gives a row of the older month, which is not the newest; and over two samples of
      one month a whole window is not anchored at the oldest. */
  lemma OtherOrderMisleads()
    ensures FirstRows([FIRST], {FIRST, LATER}, Other, Some(1)) && !FirstRows([FIRST], {FIRST, LATER}, Desc, Some(1))
    ensures !AnchorSafe({FIRST, LATE}, None, Other)
  {
    Bounds();
    PartitionLaw(FIRST.ts, JANUARY);
    PartitionLaw(LATE.ts, JANUARY);
    PartitionLaw(LATER.ts, FEBRUARY);
    assert |{FIRST, LATER}| == 2;
    assert forall r :: r in [FIRST] <==> r == FIRST;
    assert FirstRows([FIRST], {FIRST, LATER}, Other, Some(1));
    OtherOrderDescendsWhen([FIRST], {FIRST, LATER}, Some(1));
    assert IsFirst({FIRST, LATE}, Some(FIRST.ts));
  }
}
