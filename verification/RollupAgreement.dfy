/** When a run of the rollup protocol keeps agreement between stored hours and their samples:
    exactly which steps lose it, and what that means for whole runs. */
module RollupAgreement {
  import opened Options
  import opened Calendar
  import opened Tables
  import opened Rollup
  import opened RollupRuns
  import WritePath

  // ---------------------------------------------------------------------
  // When a step breaks agreement
  // ---------------------------------------------------------------------

  /** A live hour before the epoch that was written since it was last aggregated. */
  ghost predicate EarlyStale(s: State) {
    exists c :: c in s.stale && Live(s, c) && c.hour < 0
  }

  /** The steps that lose agreement: settling a pass that was overtaken by a write and not
      rewound, settling the very first pass over hours before the epoch, where it does not
      look, and the rollup cleanup of a month that holds samples again. */
  ghost predicate Breaks(s: State, e: Event)
    requires Enabled(s, e)
  {
    match e
    case Settle =>
      && !(s.db.watermark.Some? && s.db.watermark.value < s.phase.w0)
      && ((exists c :: c in s.late && Live(s, c)) || (s.db.watermark.None? && EarlyStale(s)))
    case DropRollup(p) =>
      s.db.watermark.Some? && exists r :: r in Table(s.db.tables, p) && CellOf(r) !in s.misfiled && CellOf(r).hour < s.db.watermark.value
    case _ => false
  }

  /** The stale cells below the cutoff of a finished pass are the late ones. */
  lemma LateAtSettle(s: State)
    requires LateOk(s) && PassOk(s) && Enabled(s, Settle) && NoStaleBelow(s, Some(s.phase.w0))
    ensures NoStaleBelow(s, Some(s.phase.cutoff)) <==> !exists c :: c in s.late && Live(s, c)
  {
    forall c | c in s.stale && Live(s, c)
      ensures c.hour < s.phase.cutoff <==> c in s.late
    {
      assert PassedBy(s.phase, c) <==> s.phase.w0 <= c.hour < s.phase.cutoff;
    }
  }

  lemma SettleAgreement(s: State)
    requires Inv(s) && Agreement(s) && Enabled(s, Settle)
    ensures Agreement(Step(s, Settle)) <==> !Breaks(s, Settle)
  {
    var t := Step(s, Settle);
    assert forall c :: Live(s, c) <==> Live(t, c);
    assert CellsOk(t) by {
      forall c | Live(t, c)
        ensures CellOk(t, c)
      {
        assert Live(s, c);
      }
    }
    AgreementIsNoStaleBelow(s);
    AgreementIsNoStaleBelow(t);
    assert NoStaleBelow(t, t.db.watermark) <==> NoStaleBelow(s, t.db.watermark);
    if !(s.db.watermark.Some? && s.db.watermark.value < s.phase.w0) {
      if s.db.watermark.Some? || !EarlyStale(s) {
        assert NoStaleBelow(s, Some(s.phase.w0));
        LateAtSettle(s);
      }
    }
  }

  /** A write leaves the watermark at or below the hours it touches. */
  lemma RewindsBelow(w: Option<int>, rows: seq<Row>, c: Cell)
    requires rows != [] && c in CellsOf(WritePath.RowSet(rows))
    ensures var after := WritePath.Rewind(w, WritePath.MinTs(rows)); after.Some? ==> after.value <= c.hour
  {
    var r :| r in rows && CellOf(r) == c;
    HourContains(WritePath.MinTs(rows));
    HourBound(r.ts, FloorHour(WritePath.MinTs(rows)));
  }

  lemma InsertAgreement(s: State, rows: seq<Row>)
    requires Inv(s) && Agreement(s) && rows != [] && WritePath.Accepts(s.db.tables, rows)
    ensures Agreement(Step(s, Insert(rows)))
  {
    var t := Step(s, Insert(rows));
    InsertKeepsInv(s, rows);
    AgreementIsNoStaleBelow(s);
    AgreementIsNoStaleBelow(t);
    forall c | c in t.stale && Live(t, c) && t.db.watermark.Some?
      ensures c.hour >= t.db.watermark.value
    {
      assert Live(s, c);
      if c in CellsOf(WritePath.RowSet(rows)) {
        RewindsBelow(s.db.watermark, rows, c);
      }
    }
  }

  lemma DropRollupAgreement(s: State, p: Month)
    requires Inv(s) && Agreement(s) && Enabled(s, DropRollup(p))
    ensures Agreement(Step(s, DropRollup(p))) <==> !Breaks(s, DropRollup(p))
  {
    var t := Step(s, DropRollup(p));
    DropRollupKeepsInv(s, p);
    AgreementIsNoStaleBelow(s);
    AgreementIsNoStaleBelow(t);
    forall r | r in Table(s.db.tables, p) && CellOf(r) !in s.misfiled
      ensures CellOf(r) in t.stale && Live(t, CellOf(r))
    {
      CellMonth(r);
      assert CellOf(r) in CellsOf(Table(s.db.tables, p));
    }
    forall c | c in t.stale && Live(t, c) && c !in CellsOf(Table(s.db.tables, p))
      ensures c in s.stale && Live(s, c)
    {
      assert MonthOfCell(c) != p;
    }
  }

  lemma DropTableAgreement(s: State, p: Month)
    requires Inv(s) && Agreement(s) && IsMonth(p)
    ensures Agreement(Step(s, DropTable(p)))
  {
    var t := Step(s, DropTable(p));
    DropTableKeepsInv(s, p);
    AgreementIsNoStaleBelow(s);
    AgreementIsNoStaleBelow(t);
    assert forall c :: Live(t, c) ==> Live(s, c);
  }

  lemma RollAgreement(s: State)
    requires Inv(s) && Agreement(s) && Enabled(s, RollNext)
    ensures Agreement(Step(s, RollNext))
  {
    var t := Step(s, RollNext);
    RollKeepsInv(s);
    AgreementIsNoStaleBelow(s);
    AgreementIsNoStaleBelow(t);
    assert forall c :: Live(t, c) ==> Live(s, c);
  }

  /** Agreement before a step is agreement after it, unless the step is one of the two
      that break it, and those always do. */
  lemma StepKeepsAgreement(s: State, e: Event)
    requires Inv(s) && Agreement(s) && Enabled(s, e)
    ensures Agreement(Step(s, e)) <==> !Breaks(s, e)
  {
    match e
    case Settle => SettleAgreement(s);
    case RollNext => RollAgreement(s);
    case Insert(rows) =>
      if rows != [] && WritePath.Accepts(s.db.tables, rows) {
        InsertAgreement(s, rows);
      }
    case DropTable(p) => DropTableAgreement(s, p);
    case DropRollup(p) => DropRollupAgreement(s, p);
    case Begin(_) => assert forall c :: Live(Step(s, e), c) <==> Live(s, c);
    case List(_) => assert forall c :: Live(Step(s, e), c) <==> Live(s, c);
    case ReadStart => assert forall c :: Live(Step(s, e), c) <==> Live(s, c);
    case Abort => assert forall c :: Live(Step(s, e), c) <==> Live(s, c);
  }

  /** A partition is rolled from the watermark stored at that moment, not from the one the pass
      began with: hours that a write rewound to meanwhile are exact as well. */
  lemma RollCatchesUp(s: State, c: Cell)
    requires Inv(s) && Enabled(s, ReadStart) && s.phase.todo[0] in s.db.tables && WatermarkOf(s.db.watermark) < s.phase.cutoff
    requires MonthOfCell(c) == s.phase.todo[0] && WatermarkOf(s.db.watermark) <= c.hour < s.phase.cutoff
    ensures Enabled(Step(s, ReadStart), RollNext)
    ensures Live(s, c) ==> Agrees(Step(Step(s, ReadStart), RollNext).db, c)
  {
    var u := Step(s, ReadStart);
    StepKeepsInv(s, ReadStart);
    StepKeepsInv(u, RollNext);
    var t := Step(u, RollNext);
    if Live(s, c) {
      assert Live(t, c) && CellOk(t, c) && c !in t.stale;
    }
  }

  // ---------------------------------------------------------------------
  // What moves what
  // ---------------------------------------------------------------------

  /** The parts of the database each step leaves alone. Reading, listing and giving up change
      nothing; rolling writes rollup rows only, settling the watermark only, a write everything
      but the rollup, and retention the table or the rollup rows of its month. */
  lemma StepLeaves(s: State, e: Event)
    requires Enabled(s, e)
    ensures var u := Step(s, e).db;
            && (e.Begin? || e.List? || e.ReadStart? || e.Abort? ==> u == s.db)
            && (e.RollNext? || e.Settle? || e.DropRollup? ==> u.tables == s.db.tables)
            && (e.RollNext? || e.DropTable? || e.DropRollup? ==> u.watermark == s.db.watermark)
            && (e.Settle? || e.Insert? || e.DropTable? ==> u.rollup == s.db.rollup)
            && (forall p :: p in u.tables && e.DropTable? ==> p in s.db.tables && u.tables[p] == s.db.tables[p])
            && (forall p :: p in s.db.tables && e.DropTable? && p != e.p ==> p in u.tables)
  {}

  /** The watermark moves up only when a pass settles, to the pass's cutoff, and down only when
      a write lands behind it, to the hour of one of its rows. */
  lemma WatermarkMoves(s: State, e: Event)
    requires Inv(s) && Enabled(s, e) && Step(s, e).db.watermark != s.db.watermark
    ensures e.Settle? || e.Insert?
    ensures e.Settle? ==> Step(s, e).db.watermark == Some(s.phase.cutoff) && WatermarkOf(s.db.watermark) < s.phase.cutoff
    ensures e.Insert? ==>
              var u := Step(s, e).db.watermark;
              u.Some? && u.value < WatermarkOf(s.db.watermark) && exists r :: r in e.rows && FloorHour(r.ts) == u.value
  {
    if e.Insert? {
      WritePath.RewindsToEarliestHour(s.db, e.rows);
    }
  }

  /** The cells a batch misfiles into or out of: those of its samples from before the epoch off
      the hour boundaries, and no others. */
  lemma MisfiledExactly(B: set<Row>, c: Cell)
    ensures c in MisfiledCells(B) <==>
            exists r :: r in B && r.ts < 0 && r.ts % HOUR_NS != 0 && r.sid == c.sid
                        && (c.hour == r.ts / HOUR_NS * HOUR_NS || c.hour == r.ts / HOUR_NS * HOUR_NS + HOUR_NS)
  {
    forall r: Row
      ensures FloorHour(r.ts) == r.ts / HOUR_NS * HOUR_NS
      ensures !KeySafe(r.ts) ==> TruncHour(r.ts) == r.ts / HOUR_NS * HOUR_NS + HOUR_NS
    {
      HourContains(r.ts);
      SqlMultiple(r.ts, HOUR_NS);
    }
  }

  // ---------------------------------------------------------------------
  // Whole runs
  // ---------------------------------------------------------------------

  ghost predicate IsRun(s: State, run: seq<Event>)
    decreases |run|
  {
    run == [] || (Enabled(s, run[0]) && IsRun(Step(s, run[0]), run[1..]))
  }

  ghost function After(s: State, run: seq<Event>): State
    requires IsRun(s, run)
    decreases |run|
  {
    if run == [] then s else After(Step(s, run[0]), run[1..])
  }

  /** No step of the run loses agreement. */
  ghost predicate Unbroken(s: State, run: seq<Event>)
    requires IsRun(s, run)
    decreases |run|
  {
    run == [] || (!Breaks(s, run[0]) && Unbroken(Step(s, run[0]), run[1..]))
  }

  lemma InitialOk()
    ensures Inv(INITIAL) && Agreement(INITIAL)
  {
    assert forall c :: HourRows(INITIAL.db.tables, c) == {};
  }

  /** Over every interleaving whatsoever, an hour that no sample was misfiled into or out of,
      outside months awaiting cleanup, is exact if and only if it was not written since it
      was last aggregated. */
  lemma {:induction false} EveryRunIsExact(s: State, run: seq<Event>)
    requires Inv(s) && IsRun(s, run)
    ensures Inv(After(s, run))
    ensures forall c :: Live(After(s, run), c) ==> (Agrees(After(s, run).db, c) <==> c !in After(s, run).stale)
    decreases |run|
  {
    if run == [] {
      forall c | Live(s, c) && c in s.stale
        ensures !Agrees(s.db, c)
      {
        BehindDisagrees(s.db, c);
      }
    } else {
      StepKeepsInv(s, run[0]);
      EveryRunIsExact(Step(s, run[0]), run[1..]);
    }
  }

  /** Agreement holds at every point of a run with no breaking step, and the first
      breaking step is where it stops holding. */
  lemma {:induction false} EveryRunKeepsAgreement(s: State, run: seq<Event>)
    requires Inv(s) && Agreement(s) && IsRun(s, run)
    ensures Unbroken(s, run) ==> Agreement(After(s, run))
    ensures Unbroken(s, run) <==> forall k :: 0 <= k <= |run| ==> IsRun(s, run[..k]) && Agreement(After(s, run[..k]))
    decreases |run|
  {
    assert run[..0] == [];
    if run != [] {
      StepKeepsInv(s, run[0]);
      StepKeepsAgreement(s, run[0]);
      var t := Step(s, run[0]);
      forall k | 1 <= k <= |run|
        ensures run[..k] != [] && run[..k][0] == run[0] && run[..k][1..] == run[1..][..k - 1]
      {}
      if Breaks(s, run[0]) {
        assert IsRun(s, run[..1]) ==> After(s, run[..1]) == t;
      } else {
        EveryRunKeepsAgreement(t, run[1..]);
        forall k | 0 <= k <= |run| && Unbroken(s, run)
          ensures IsRun(s, run[..k]) && Agreement(After(s, run[..k]))
        {
          if k > 0 {
            assert IsRun(t, run[1..][..k - 1]) && Agreement(After(t, run[1..][..k - 1]));
          }
        }
        if forall k :: 0 <= k <= |run| ==> IsRun(s, run[..k]) && Agreement(After(s, run[..k])) {
          forall k | 0 <= k <= |run[1..]|
            ensures IsRun(t, run[1..][..k]) && Agreement(After(t, run[1..][..k]))
          {
            assert IsRun(s, run[..k + 1]) && Agreement(After(s, run[..k + 1]));
          }
        }
      }
    }
  }
}
