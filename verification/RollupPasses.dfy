/** Consequences of the rollup step system: what a settle leaves behind, the skew window,
    the undisturbed pass as a run, and rebuilding a month. */
module RollupPasses {
  import opened Options
  import opened Calendar
  import opened Tables
  import opened Rollup
  import opened RollupRuns
  import opened RollupAgreement
  import WritePath
  import Retention

  /** Nothing waits for a pass: writes and retention may come at any moment, and a pass may be
      given up at any moment. */
  lemma AlwaysPossible(s: State, rows: seq<Row>, p: Month)
    ensures Enabled(s, Insert(rows)) && (!s.phase.Idle? ==> Enabled(s, Abort))
    ensures IsMonth(p) ==> Enabled(s, DropTable(p)) && (p in s.dropping ==> Enabled(s, DropRollup(p)))
  {}

  /** Progress: a pass that was not rewound below the watermark it read ends on its cutoff,
      strictly above where it began even if that was a rewound hour; a pass that was
      rewound keeps the rewound hour. */
  lemma SettleOutcome(s: State)
    requires Inv(s) && Enabled(s, Settle)
    ensures var before, after := s.db.watermark, Step(s, Settle).db.watermark;
            if before.Some? && before.value < s.phase.w0 then after == before
            else after == Some(s.phase.cutoff) && WatermarkOf(before) == s.phase.w0 < s.phase.cutoff
  {}

  // ---------------------------------------------------------------------
  // The skew window
  // ---------------------------------------------------------------------

  /** A write during a pass carries no timestamp below the pass's cutoff, a write before the
      first pass none before the epoch, and a rollup cleanup finds the month's table still
      empty. */
  ghost predicate Punctual(s: State, e: Event) {
    && (e.Insert? && !s.phase.Idle? ==> forall r :: r in e.rows ==> r.ts >= s.phase.cutoff)
    && (e.Insert? && s.db.watermark.None? ==> forall r :: r in e.rows ==> r.ts >= 0)
    && (e.DropRollup? ==> Table(s.db.tables, e.p) == {})
  }

  ghost predicate PunctualRun(s: State, run: seq<Event>)
    requires IsRun(s, run)
    decreases |run|
  {
    run == [] || (Punctual(s, run[0]) && PunctualRun(Step(s, run[0]), run[1..]))
  }

  /** Nothing is waiting that a settle would pass over. */
  ghost predicate NothingPending(s: State) {
    s.late == {} && (s.db.watermark.None? ==> forall c :: c in s.stale ==> c.hour >= 0)
  }

  lemma PunctualInsert(s: State, rows: seq<Row>)
    requires PassOk(s) && Punctual(s, Insert(rows)) && NothingPending(s)
    requires rows != [] && WritePath.Accepts(s.db.tables, rows)
    ensures NothingPending(Step(s, Insert(rows)))
  {
    forall c | c in CellsOf(WritePath.RowSet(rows))
      ensures !PassedBy(s.phase, c) && (s.db.watermark.None? ==> c.hour >= 0)
    {
      var r :| r in rows && CellOf(r) == c;
      HourBound(r.ts, 0);
      if !s.phase.Idle? {
        HourBound(r.ts, s.phase.cutoff);
      }
    }
  }

  lemma PunctualStep(s: State, e: Event)
    requires Inv(s) && Enabled(s, e) && Punctual(s, e) && NothingPending(s)
    ensures NothingPending(Step(s, e)) && !Breaks(s, e)
  {
    match e
    case Insert(rows) =>
      if rows != [] && WritePath.Accepts(s.db.tables, rows) {
        PunctualInsert(s, rows);
      }
    case DropRollup(p) =>
      assert CellsOf(Table(s.db.tables, p)) == {};
    case _ =>
  }

  /** As long as no write that commits during a pass is older than the pass's cutoff,
      agreement holds at the end of every run, however it interleaves. */
  lemma {:induction false} PunctualRunsKeepAgreement(s: State, run: seq<Event>)
    requires Inv(s) && Agreement(s) && NothingPending(s)
    requires IsRun(s, run) && PunctualRun(s, run)
    ensures Agreement(After(s, run)) && Unbroken(s, run)
    decreases |run|
  {
    if run != [] {
      PunctualStep(s, run[0]);
      StepKeepsInv(s, run[0]);
      StepKeepsAgreement(s, run[0]);
      PunctualRunsKeepAgreement(Step(s, run[0]), run[1..]);
    }
  }

  /** An event and the clock reading at which it takes effect. */
  datatype Timed = Timed(event: Event, at: int)

  function Events(run: seq<Timed>): seq<Event> {
    if run == [] then [] else [run[0].event] + Events(run[1..])
  }

  /** A pass begun at a clock reading takes the last full hour that ended `skew` before it; a
      write commits at most `skew` after its timestamps, and before the first pass carries none
      from before the epoch. */
  ghost predicate OnTime(s: State, e: Timed, skew: nat) {
    match e.event
    case Begin(cutoff) => cutoff == FloorHour(e.at - skew)
    case Insert(rows) => forall r :: r in rows ==> e.at <= r.ts + skew && (s.db.watermark.None? ==> r.ts >= 0)
    case DropRollup(p) => Table(s.db.tables, p) == {}
    case _ => true
  }

  /** The clock does not run backwards and every event is on time. */
  ghost predicate TimedRun(s: State, run: seq<Timed>, skew: nat, clock: int)
    decreases |run|
  {
    run == [] ||
    (&& clock <= run[0].at && Enabled(s, run[0].event) && OnTime(s, run[0], skew)
     && TimedRun(Step(s, run[0].event), run[1..], skew, run[0].at))
  }

  /** Events on time are punctual: a pass's cutoff is `skew` behind every later reading. */
  lemma {:induction false} OnTimeIsPunctual(s: State, run: seq<Timed>, skew: nat, clock: int)
    requires TimedRun(s, run, skew, clock)
    requires !s.phase.Idle? ==> s.phase.cutoff + skew <= clock
    ensures IsRun(s, Events(run)) && PunctualRun(s, Events(run))
    decreases |run|
  {
    if run != [] {
      var e, events := run[0], Events(run);
      assert events[0] == e.event && events[1..] == Events(run[1..]);
      HourContains(e.at - skew);
      var u := Step(s, e.event);
      assert !u.phase.Idle? ==> u.phase.cutoff + skew <= e.at;
      OnTimeIsPunctual(u, run[1..], skew, e.at);
    }
  }

  /** The skew promise: if every write commits at most `skew` after its timestamps, the clock
      does not run backwards, and passes roll only hours that ended `skew` before they began,
      agreement holds at the end of every run from the empty store. */
  lemma SkewWindowKeepsAgreement(run: seq<Timed>, skew: nat, clock: int)
    requires TimedRun(INITIAL, run, skew, clock)
    ensures IsRun(INITIAL, Events(run)) && Unbroken(INITIAL, Events(run)) && Agreement(After(INITIAL, Events(run)))
  {
    InitialOk();
    OnTimeIsPunctual(INITIAL, run, skew, clock);
    PunctualRunsKeepAgreement(INITIAL, Events(run));
  }

  // ---------------------------------------------------------------------
  // The undisturbed pass is a run of the step system
  // ---------------------------------------------------------------------

  function RollEvents(n: nat): seq<Event> {
    if n == 0 then [Settle] else [ReadStart, RollNext] + RollEvents(n - 1)
  }

  function PassEvents(names: seq<Month>, cutoff: int): seq<Event> {
    [Begin(cutoff), List(names)] + RollEvents(|names|)
  }

  lemma {:induction false} WrittenFront(t: Partitions, names: seq<Month>, start: int, cutoff: int)
    requires names != []
    ensures Written(t, names, start, cutoff)
         == RollMap(Table(t, names[0]), start, cutoff) + Written(t, names[1..], start, cutoff)
  {
    var n := |names| - 1;
    if n == 0 {
      assert names[..0] == [] && names[1..] == [];
    } else {
      WrittenFront(t, names[..n], start, cutoff);
      assert names[..n][1..] == names[1..][..n - 1];
      MapAssociates(RollMap(Table(t, names[0]), start, cutoff),
                    Written(t, names[1..][..n - 1], start, cutoff),
                    RollMap(Table(t, names[n]), start, cutoff));
    }
  }

  /** The pass is over and neither retention nor a write intervened. */
  ghost predicate SameHistory(s: State, t: State) {
    t.phase.Idle? && t.dropping == s.dropping && t.misfiled == s.misfiled
  }

  lemma {:induction false} RollEventsRun(s: State, w0: int, cutoff: int, todo: seq<Month>)
    requires s.phase == Rolling(w0, cutoff, todo)
    requires WatermarkOf(s.db.watermark) == w0 < cutoff
    requires forall p :: p in todo ==> p in s.db.tables
    ensures IsRun(s, RollEvents(|todo|))
    ensures After(s, RollEvents(|todo|)).db
         == Db(s.db.tables, s.db.rollup + Written(s.db.tables, todo, w0, cutoff), Some(cutoff))
    ensures SameHistory(s, After(s, RollEvents(|todo|)))
    decreases |todo|
  {
    var run := RollEvents(|todo|);
    if todo == [] {
      assert run[1..] == [];
      assert IsRun(Step(s, Settle), run[1..]);
    } else {
      var u := Step(s, ReadStart);
      var v := Step(u, RollNext);
      assert run[0] == ReadStart && run[1..][0] == RollNext && run[1..][1..] == RollEvents(|todo[1..]|);
      RollEventsRun(v, w0, cutoff, todo[1..]);
      WrittenFront(s.db.tables, todo, w0, cutoff);
      MapAssociates(s.db.rollup, RollMap(Table(s.db.tables, todo[0]), w0, cutoff), Written(s.db.tables, todo[1..], w0, cutoff));
      assert IsRun(u, run[1..]);
    }
  }

  /** The pass that `RollupNewHours` performs is one particular run of the step system, so
      everything proved of runs holds of it. */
  lemma UndisturbedPassIsRun(s: State, names: seq<Month>, cutoff: int)
    requires s.phase.Idle? && IsHour(cutoff) && WatermarkOf(s.db.watermark) < cutoff
    requires SortedListing(names, ToRoll(s.db.tables, WatermarkOf(s.db.watermark), cutoff))
    ensures IsRun(s, PassEvents(names, cutoff))
    ensures After(s, PassEvents(names, cutoff)).db == Pass(s.db, names, cutoff)
    ensures SameHistory(s, After(s, PassEvents(names, cutoff)))
  {
    var run := PassEvents(names, cutoff);
    var u := Step(s, Begin(cutoff));
    var v := Step(u, List(names));
    assert run[0] == Begin(cutoff) && run[1..][0] == List(names) && run[1..][1..] == RollEvents(|names|);
    forall p | p in names
      ensures p in s.db.tables
    {
      assert p in ToRoll(s.db.tables, WatermarkOf(s.db.watermark), cutoff);
    }
    RollEventsRun(v, u.phase.w0, cutoff, names);
    assert IsRun(u, run[1..]);
  }

  // ---------------------------------------------------------------------
  // Retention of one month is two steps
  // ---------------------------------------------------------------------

  /** Dropping a month, as retention does it, is the two retention steps with nothing between. */
  lemma DroppedMonthIsTwoSteps(s: State, p: Month)
    requires IsMonth(p)
    ensures IsRun(s, [DropTable(p), DropRollup(p)])
    ensures After(s, [DropTable(p), DropRollup(p)]).db == Retention.DropMonths(s.db, {p})
  {
    var run := [DropTable(p), DropRollup(p)];
    var u := Step(s, DropTable(p));
    assert run[1..] == [DropRollup(p)] && run[1..][1..] == [];
    assert IsRun(u, run[1..]);
    var v := Step(u, DropRollup(p));
    assert After(u, run[1..]) == v;
    Retention.NothingDropped(s.db);
    Retention.DropOneMore(s.db, {}, p);
    assert {} + {p} == {p};
  }

  // ---------------------------------------------------------------------
  // Rebuilding a month
  // ---------------------------------------------------------------------

  /** Every hour below `w` that receives its own samples only is exact. */
  ghost predicate AgreesBelow(db: Db, w: int) {
    forall c: Cell :: IsHour(c.hour) && c.hour < w && FiledRight(db.tables, c) ==> Agrees(db, c)
  }

  /** A rolled hour past the rebuilt month is deleted and not written again. */
  ghost predicate LosesLaterMonth(db: Db, p: Month, cutoff: int, w: int)
    requires IsMonth(p)
  {
    RolledAfter(db, MonthEnd(p), cutoff, w)
  }

  /** A sample in [end, cutoff) lies in an hour below `w` that receives its own samples only. */
  ghost predicate RolledAfter(db: Db, end: int, cutoff: int, w: int) {
    exists r :: r in AllRows(db.tables) && end <= r.ts < cutoff && FloorHour(r.ts) < w && FiledRight(db.tables, CellOf(r))
  }

  /** Delete-then-roll of one month, with the month's bounds as plain numbers. */
  lemma DeletedAndRolled(db: Db, p: Month, start: int, end: int, cutoff: int, c: Cell)
    requires ValidTables(db.tables) && IsHour(start) && IsHour(cutoff) && FiledRight(db.tables, c)
    requires MonthOf(c.hour) == p <==> start <= c.hour < end
    requires Agrees(db, c)
    ensures Agrees(Roll(db.(rollup := DeleteHours(db.rollup, start, cutoff)), p, start, cutoff), c)
       <==> !(start <= c.hour && end <= c.hour < cutoff && HourRows(db.tables, c) != {})
  {
    RollCell(db.(rollup := DeleteHours(db.rollup, start, cutoff)), p, start, cutoff, c);
  }

  lemma RebuiltCell(db: Db, p: Month, cutoff: int, c: Cell)
    requires ValidTables(db.tables) && IsMonth(p) && p in db.tables
    requires IsHour(cutoff) && MonthStart(p) < cutoff
    requires FiledRight(db.tables, c) && Agrees(db, c)
    ensures Agrees(RollPartition(db, p, true, cutoff), c)
       <==> !(MonthEnd(p) <= c.hour < cutoff && HourRows(db.tables, c) != {})
  {
    HourAligned(p);
    PartitionLaw(c.hour, p);
    MonthLength(p);
    DeletedAndRolled(db, p, MonthStart(p), MonthEnd(p), cutoff, c);
  }

  /** If exactly the hours of [end, cutoff) that have samples lost their rows, agreement is kept
      if and only if there is no such hour below `w`. */
  lemma KeptUnlessRolledAfter(db: Db, after: Db, end: int, cutoff: int, w: int)
    requires IsHour(end) && IsHour(cutoff) && after.tables == db.tables
    requires forall c: Cell :: IsHour(c.hour) && c.hour < w && FiledRight(db.tables, c) ==>
               (Agrees(after, c) <==> !(end <= c.hour < cutoff && HourRows(db.tables, c) != {}))
    ensures AgreesBelow(after, w) <==> !RolledAfter(db, end, cutoff, w)
  {
    if RolledAfter(db, end, cutoff, w) {
      var r :| r in AllRows(db.tables) && end <= r.ts < cutoff && FloorHour(r.ts) < w && FiledRight(db.tables, CellOf(r));
      LostHour(db.tables, r, end, cutoff);
      assert !Agrees(after, CellOf(r));
    } else {
      forall c: Cell | IsHour(c.hour) && c.hour < w && FiledRight(db.tables, c) && end <= c.hour < cutoff
        ensures HourRows(db.tables, c) == {}
      {
        NoLaterRows(db, end, cutoff, w, c);
      }
    }
  }

  /** Rebuilding a month (`replace=True`) keeps agreement if and only if no later month
      has a rolled sample before the cutoff. */
  lemma RebuildKeepsAgreementWhen(db: Db, p: Month, cutoff: int, w: int)
    requires ValidTables(db.tables) && IsMonth(p) && p in db.tables
    requires IsHour(cutoff) && MonthStart(p) < cutoff
    requires AgreesBelow(db, w)
    ensures AgreesBelow(RollPartition(db, p, true, cutoff), w) <==> !LosesLaterMonth(db, p, cutoff, w)
  {
    var after := RollPartition(db, p, true, cutoff);
    HourAligned(Next(p));
    forall c: Cell | IsHour(c.hour) && c.hour < w && FiledRight(db.tables, c)
      ensures Agrees(after, c) <==> !(MonthEnd(p) <= c.hour < cutoff && HourRows(db.tables, c) != {})
    {
      RebuiltCell(db, p, cutoff, c);
    }
    KeptUnlessRolledAfter(db, after, MonthEnd(p), cutoff, w);
  }

  lemma LostHour(t: Partitions, r: Row, end: int, cutoff: int)
    requires r in AllRows(t) && IsHour(end) && end <= r.ts < cutoff
    ensures IsHour(CellOf(r).hour) && end <= CellOf(r).hour < cutoff && HourRows(t, CellOf(r)) != {}
  {
    HourContains(r.ts);
    HourBound(r.ts, end);
    assert r in HourRows(t, CellOf(r));
  }

  lemma NoLaterRows(db: Db, end: int, cutoff: int, w: int, c: Cell)
    requires IsHour(end) && IsHour(cutoff) && IsHour(c.hour) && c.hour < w && FiledRight(db.tables, c)
    requires end <= c.hour < cutoff && !RolledAfter(db, end, cutoff, w)
    ensures HourRows(db.tables, c) == {}
  {
    forall r | r in HourRows(db.tables, c)
      ensures false
    {
      HourBound(r.ts, end);
      HourBound(r.ts, cutoff);
    }
  }
}
