/** Retention: whole months whose last day began before the horizon are dropped, first the
    table, then the month's rollup rows. Times are nanoseconds; the horizon is the clock
    minus the time to live. */
module Retention {
  import opened Calendar
  import opened Tables
  import opened Rollup

  /** Start of the month's last day. */
  function LastDay(p: Month): int
    requires IsMonth(p)
  {
    MonthEnd(p) - DAY_NS
  }

  predicate Expired(p: Month, horizon: int) {
    IsMonth(p) && LastDay(p) < horizon
  }

  /** `partitions_to_retain`. */
  method PartitionsToRetain(t: Partitions, horizon: int) returns (keep: set<Month>)
    requires ValidTables(t)
    ensures keep == set p | p in t && !Expired(p, horizon)
  {
    keep := {};
    var names := SortMonths(t.Keys);
    for i := 0 to |names|
      invariant forall p :: p in keep <==> p in names[..i] && !Expired(p, horizon)
    {
      assert names[i] in names;
      assert forall p :: p in names[..i + 1] <==> p in names[..i] || p == names[i];
      if LastDay(names[i]) >= horizon {
        keep := keep + {names[i]};
      }
    }
    assert names[..|names|] == names;
  }

  ghost function DropMonths(db: Db, D: set<Month>): Db {
    Db(db.tables - D, map c | c in db.rollup && MonthOf(c.hour) !in D :: db.rollup[c], db.watermark)
  }

  lemma DropOneMore(db: Db, D: set<Month>, p: Month)
    requires IsMonth(p)
    ensures var d := DropMonths(db, D);
            Db(d.tables - {p}, DeleteHours(d.rollup, MonthStart(p), MonthEnd(p)), d.watermark) == DropMonths(db, D + {p})
  {
    var d, e := DropMonths(db, D), DropMonths(db, D + {p});
    assert d.tables - {p} == e.tables;
    forall c: Cell
      ensures MonthStart(p) <= c.hour < MonthEnd(p) <==> MonthOf(c.hour) == p
    {
      PartitionLaw(c.hour, p);
    }
    assert DeleteHours(d.rollup, MonthStart(p), MonthEnd(p)) == e.rollup;
  }

  /** DROP TABLE, then DELETE of the month's rollup rows. */
  method DropPartition(db: Database, p: Month, ghost before: Db, ghost D: set<Month>)
    requires IsMonth(p) && db.Value() == DropMonths(before, D)
    modifies db
    ensures db.Value() == DropMonths(before, D + {p})
  {
    DropOneMore(before, D, p);
    db.tables := db.tables - {p};
    db.rollup := DeleteHours(db.rollup, MonthStart(p), MonthEnd(p));
  }

  /** The listed months that are not kept. */
  ghost function Doomed(names: seq<Month>, keep: set<Month>): set<Month> {
    set p | p in names && p !in keep
  }

  lemma DoomedNext(names: seq<Month>, i: nat, keep: set<Month>)
    requires i < |names|
    ensures Doomed(names[..i + 1], keep) == Doomed(names[..i], keep) + if names[i] in keep then {} else {names[i]}
  {
    assert names[..i + 1] == names[..i] + [names[i]];
  }

  /** What was dropped of the first `i` listed months: those not kept, in the listed order. */
  ghost predicate DroppedSoFar(names: seq<Month>, i: nat, keep: set<Month>, dropped: seq<Month>)
    requires i <= |names|
  {
    Sorted(dropped) && forall p :: p in dropped <==> p in Doomed(names[..i], keep)
  }

  lemma DroppedNext(names: seq<Month>, i: nat, keep: set<Month>, dropped: seq<Month>)
    requires Sorted(names) && i < |names| && DroppedSoFar(names, i, keep, dropped)
    ensures DroppedSoFar(names, i + 1, keep, if names[i] in keep then dropped else dropped + [names[i]])
  {
    DoomedNext(names, i, keep);
    forall j | 0 <= j < |dropped|
      ensures Index(dropped[j]) < Index(names[i])
    {
      assert dropped[j] in dropped;
      assert dropped[j] in names[..i];
    }
  }

  /** The loop of `run` over the listed months. */
  method DropUnkept(db: Database, names: seq<Month>, keep: set<Month>) returns (dropped: seq<Month>)
    requires Sorted(names) && forall p :: p in names ==> IsMonth(p)
    modifies db
    ensures db.Value() == DropMonths(old(db.Value()), Doomed(names[..|names|], keep))
    ensures DroppedSoFar(names, |names|, keep, dropped)
  {
    dropped := [];
    ghost var before := db.Value();
    NothingDropped(before);
    assert Doomed(names[..0], keep) == {};
    for i := 0 to |names|
      invariant DroppedSoFar(names, i, keep, dropped)
      invariant db.Value() == DropMonths(before, Doomed(names[..i], keep))
    {
      var p := names[i];
      assert p in names;
      DoomedNext(names, i, keep);
      DroppedNext(names, i, keep, dropped);
      if p !in keep {
        DropPartition(db, p, before, Doomed(names[..i], keep));
        dropped := dropped + [p];
      }
    }
  }

  lemma NothingDropped(db: Db)
    ensures DropMonths(db, {}) == db
  {
    assert db.tables - {} == db.tables;
    assert DropMonths(db, {}).rollup == db.rollup;
  }

  /** `run`, with nothing running beside it: the expired months, and only those, lose both
      their table and their rollup rows. */
  method Run(db: Database, horizon: int) returns (dropped: seq<Month>)
    requires ValidTables(db.tables)
    modifies db
    ensures Sorted(dropped)
    ensures forall p :: p in dropped <==> p in old(db.tables) && Expired(p, horizon)
    ensures db.Value() == DropMonths(old(db.Value()), set p | p in dropped)
  {
    var keep := PartitionsToRetain(db.tables, horizon);
    var names := SortMonths(db.tables.Keys);
    dropped := DropUnkept(db, names, keep);
    DroppedAll(old(db.tables), horizon, names, keep, dropped);
  }

  lemma DroppedAll(t: Partitions, horizon: int, names: seq<Month>, keep: set<Month>, dropped: seq<Month>)
    requires SortedListing(names, t.Keys) && keep == set p | p in t && !Expired(p, horizon)
    requires DroppedSoFar(names, |names|, keep, dropped)
    ensures forall p :: p in dropped <==> p in t && Expired(p, horizon)
    ensures Doomed(names[..|names|], keep) == set p | p in dropped
  {
    assert names[..|names|] == names;
  }

  lemma KeptRows(t: Partitions, D: set<Month>)
    ensures forall p, r :: p in t && p !in D && r in t[p] ==> r in AllRows(t - D)
  {
    forall p, r | p in t && p !in D && r in t[p]
      ensures r in AllRows(t - D)
    {
      assert r in (t - D)[p];
    }
  }

  /** A run deletes no sample from one day after the horizon on, and leaves no partition
      whose last day began before it. */
  lemma RetentionBound(t: Partitions, horizon: int, D: set<Month>)
    requires ValidTables(t) && D == set p | p in t && Expired(p, horizon)
    ensures forall r :: r in AllRows(t) && r !in AllRows(t - D) ==> r.ts < horizon + DAY_NS
    ensures forall p :: p in t - D <==> p in t && MonthEnd(p) - DAY_NS >= horizon
  {
    KeptRows(t, D);
    forall r | r in AllRows(t) && r !in AllRows(t - D)
      ensures r.ts < horizon + DAY_NS
    {
      var p :| p in t && r in t[p];
      MonthOfContains(r.ts);
    }
  }

  /** The raw samples and the rollup rows of a dropped month are both gone. */
  lemma DroppedMonthsAreEmpty(db: Db, D: set<Month>, c: Cell)
    requires ValidTables(db.tables) && IsHour(c.hour) && MonthOf(c.hour) in D
    ensures HourRows(DropMonths(db, D).tables, c) == {} && c !in DropMonths(db, D).rollup
  {
    forall r | r in HourRows(db.tables - D, c)
      ensures false
    {
      HourInOnePartition(r.ts);
      RowInItsTable(db.tables, r);
    }
  }

  /** Retention keeps rollup agreement: dropped hours agree because both sides are empty,
      the others because nothing about them changed. */
  lemma RetentionKeepsAgreement(db: Db, D: set<Month>, c: Cell)
    requires ValidTables(db.tables) && IsHour(c.hour)
    requires Agrees(db, c)
    ensures Agrees(DropMonths(db, D), c)
  {
    if MonthOf(c.hour) in D {
      DroppedMonthsAreEmpty(db, D, c);
    } else {
      forall r | r in HourRows(db.tables, c)
        ensures r in HourRows(db.tables - D, c)
      {
        HourInOnePartition(r.ts);
        RowInItsTable(db.tables, r);
        assert r in (db.tables - D)[MonthOf(r.ts)];
      }
      assert HourRows(db.tables - D, c) == HourRows(db.tables, c);
    }
  }

  /** The run lists the partitions twice, once to decide what to keep and once to drop. */
  ghost function Dropped(first: set<Month>, second: set<Month>, horizon: int): set<Month> {
    set p | p in second && !(p in first && !Expired(p, horizon))
  }

  /** Only expired months are dropped if and only if every month that appeared between the
      two listings is expired too; a fresh month created in that gap is dropped. */
  lemma DropsOnlyExpiredWhen(first: set<Month>, second: set<Month>, horizon: int)
    ensures (forall p :: p in Dropped(first, second, horizon) ==> Expired(p, horizon))
       <==> forall p :: p in second - first ==> Expired(p, horizon)
  {
    if forall p :: p in Dropped(first, second, horizon) ==> Expired(p, horizon) {
      forall p | p in second - first
        ensures Expired(p, horizon)
      {
        assert p in Dropped(first, second, horizon);
      }
    }
  }
}
