/** The service's sink: one batch, one transaction, a bounded number of attempts, and exact
    accounting of what was stored and what was dropped. */
module Sink {
  import opened Options
  import opened Tables
  import WritePath

  const MAX_ATTEMPTS: nat := 4

  /** What the database does with one attempt, whatever the batch: it fails with an error
      that is retried, it fails with any other error, or it runs the transaction, which then
      stores the batch or refuses it. */
  datatype Outcome = Transient | Fatal | Proceeds

  /** The first attempt that does not meet a transient error, if the first four allow one. */
  function FirstFree(outcomes: seq<Outcome>): (k: nat)
    requires |outcomes| >= MAX_ATTEMPTS
    ensures k <= MAX_ATTEMPTS && (forall i :: 0 <= i < k ==> outcomes[i].Transient?)
    ensures k < MAX_ATTEMPTS ==> !outcomes[k].Transient?
  {
    if !outcomes[0].Transient? then 0
    else if !outcomes[1].Transient? then 1
    else if !outcomes[2].Transient? then 2
    else if !outcomes[3].Transient? then 3
    else 4
  }

  /** The batch lands: some attempt is allowed to run it, and the store accepts it. */
  ghost predicate Lands(t: Partitions, rows: seq<Row>, outcomes: seq<Outcome>)
    requires |outcomes| >= MAX_ATTEMPTS
  {
    var k := FirstFree(outcomes);
    k < MAX_ATTEMPTS && outcomes[k].Proceeds? && WritePath.Accepts(t, rows)
  }

  class Service {
    var store: Database?
    var persisted: nat
    var dropped: nat
    var retries: nat

    /** Rows handed to the sink while there was a store. */
    ghost var offered: nat

    constructor (store: Database?)
      ensures this.store == store && persisted == dropped == retries == offered == 0 && Valid()
    {
      this.store := store;
      persisted, dropped, retries, offered := 0, 0, 0, 0;
    }

    /** Over any number of batches, every row offered was counted once. */
    ghost predicate Valid()
      reads this
    {
      persisted + dropped == offered
    }

    /** `_sink`. A failed attempt leaves the database as it was, because the transaction raises
        only when nothing was committed. Whatever the sequence of outcomes, either every row is
        stored, once, and counted as persisted, or none is and all are counted as dropped. */
    method Sink(rows: seq<Row>, outcomes: seq<Outcome>)
      requires Valid() && |outcomes| >= MAX_ATTEMPTS
      requires store != null ==> ValidTables(store.tables)
      modifies this, store
      ensures Valid() && store == old(store)
      ensures store == null || rows == [] ==>
                persisted == old(persisted) && dropped == old(dropped) && retries == old(retries) && offered == old(offered)
      ensures store != null && rows == [] ==> store.Value() == old(store.Value())
      ensures store != null && rows != [] ==>
                var stored := Lands(old(store.tables), rows, outcomes);
                && store.Value() == (if stored then WritePath.Write(old(store.Value()), rows) else old(store.Value()))
                && persisted == old(persisted) + (if stored then |rows| else 0)
                && dropped == old(dropped) + (if stored then 0 else |rows|)
                && offered == old(offered) + |rows|
      ensures store != null && rows != [] ==>
                retries == old(retries) + (if FirstFree(outcomes) < MAX_ATTEMPTS then FirstFree(outcomes) else MAX_ATTEMPTS - 1)
      ensures store != null ==> ValidTables(store.tables)
    {
      if store == null || rows == [] {
        return;
      }
      offered := offered + |rows|;
      var attempt := 0;
      while attempt < MAX_ATTEMPTS
        invariant 0 <= attempt <= MAX_ATTEMPTS && attempt <= FirstFree(outcomes)
        invariant store == old(store) && store.Value() == old(store.Value()) && ValidTables(store.tables)
        invariant persisted == old(persisted) && dropped == old(dropped) && offered == old(offered) + |rows|
        invariant retries == old(retries) + (if attempt < MAX_ATTEMPTS then attempt else MAX_ATTEMPTS - 1)
      {
        match outcomes[attempt] {
          case Transient =>
            if attempt + 1 < MAX_ATTEMPTS {
              retries := retries + 1;
            }
            attempt := attempt + 1;
          case Fatal =>
            dropped := dropped + |rows|;
            return;
          case Proceeds =>
            var inserted := WritePath.InsertMany(store, rows, true);
            if inserted.Some? {
              persisted := persisted + inserted.value;
            } else {
              dropped := dropped + |rows|;
            }
            return;
        }
      }
      dropped := dropped + |rows|;
    }
  }

  /** Rows stored by one accepted batch: exactly the batch, each row once, nothing else. */
  lemma StoredOnce(db: Db, rows: seq<Row>)
    requires ValidTables(db.tables) && rows != [] && WritePath.Accepts(db.tables, rows)
    ensures var after := WritePath.Write(db, rows).tables;
            && AllRows(after) == AllRows(db.tables) + WritePath.RowSet(rows)
            && WritePath.RowSet(rows) !! AllRows(db.tables)
            && |AllRows(after)| == |AllRows(db.tables)| + |rows|
  {
    WritePath.InsertRowsAdds(db.tables, WritePath.RowSet(rows));
    DistinctRows(rows);
  }

  lemma {:induction false} DistinctRows(rows: seq<Row>)
    requires WritePath.DistinctKeys(rows)
    ensures |WritePath.RowSet(rows)| == |rows|
  {
    if rows != [] {
      var n := |rows| - 1;
      DistinctRows(rows[..n]);
      assert rows[n] !in rows[..n] by {
        assert SameKey(rows[n], rows[n]);
      }
      assert WritePath.RowSet(rows) == WritePath.RowSet(rows[..n]) + {rows[n]};
    }
  }

  /** A batch that was stored once is refused as a whole if it is sent again: its keys are
      taken. */
  lemma ResentIsRefused(db: Db, rows: seq<Row>)
    requires ValidTables(db.tables) && rows != [] && WritePath.Accepts(db.tables, rows)
    ensures !WritePath.Accepts(WritePath.Write(db, rows).tables, rows)
  {
    WritePath.InsertRowsAdds(db.tables, WritePath.RowSet(rows));
    assert rows[0] in WritePath.RowSet(rows) && SameKey(rows[0], rows[0]);
    assert !WritePath.KeyFree(AllRows(WritePath.Write(db, rows).tables), rows[0]);
  }
}
