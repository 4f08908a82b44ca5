/** The single write funnel: one transaction that routes rows to monthly tables and
    rewinds the rollup watermark when a row lands behind it. */
module WritePath {
  import opened Options
  import opened Calendar
  import opened Tables

  ghost function RowSet(rows: seq<Row>): set<Row> {
    set r | r in rows
  }

  ghost function MonthsOf(B: set<Row>): set<Month> {
    set r | r in B :: MonthOf(r.ts)
  }

  ghost function RowsOfMonth(B: set<Row>, p: Month): set<Row> {
    set r | r in B && MonthOf(r.ts) == p
  }

  ghost function InsertRows(t: Partitions, B: set<Row>): Partitions {
    map p | p in t.Keys + MonthsOf(B) :: Table(t, p) + RowsOfMonth(B, p)
  }

  predicate DistinctKeys(rows: seq<Row>) {
    rows == [] ||
    var n := |rows| - 1;
    DistinctKeys(rows[..n]) && forall r :: r in rows[..n] ==> !SameKey(r, rows[n])
  }

  ghost predicate KeyFree(S: set<Row>, r: Row) {
    forall q :: q in S ==> !SameKey(q, r)
  }

  /** The rows can be added to the table without an error: every timestamp is a SQLite
      integer and no primary key is repeated or taken. */
  ghost predicate Insertable(S: set<Row>, rows: seq<Row>) {
    && DistinctKeys(rows)
    && forall r :: r in rows ==> FitsInt64(r.ts) && KeyFree(S, r)
  }

  /** A batch is stored or refused as a whole. */
  ghost predicate Accepts(t: Partitions, rows: seq<Row>) {
    Insertable(AllRows(t), rows)
  }

  function Rewind(w: Option<int>, ts: int): Option<int> {
    if w.Some? && FloorHour(ts) < w.value then Some(FloorHour(ts)) else w
  }

  function MinTs(rows: seq<Row>): (m: int)
    requires rows != []
    ensures forall r :: r in rows ==> m <= r.ts
    ensures exists r :: r in rows && m == r.ts
  {
    var n := |rows| - 1;
    assert forall r :: r in rows ==> r in rows[..n] || r == rows[n];
    if n == 0 then rows[0].ts
    else
      var m := MinTs(rows[..n]);
      if rows[n].ts < m then rows[n].ts else m
  }

  /** The effect of one write transaction. */
  ghost function Write(db: Db, rows: seq<Row>): Db {
    if rows == [] || !Accepts(db.tables, rows) then db
    else Db(InsertRows(db.tables, RowSet(rows)), db.rollup, Rewind(db.watermark, MinTs(rows)))
  }

  // ---------------------------------------------------------------------
  // What a write does to the stored rows
  // ---------------------------------------------------------------------

  lemma InsertRowsAdds(t: Partitions, B: set<Row>)
    ensures AllRows(InsertRows(t, B)) == AllRows(t) + B
  {
    var u := InsertRows(t, B);
    forall r | r in AllRows(t) + B
      ensures r in AllRows(u)
    {
      if r in B {
        assert r in u[MonthOf(r.ts)];
      } else {
        var p :| p in t && r in t[p];
        assert r in u[p];
      }
    }
  }

  lemma {:induction false} DistinctKeysPairs(rows: seq<Row>, i: int, j: int)
    requires DistinctKeys(rows) && 0 <= i < j < |rows|
    ensures !SameKey(rows[i], rows[j])
  {
    var n := |rows| - 1;
    if j == n {
      assert rows[i] in rows[..n];
    } else {
      DistinctKeysPairs(rows[..n], i, j);
    }
  }

  lemma {:induction false} DistinctKeysWhen(rows: seq<Row>)
    ensures DistinctKeys(rows) <==> forall i, j :: 0 <= i < j < |rows| ==> rows[i].sid != rows[j].sid || rows[i].ts != rows[j].ts
  {
    if rows != [] {
      var n := |rows| - 1;
      DistinctKeysWhen(rows[..n]);
      assert forall i :: 0 <= i < n ==> rows[..n][i] == rows[i] && rows[i] in rows[..n];
    }
  }

  /** A batch is stored if and only if each timestamp is a 64-bit integer, no two of its rows
      share series and timestamp, and none shares both with a stored row. */
  lemma AcceptsWhen(t: Partitions, rows: seq<Row>)
    ensures Accepts(t, rows) <==>
            && (forall r :: r in rows ==> -0x8000_0000_0000_0000 <= r.ts < 0x8000_0000_0000_0000)
            && (forall i, j :: 0 <= i < j < |rows| ==> rows[i].sid != rows[j].sid || rows[i].ts != rows[j].ts)
            && (forall r, q :: r in rows && q in AllRows(t) ==> r.sid != q.sid || r.ts != q.ts)
  {
    DistinctKeysWhen(rows);
    forall r | r in rows
      ensures KeyFree(AllRows(t), r) <==> forall q :: q in AllRows(t) ==> r.sid != q.sid || r.ts != q.ts
    {
      assert forall q :: SameKey(q, r) <==> q.sid == r.sid && q.ts == r.ts;
    }
  }

  /** How far a write moves the watermark: not at all unless some row's hour lies below it, and
      otherwise to the earliest hour of the batch. */
  lemma RewindsToEarliestHour(db: Db, rows: seq<Row>)
    requires rows != [] && Accepts(db.tables, rows)
    ensures var after := Write(db, rows).watermark;
            && (db.watermark.None? ==> after.None?)
            && (db.watermark.Some? && (forall r :: r in rows ==> FloorHour(r.ts) >= db.watermark.value) ==> after == db.watermark)
            && (db.watermark.Some? && (exists r :: r in rows && FloorHour(r.ts) < db.watermark.value) ==>
                  && after.Some?
                  && (exists r :: r in rows && FloorHour(r.ts) == after.value)
                  && (forall r :: r in rows ==> after.value <= FloorHour(r.ts)))
  {
    var m := MinTs(rows);
    forall r | r in rows
      ensures FloorHour(m) <= FloorHour(r.ts)
    {
      HourContains(m);
      HourBound(r.ts, FloorHour(m));
    }
  }

  lemma InsertKeepsValid(t: Partitions, rows: seq<Row>)
    requires ValidTables(t) && Accepts(t, rows)
    ensures ValidTables(InsertRows(t, RowSet(rows)))
  {
    var u := InsertRows(t, RowSet(rows));
    forall p | p in u
      ensures IsMonth(p) && UniqueKeys(u[p]) && forall r: Row :: r in u[p] ==> MonthOf(r.ts) == p
    {
      if p !in t {
        var r :| r in RowSet(rows) && MonthOf(r.ts) == p;
        MonthOfContains(r.ts);
      }
      TableKeysUnique(Table(t, p), rows, u[p]);
    }
  }

  /** New rows with free, distinct keys keep the keys of a table unique. */
  lemma TableKeysUnique(S: set<Row>, rows: seq<Row>, T: set<Row>)
    requires UniqueKeys(S) && DistinctKeys(rows) && forall r :: r in rows ==> KeyFree(S, r)
    requires T <= S + RowSet(rows)
    ensures UniqueKeys(T)
  {
    forall r, q | r in T && q in T && r.sid == q.sid && r.ts == q.ts
      ensures r == q
    {
      if r !in S && q !in S {
        var i :| 0 <= i < |rows| && rows[i] == r;
        var j :| 0 <= j < |rows| && rows[j] == q;
        if i < j {
          DistinctKeysPairs(rows, i, j);
        } else if j < i {
          DistinctKeysPairs(rows, j, i);
        }
      }
    }
  }

  /** A write adds its rows to exactly the cells they belong to. */
  lemma WriteHourRows(t: Partitions, B: set<Row>, c: Cell)
    ensures HourRows(InsertRows(t, B), c) == HourRows(t, c) + set r | r in B && CellOf(r) == c
  {
    InsertRowsAdds(t, B);
  }

  // ---------------------------------------------------------------------
  // The transaction itself
  // ---------------------------------------------------------------------

  /** The rows with one key value, in batch order. */
  function Filter<K, J(==)>(rows: seq<K>, key: K -> J, j: J): seq<K> {
    if rows == [] then []
    else
      var n := |rows| - 1;
      Filter(rows[..n], key, j) + (if key(rows[n]) == j then [rows[n]] else [])
  }

  lemma {:induction false} FilterRows<K, J>(rows: seq<K>, key: K -> J, j: J)
    ensures forall r :: r in Filter(rows, key, j) <==> r in rows && key(r) == j
  {
    if rows != [] {
      var n := |rows| - 1;
      FilterRows(rows[..n], key, j);
      assert rows == rows[..n] + [rows[n]];
      var last := if key(rows[n]) == j then [rows[n]] else [];
      assert Filter(rows, key, j) == Filter(rows[..n], key, j) + last;
    }
  }

  lemma {:induction false} FilterPrefix<K, J>(rows: seq<K>, n: nat, key: K -> J, j: J)
    requires n <= |rows|
    ensures Filter(rows[..n], key, j) <= Filter(rows, key, j)
    decreases |rows| - n
  {
    if n < |rows| {
      FilterPrefix(rows, n + 1, key, j);
      assert rows[..n + 1][..n] == rows[..n];
    } else {
      assert rows[..n] == rows;
    }
  }

  lemma {:induction false} DistinctPrefix(rows: seq<Row>, k: nat)
    requires DistinctKeys(rows) && k <= |rows|
    ensures DistinctKeys(rows[..k])
    decreases |rows| - k
  {
    if k < |rows| {
      DistinctPrefix(rows, k + 1);
      assert rows[..k + 1][..k] == rows[..k];
    } else {
      assert rows[..k] == rows;
    }
  }

  lemma FilterLast<K, J>(rows: seq<K>, n: nat, key: K -> J, j: J)
    requires n < |rows|
    ensures Filter(rows[..n + 1], key, j) == Filter(rows[..n], key, j) + if key(rows[n]) == j then [rows[n]] else []
  {
    assert rows[..n + 1][..n] == rows[..n];
  }

  /** Keys repeat in a batch exactly if they repeat inside some group of it, when equal
      keys always share a group. */
  lemma {:induction false} DistinctInGroup<J>(rows: seq<Row>, key: Row -> J, j: J)
    requires DistinctKeys(rows)
    ensures DistinctKeys(Filter(rows, key, j))
  {
    if rows != [] {
      var n := |rows| - 1;
      DistinctInGroup(rows[..n], key, j);
      FilterRows(rows[..n], key, j);
      var m := Filter(rows, key, j);
      if key(rows[n]) == j {
        assert m[..|m| - 1] == Filter(rows[..n], key, j);
      } else {
        assert m == Filter(rows[..n], key, j);
      }
    }
  }

  lemma {:induction false} DistinctFromGroups<J>(rows: seq<Row>, key: Row -> J)
    requires forall r, q :: SameKey(r, q) ==> key(r) == key(q)
    requires forall j :: DistinctKeys(Filter(rows, key, j))
    ensures DistinctKeys(rows)
  {
    if rows != [] {
      var n := |rows| - 1;
      forall i
        ensures DistinctKeys(Filter(rows[..n], key, i))
      {
        FilterPrefix(rows, n, key, i);
        DistinctPrefix(Filter(rows, key, i), |Filter(rows[..n], key, i)|);
      }
      DistinctFromGroups(rows[..n], key);
      var m := Filter(rows, key, key(rows[n]));
      FilterRows(rows[..n], key, key(rows[n]));
      assert m[..|m| - 1] == Filter(rows[..n], key, key(rows[n]));
    }
  }

  function PartOf<J, K>(parts: map<J, seq<K>>, j: J): seq<K> {
    if j in parts then parts[j] else []
  }

  /** Group a sequence by key, keeping the order inside each group. */
  method SplitBy<K(==), J(==)>(rows: seq<K>, key: K -> J) returns (parts: map<J, seq<K>>)
    ensures parts.Keys == set r | r in rows :: key(r)
    ensures forall j :: PartOf(parts, j) == Filter(rows, key, j)
  {
    parts := map[];
    for i := 0 to |rows|
      invariant parts.Keys == set r | r in rows[..i] :: key(r)
      invariant forall j :: PartOf(parts, j) == Filter(rows[..i], key, j)
    {
      var k := key(rows[i]);
      assert forall r :: r in rows[..i + 1] <==> r in rows[..i] || r == rows[i];
      ghost var before := parts;
      parts := parts[k := PartOf(parts, k) + [rows[i]]];
      forall j
        ensures PartOf(parts, j) == Filter(rows[..i + 1], key, j)
      {
        FilterLast(rows, i, key, j);
        assert PartOf(before, j) == Filter(rows[..i], key, j);
      }
    }
    assert rows[..|rows|] == rows;
  }

  /** Insert rows into one table, one at a time; a bad row raises. */
  method InsertPart(S: set<Row>, rows: seq<Row>) returns (ok: bool, T: set<Row>)
    ensures ok <==> Insertable(S, rows)
    ensures ok ==> T == S + RowSet(rows)
  {
    T := S;
    for i := 0 to |rows|
      invariant Insertable(S, rows[..i])
      invariant T == S + RowSet(rows[..i])
    {
      assert rows[..i + 1][..i] == rows[..i];
      if !FitsInt64(rows[i].ts) || exists q :: q in T && SameKey(q, rows[i]) {
        if DistinctKeys(rows) {
          DistinctPrefix(rows, i + 1);
        }
        return false, T;
      }
      T := T + {rows[i]};
    }
    assert rows[..|rows|] == rows;
    return true, T;
  }

  /** Create the missing tables, then fill them one partition after another. */
  method InsertParts(t: Partitions, parts: map<Month, seq<Row>>) returns (ok: bool, u: Partitions)
    ensures ok <==> forall p :: p in parts ==> Insertable(Table(t, p), parts[p])
    ensures ok ==> u.Keys == t.Keys + parts.Keys
    ensures ok ==> forall p :: p in u ==> u[p] == Table(t, p) + RowSet(PartOf(parts, p))
  {
    u := map p | p in t.Keys + parts.Keys :: Table(t, p);
    var todo := parts.Keys;
    while todo != {}
      invariant todo <= parts.Keys
      invariant u.Keys == t.Keys + parts.Keys
      invariant forall p :: p in todo ==> u[p] == Table(t, p)
      invariant forall p :: p in u && p !in todo ==> u[p] == Table(t, p) + RowSet(PartOf(parts, p))
      invariant forall p :: p in parts && p !in todo ==> Insertable(Table(t, p), parts[p])
    {
      var p :| p in todo;
      var okPart, T := InsertPart(u[p], parts[p]);
      if !okPart {
        return false, u;
      }
      u := u[p := T];
      todo := todo - {p};
    }
    return true, u;
  }

  function PartitionKey(): Row -> Month {
    (r: Row) => MonthOf(r.ts)
  }

  ghost predicate SplitByMonth(rows: seq<Row>, parts: map<Month, seq<Row>>) {
    && parts.Keys == MonthsOf(RowSet(rows))
    && forall p :: PartOf(parts, p) == Filter(rows, PartitionKey(), p)
  }

  method SplitRows(rows: seq<Row>) returns (parts: map<Month, seq<Row>>)
    ensures SplitByMonth(rows, parts)
  {
    parts := SplitBy(rows, PartitionKey());
    assert MonthsOf(RowSet(rows)) == set r | r in rows :: PartitionKey()(r);
  }

  lemma PartRows(rows: seq<Row>, parts: map<Month, seq<Row>>, p: Month)
    requires SplitByMonth(rows, parts)
    ensures forall r :: r in PartOf(parts, p) <==> r in rows && MonthOf(r.ts) == p
  {
    FilterRows(rows, PartitionKey(), p);
  }

  /** A batch is accepted exactly if each month's share can be inserted into its table. */
  lemma AcceptsByMonth(t: Partitions, rows: seq<Row>, parts: map<Month, seq<Row>>)
    requires ValidTables(t) && SplitByMonth(rows, parts)
    ensures Accepts(t, rows) <==> forall p :: p in parts ==> Insertable(Table(t, p), parts[p])
  {
    if Accepts(t, rows) {
      forall p | p in parts
        ensures Insertable(Table(t, p), parts[p])
      {
        assert parts[p] == PartOf(parts, p);
        DistinctInGroup(rows, PartitionKey(), p);
        PartRows(rows, parts, p);
      }
    }
    if forall p :: p in parts ==> Insertable(Table(t, p), parts[p]) {
      forall p
        ensures DistinctKeys(Filter(rows, PartitionKey(), p))
      {
        assert PartOf(parts, p) == Filter(rows, PartitionKey(), p);
      }
      DistinctFromGroups(rows, PartitionKey());
      forall r | r in rows
        ensures FitsInt64(r.ts) && KeyFree(AllRows(t), r)
      {
        PartRows(rows, parts, MonthOf(r.ts));
        assert parts[MonthOf(r.ts)] == PartOf(parts, MonthOf(r.ts));
      }
    }
  }

  lemma InsertedByMonth(t: Partitions, rows: seq<Row>, parts: map<Month, seq<Row>>, u: Partitions)
    requires SplitByMonth(rows, parts)
    requires u.Keys == t.Keys + parts.Keys
    requires forall p :: p in u ==> u[p] == Table(t, p) + RowSet(PartOf(parts, p))
    ensures InsertRows(t, RowSet(rows)) == u
  {
    forall p | p in u
      ensures RowSet(PartOf(parts, p)) == RowsOfMonth(RowSet(rows), p)
    {
      PartRows(rows, parts, p);
    }
  }

  predicate InCalendar(rows: seq<Row>) {
    forall r :: r in rows ==> InDatetimeRange(MonthOf(r.ts))
  }

  lemma OutOfCalendarRefused(t: Partitions, rows: seq<Row>)
    requires !InCalendar(rows)
    ensures !Accepts(t, rows)
  {
    var r :| r in rows && !InDatetimeRange(MonthOf(r.ts));
    if FitsInt64(r.ts) {
      StorableHasPartition(r.ts);
    }
  }

  /** The tables after inserting the whole batch, or None if some row raises. */
  method StageRows(t: Partitions, rows: seq<Row>) returns (staged: Option<Partitions>)
    requires ValidTables(t)
    ensures staged.Some? <==> Accepts(t, rows)
    ensures staged.Some? ==> staged.value == InsertRows(t, RowSet(rows)) && ValidTables(staged.value)
  {
    if !InCalendar(rows) {
      OutOfCalendarRefused(t, rows);
      return None;
    }
    var parts := SplitRows(rows);
    AcceptsByMonth(t, rows, parts);
    var ok, u := InsertParts(t, parts);
    if !ok {
      return None;
    }
    InsertedByMonth(t, rows, parts, u);
    InsertKeepsValid(t, rows);
    return Some(u);
  }

  /** Every month of the batch has a table, or missing tables may be created. */
  ghost predicate HasTables(t: Partitions, rows: seq<Row>, autoCreate: bool) {
    autoCreate || MonthsOf(RowSet(rows)) <= t.Keys
  }

  /** `insert_many`: all rows or none, and the watermark moves with the data. The result is the
      number of rows stored, or None when the transaction raised: a bad timestamp, a key
      repeated or taken, or a missing table that may not be created. */
  method InsertMany(db: Database, rows: seq<Row>, autoCreate: bool) returns (inserted: Option<nat>)
    requires ValidTables(db.tables)
    modifies db
    ensures db.Value() == if HasTables(old(db.tables), rows, autoCreate) then Write(old(db.Value()), rows) else old(db.Value())
    ensures inserted.Some? <==> Accepts(old(db.tables), rows) && HasTables(old(db.tables), rows, autoCreate)
    ensures inserted.Some? ==> inserted.value == |rows|
    ensures ValidTables(db.tables)
  {
    if rows == [] {
      return Some(0);
    }
    if !autoCreate && exists r :: r in rows && MonthOf(r.ts) !in db.tables {
      return None;
    }
    var staged := StageRows(db.tables, rows);
    if staged.None? {
      return None;
    }
    db.tables := staged.value;
    db.watermark := Rewind(db.watermark, MinTs(rows));
    return Some(|rows|);
  }
}
