/** Reading raw samples: which partitions a window needs, the ordered and limited scan
    across partitions, counting, the first sample, and the row cap. */
module Scan {
  import opened Options
  import opened Calendar
  import opened Tables
  import opened Rollup

  /** A raw read: the series wanted and an inclusive time window, open where None. */
  datatype Query = Query(ids: set<int>, start: Option<int>, end: Option<int>)

  /** The `order` argument: `asc`, `desc`, or any other string, which the store accepts. */
  datatype Order = Asc | Desc | Other

  predicate Wanted(q: Query, r: Row) {
    && r.sid in q.ids
    && (q.start.Some? ==> r.ts >= q.start.value)
    && (q.end.Some? ==> r.ts <= q.end.value)
  }

  /** The WHERE clause over one table. */
  function Matching(S: set<Row>, q: Query): set<Row> {
    set r | r in S && Wanted(q, r)
  }

  /** What the query asks for: every stored sample of the series in the window. */
  ghost function Selected(t: Partitions, q: Query): set<Row> {
    Matching(AllRows(t), q)
  }

  // ---------------------------------------------------------------------
  // Pruning
  // ---------------------------------------------------------------------

  /** No bound, or bounds that are zero, select every partition. */
  predicate NoBounds(q: Query) {
    (q.start.None? || q.start.value == 0) && (q.end.None? || q.end.value == 0)
  }

  predicate Kept(q: Query, p: Month)
    requires IsMonth(p)
  {
    || NoBounds(q)
    || (&& !(q.start.Some? && MonthEnd(p) - 1 < q.start.value)
        && !(q.end.Some? && MonthStart(p) > q.end.value))
  }

  ghost function PartsFor(t: Partitions, q: Query): set<Month> {
    set p | p in t && IsMonth(p) && Kept(q, p)
  }

  /** Pruning drops no row of the window. */
  lemma PruningKeepsRows(t: Partitions, q: Query, r: Row)
    requires ValidTables(t) && r in Selected(t, q)
    ensures MonthOf(r.ts) in PartsFor(t, q) && r in Matching(Table(t, MonthOf(r.ts)), q)
  {
    RowInItsTable(t, r);
    MonthOfContains(r.ts);
  }

  /** Without a bound, where zero counts as none, every month is kept; otherwise a month is kept
      if and only if it holds an instant of the window, which must not be empty. */
  lemma KeptMeetsWindow(t: Partitions, q: Query, p: Month)
    requires p in t && IsMonth(p)
    requires q.start.Some? && q.end.Some? ==> q.start.value <= q.end.value
    ensures p in PartsFor(t, q) <==>
            || ((q.start.None? || q.start.value == 0) && (q.end.None? || q.end.value == 0))
            || exists ts :: MonthOf(ts) == p && (q.start.Some? ==> q.start.value <= ts) && (q.end.Some? ==> ts <= q.end.value)
  {
    MonthLength(p);
    var ts := if q.start.Some? && q.start.value > MonthStart(p) then q.start.value else MonthStart(p);
    PartitionLaw(ts, p);
    forall x | MonthOf(x) == p
      ensures MonthStart(p) <= x < MonthEnd(p)
    {
      PartitionLaw(x, p);
    }
  }

  predicate InOrder(names: seq<Month>, order: Order) {
    forall i, j :: 0 <= i < j < |names| ==> if order.Desc? then Index(names[j]) < Index(names[i]) else Index(names[i]) < Index(names[j])
  }

  /** The partitions a read visits, oldest first, or newest first for `desc`. */
  ghost predicate Visits(names: seq<Month>, t: Partitions, q: Query, order: Order) {
    InOrder(names, order) && forall p :: p in names <==> p in PartsFor(t, q)
  }

  method PartitionsForRange(t: Partitions, q: Query, order: Order) returns (names: seq<Month>)
    requires ValidTables(t)
    ensures Visits(names, t, q, order)
  {
    var sorted := SortMonths(set p | p in t && Kept(q, p));
    if order.Desc? {
      names := seq(|sorted|, i requires 0 <= i < |sorted| => sorted[|sorted| - 1 - i]);
      forall p
        ensures p in names <==> p in sorted
      {
        if p in sorted {
          var i :| 0 <= i < |sorted| && sorted[i] == p;
          assert names[|sorted| - 1 - i] == p;
        }
      }
    } else {
      names := sorted;
    }
  }

  // ---------------------------------------------------------------------
  // Rows gathered partition by partition
  // ---------------------------------------------------------------------

  ghost function Through(t: Partitions, names: seq<Month>, q: Query): set<Row> {
    if names == [] then {}
    else
      var n := |names| - 1;
      Through(t, names[..n], q) + Matching(Table(t, names[n]), q)
  }

  lemma {:induction false} ThroughRows(t: Partitions, names: seq<Month>, q: Query)
    requires ValidTables(t)
    ensures forall r :: r in Through(t, names, q) <==> r in Selected(t, q) && MonthOf(r.ts) in names
  {
    if names != [] {
      var n := |names| - 1;
      ThroughRows(t, names[..n], q);
      forall r: Row
        ensures r in Matching(Table(t, names[n]), q) <==> r in Selected(t, q) && MonthOf(r.ts) == names[n]
      {
        RowInItsTable(t, r);
      }
      assert names == names[..n] + [names[n]];
    }
  }

  /** Visiting the listed partitions gathers exactly the selected rows. */
  lemma ThroughAll(t: Partitions, names: seq<Month>, q: Query, order: Order)
    requires ValidTables(t) && Visits(names, t, q, order)
    ensures Through(t, names, q) == Selected(t, q)
  {
    ThroughRows(t, names, q);
    forall r | r in Selected(t, q)
      ensures MonthOf(r.ts) in names
    {
      PruningKeepsRows(t, q, r);
      assert MonthOf(r.ts) in PartsFor(t, q);
    }
  }

  /** First by month, when partitions are visited one way and sorted the other. */
  function Major(r: Row, order: Order): int {
    if order.Other? then Index(MonthOf(r.ts)) else 0
  }

  function Minor(r: Row, order: Order): int {
    if order.Asc? then r.ts else -r.ts
  }

  /** The place of two rows in the output. For any other order than `asc` and `desc` months
      come oldest first and each month's rows newest first. */
  predicate Before(r: Row, s: Row, order: Order) {
    Major(r, order) < Major(s, order) || (Major(r, order) == Major(s, order) && Minor(r, order) <= Minor(s, order))
  }

  /** The next partition is disjoint from the earlier ones and lies after them in the
      chosen order. */
  lemma NextPartition(t: Partitions, names: seq<Month>, n: nat, q: Query, order: Order)
    requires ValidTables(t) && InOrder(names, order) && n < |names|
    ensures Through(t, names[..n + 1], q) == Through(t, names[..n], q) + Matching(Table(t, names[n]), q)
    ensures Through(t, names[..n], q) !! Matching(Table(t, names[n]), q)
    ensures forall r, s :: r in Through(t, names[..n], q) && s in Matching(Table(t, names[n]), q) ==> Before(r, s, order)
  {
    assert names[..n + 1][..n] == names[..n];
    ThroughRows(t, names[..n], q);
    forall r, s | r in Through(t, names[..n], q) && s in Matching(Table(t, names[n]), q)
      ensures r != s && Before(r, s, order)
    {
      RowInItsTable(t, s);
      var i :| 0 <= i < n && names[i] == MonthOf(r.ts);
      MonthsBefore(r, s, names[i], names[n], order);
    }
  }

  // ---------------------------------------------------------------------
  // Ordered, limited scans
  // ---------------------------------------------------------------------

  ghost predicate NoRepeats(rows: seq<Row>) {
    forall i, j :: 0 <= i < j < |rows| ==> rows[i] != rows[j]
  }

  ghost predicate Ordered(rows: seq<Row>, order: Order) {
    forall i, j :: 0 <= i < j < |rows| ==> Before(rows[i], rows[j], order)
  }

  /** `rows` lists `S` in full, each row once. */
  ghost predicate Lists(rows: seq<Row>, S: set<Row>) {
    NoRepeats(rows) && forall r :: r in rows <==> r in S
  }

  function Least(a: nat, b: nat): nat {
    if a < b then a else b
  }

  /** `rows` are the first `k` rows of `S` in the chosen order (all of them if `k` is None):
      ordered, without repeats, as many as there are up to `k`, and nothing left out comes
      before anything taken. Rows with equal timestamps may come in any order. */
  ghost predicate FirstRows(rows: seq<Row>, S: set<Row>, order: Order, k: Option<nat>) {
    && NoRepeats(rows) && Ordered(rows, order)
    && (forall r :: r in rows ==> r in S)
    && |rows| == (if k.Some? then Least(k.value, |S|) else |S|)
    && (forall r, s :: r in rows && s in S && s !in rows ==> Before(r, s, order))
  }

  lemma {:induction false} RowsAsSet(rows: seq<Row>)
    requires NoRepeats(rows)
    ensures |set r | r in rows| == |rows|
  {
    if rows != [] {
      var n := |rows| - 1;
      RowsAsSet(rows[..n]);
      assert (set r | r in rows) == (set r | r in rows[..n]) + {rows[n]};
    }
  }

  /** A scan that was not cut short lists the whole set. */
  lemma FullScanLists(rows: seq<Row>, S: set<Row>, order: Order, k: Option<nat>)
    requires FirstRows(rows, S, order, k) && |rows| == |S|
    ensures Lists(rows, S)
  {
    RowsAsSet(rows);
    var T := set r | r in rows;
    assert T <= S;
    assert |S - T| == |S| - |T|;
    assert S - T == {};
  }

  lemma ListsCount(rows: seq<Row>, S: set<Row>)
    requires Lists(rows, S)
    ensures |rows| == |S|
  {
    RowsAsSet(rows);
    assert (set r | r in rows) == S;
  }

  /** Appending the first rows of a later set to a full listing of an earlier one. */
  lemma AppendScan(a: seq<Row>, S: set<Row>, b: seq<Row>, T: set<Row>, order: Order, k: Option<nat>)
    requires Lists(a, S) && Ordered(a, order) && FirstRows(b, T, order, k) && S !! T
    requires forall r, s :: r in S && s in T ==> Before(r, s, order)
    ensures FirstRows(a + b, S + T, order, if k.Some? then Some(|a| + k.value) else None)
  {
    ListsCount(a, S);
    var c := a + b;
    forall i, j | 0 <= i < j < |c|
      ensures c[i] != c[j] && Before(c[i], c[j], order)
    {
      if i < |a| <= j {
        assert c[i] in S && c[j] in T by {
          assert a[i] in a && b[j - |a|] in b;
        }
      }
    }
    assert forall r :: r in c <==> r in a || r in b;
  }

  /** A row that comes first in the chosen order. */
  method PickFirst(S: set<Row>, order: Order) returns (r: Row)
    requires S != {}
    ensures r in S && forall s :: s in S ==> Before(r, s, order)
  {
    r :| r in S;
    var todo := S - {r};
    while todo != {}
      invariant todo <= S && r in S && r !in todo
      invariant forall s :: s in S && s !in todo ==> Before(r, s, order)
    {
      var s :| s in todo;
      todo := todo - {s};
      if !Before(r, s, order) {
        r := s;
      }
    }
  }

  /** How many rows a LIMIT clause admits: a negative limit admits all. */
  function SqlLimit(limit: Option<int>): Option<nat> {
    if limit.Some? && limit.value >= 0 then Some(limit.value) else None
  }

  /** SELECT ... ORDER BY timestamp_ns [DESC] [LIMIT ?] over the matching rows of a table. */
  method SelectOrdered(S: set<Row>, order: Order, limit: Option<int>) returns (rows: seq<Row>)
    ensures FirstRows(rows, S, order, SqlLimit(limit))
  {
    rows := [];
    var todo := S;
    while todo != {} && (SqlLimit(limit).None? || |rows| < SqlLimit(limit).value)
      invariant todo <= S
      invariant Lists(rows, S - todo) && Ordered(rows, order)
      invariant |rows| + |todo| == |S|
      invariant SqlLimit(limit).Some? ==> |rows| <= SqlLimit(limit).value
      invariant forall r, s :: r in rows && s in todo ==> Before(r, s, order)
      decreases |todo|
    {
      var r := PickFirst(todo, order);
      assert forall s :: s in rows + [r] <==> s in rows || s == r;
      rows, todo := rows + [r], todo - {r};
    }
  }

  /** The limit in force across partitions. A negative limit stops after the first row,
      because the countdown is tested after each row. */
  function Budget(limit: Option<int>): Option<nat> {
    if limit.None? then None else if limit.value < 0 then Some(1) else Some(limit.value)
  }

  /** The order of one partition's SELECT. */
  function SqlOrder(order: Order): Order {
    if order.Asc? then Asc else Desc
  }

  /** Inside one month the SELECT's order is the output's. */
  lemma WithinMonth(rows: seq<Row>, S: set<Row>, order: Order, k: Option<nat>, p: Month)
    requires FirstRows(rows, S, SqlOrder(order), k) && forall r :: r in S ==> MonthOf(r.ts) == p
    ensures FirstRows(rows, S, order, k)
  {
    forall r, s | r in S && s in S && Before(r, s, SqlOrder(order))
      ensures Before(r, s, order)
    {
      assert Major(r, order) == Major(s, order);
    }
    assert forall i :: 0 <= i < |rows| ==> rows[i] in rows;
  }

  /** The rows one partition contributes: its SELECT, cut after the first row if the
      remaining limit is negative. */
  method YieldFrom(S: set<Row>, order: Order, remaining: Option<int>, ghost p: Month) returns (rows: seq<Row>)
    requires forall r :: r in S ==> MonthOf(r.ts) == p
    ensures FirstRows(rows, S, order, Budget(remaining))
  {
    rows := SelectOrdered(S, SqlOrder(order), remaining);
    if remaining.Some? && remaining.value < 0 && rows != [] {
      rows := rows[..1];
    }
    WithinMonth(rows, S, order, Budget(remaining), p);
  }

  /** Once the limit is reached, the partitions not visited cannot contribute. */
  lemma ScanStopped(t: Partitions, names: seq<Month>, n: nat, q: Query, order: Order, rows: seq<Row>)
    requires ValidTables(t) && Visits(names, t, q, order) && n <= |names|
    requires FirstRows(rows, Through(t, names[..n], q), order, Some(|rows|))
    ensures FirstRows(rows, Selected(t, q), order, Some(|rows|))
  {
    var S, A := Through(t, names[..n], q), Selected(t, q);
    ThroughRows(t, names[..n], q);
    assert S <= A;
    assert |A| == |S| + |A - S|;
    forall r, s | r in S && s in A && s !in S
      ensures Before(r, s, order)
    {
      UnvisitedIsLater(t, names, n, q, order, r, s);
    }
  }

  lemma UnvisitedIsLater(t: Partitions, names: seq<Month>, n: nat, q: Query, order: Order, r: Row, s: Row)
    requires ValidTables(t) && Visits(names, t, q, order) && n <= |names| && s in Selected(t, q)
    requires MonthOf(r.ts) in names[..n] && MonthOf(s.ts) !in names[..n]
    ensures Before(r, s, order)
  {
    PruningKeepsRows(t, q, s);
    var i :| 0 <= i < n && names[i] == MonthOf(r.ts);
    var j :| 0 <= j < |names| && names[j] == MonthOf(s.ts);
    MonthsBefore(r, s, names[i], names[j], order);
  }

  lemma MonthsBefore(r: Row, s: Row, p: Month, p': Month, order: Order)
    requires MonthOf(r.ts) == p && MonthOf(s.ts) == p'
    requires if order.Desc? then Index(p') < Index(p) else Index(p) < Index(p')
    ensures Before(r, s, order) && r != s
  {
    MonthOfContains(r.ts);
    MonthOfContains(s.ts);
    if order.Desc? {
      MonthsInOrder(p', p);
    } else {
      MonthsInOrder(p, p');
    }
  }

  /** A scan below its limit is complete. */
  lemma ScanContinues(rows: seq<Row>, S: set<Row>, order: Order, k: Option<nat>)
    requires FirstRows(rows, S, order, k) && (k.Some? ==> |rows| < k.value)
    ensures Lists(rows, S) && Ordered(rows, order)
  {
    FullScanLists(rows, S, order, k);
  }

  /** All rows of the first `i` partitions, in order. */
  ghost predicate Listed(t: Partitions, names: seq<Month>, i: nat, q: Query, order: Order, out: seq<Row>)
    requires i <= |names|
  {
    Lists(out, Through(t, names[..i], q)) && Ordered(out, order)
  }

  /** What remains of the limit after `n` rows, with the limit not yet reached. */
  predicate Countdown(limit: Option<int>, n: nat, remaining: Option<int>) {
    && (limit.None? ==> remaining.None?)
    && (limit.Some? ==> remaining == Some(limit.value - n) && (n == 0 || n < Budget(limit).value))
  }

  /** Where the scan stands before partition `i`: everything so far has been yielded and
      the countdown is right. */
  ghost predicate ScanState(t: Partitions, names: seq<Month>, i: nat, q: Query, order: Order, limit: Option<int>,
                            out: seq<Row>, remaining: Option<int>)
    requires i <= |names|
  {
    (if limit == Some(0) then out == [] else Listed(t, names, i, q, order, out)) && Countdown(limit, |out|, remaining)
  }

  /** Appending a partition's rows keeps `first rows within the budget`. */
  lemma ScanAppended(t: Partitions, names: seq<Month>, i: nat, q: Query, order: Order, out: seq<Row>, k: Option<nat>, rows: seq<Row>)
    requires ValidTables(t) && Visits(names, t, q, order) && i < |names|
    requires Listed(t, names, i, q, order, out)
    requires FirstRows(rows, Matching(Table(t, names[i]), q), order, k)
    ensures FirstRows(out + rows, Through(t, names[..i + 1], q), order, if k.Some? then Some(|out| + k.value) else None)
  {
    NextPartition(t, names, i, q, order);
    AppendScan(out, Through(t, names[..i], q), rows, Matching(Table(t, names[i]), q), order, k);
  }

  /** The countdown reached zero after a row: what was yielded is the answer. */
  lemma VisitStops(t: Partitions, names: seq<Month>, i: nat, q: Query, order: Order, limit: Option<int>,
                   out: seq<Row>, remaining: Option<int>, rows: seq<Row>)
    requires ValidTables(t) && Visits(names, t, q, order) && i < |names|
    requires ScanState(t, names, i, q, order, limit, out, remaining)
    requires FirstRows(rows, Matching(Table(t, names[i]), q), order, Budget(remaining))
    requires remaining.Some? && rows != [] && remaining.value - |rows| <= 0
    ensures FirstRows(out + rows, Selected(t, q), order, Budget(limit))
  {
    ScanAppended(t, names, i, q, order, out, Budget(remaining), rows);
    assert |out + rows| == Budget(limit).value;
    ScanStopped(t, names, i + 1, q, order, out + rows);
  }

  /** A partition that was not cut short extends the listing. */
  lemma ListedMore(t: Partitions, names: seq<Month>, i: nat, q: Query, order: Order, out: seq<Row>, k: Option<nat>, rows: seq<Row>)
    requires ValidTables(t) && Visits(names, t, q, order) && i < |names|
    requires Listed(t, names, i, q, order, out)
    requires FirstRows(rows, Matching(Table(t, names[i]), q), order, k) && (k.Some? ==> |rows| < k.value)
    ensures Listed(t, names, i + 1, q, order, out + rows)
  {
    ScanAppended(t, names, i, q, order, out, k, rows);
    ScanContinues(out + rows, Through(t, names[..i + 1], q), order, if k.Some? then Some(|out| + k.value) else None);
  }

  lemma VisitContinues(t: Partitions, names: seq<Month>, i: nat, q: Query, order: Order, limit: Option<int>,
                       out: seq<Row>, remaining: Option<int>, rows: seq<Row>)
    requires ValidTables(t) && Visits(names, t, q, order) && i < |names|
    requires ScanState(t, names, i, q, order, limit, out, remaining)
    requires FirstRows(rows, Matching(Table(t, names[i]), q), order, Budget(remaining))
    requires remaining.Some? ==> rows == [] || remaining.value - |rows| > 0
    ensures ScanState(t, names, i + 1, q, order, limit, out + rows, if remaining.Some? then Some(remaining.value - |rows|) else None)
  {
    if limit != Some(0) {
      ListedMore(t, names, i, q, order, out, Budget(remaining), rows);
    } else {
      assert |rows| == 0;
    }
  }

  method VisitPartition(t: Partitions, names: seq<Month>, i: nat, q: Query, order: Order, limit: Option<int>,
                        out: seq<Row>, remaining: Option<int>)
    returns (out': seq<Row>, remaining': Option<int>, stop: bool)
    requires ValidTables(t) && Visits(names, t, q, order) && i < |names|
    requires ScanState(t, names, i, q, order, limit, out, remaining)
    ensures stop ==> FirstRows(out', Selected(t, q), order, Budget(limit))
    ensures !stop ==> ScanState(t, names, i + 1, q, order, limit, out', remaining')
  {
    var rows := YieldFrom(Matching(Table(t, names[i]), q), order, remaining, names[i]);
    out', remaining', stop := out + rows, remaining, false;
    if remaining.Some? {
      remaining' := Some(remaining.value - |rows|);
      stop := rows != [] && remaining'.value <= 0;
    }
    if stop {
      VisitStops(t, names, i, q, order, limit, out, remaining, rows);
    } else {
      VisitContinues(t, names, i, q, order, limit, out, remaining, rows);
    }
  }

  /** `query_time_range`: the first rows of the whole window in the chosen order. The limit
      is global: it counts down across partitions. */
  method QueryTimeRange(t: Partitions, q: Query, limit: Option<int>, order: Order) returns (out: seq<Row>)
    requires ValidTables(t)
    ensures FirstRows(out, Selected(t, q), order, Budget(limit))
  {
    var names := PartitionsForRange(t, q, order);
    var remaining := limit;
    out := [];
    for i := 0 to |names|
      invariant ScanState(t, names, i, q, order, limit, out, remaining)
    {
      var stop;
      out, remaining, stop := VisitPartition(t, names, i, q, order, limit, out, remaining);
      if stop {
        return;
      }
    }
    assert names[..|names|] == names;
    ThroughAll(t, names, q, order);
    if limit != Some(0) {
      ListsCount(out, Selected(t, q));
    }
  }

  ghost function PrefixSet(rows: seq<Row>, n: nat): set<Row>
    requires n <= |rows|
  {
    set r | r in rows[..n]
  }

  lemma PrefixSize(rows: seq<Row>, n: nat)
    requires NoRepeats(rows) && n <= |rows|
    ensures |PrefixSet(rows, n)| == n
  {
    RowsAsSet(rows[..n]);
  }

  lemma {:induction false} SubsetSize<T>(A: set<T>, B: set<T>)
    requires A <= B
    ensures |A| <= |B|
  {
    assert B == A + (B - A);
  }

  /** If one scan had a strictly later row at `i`, all rows of the other up to `i` would be
      among its first `i`. */
  lemma EarlierIsListed(a: seq<Row>, b: seq<Row>, S: set<Row>, order: Order, k: Option<nat>, i: nat, j: nat)
    requires FirstRows(a, S, order, k) && FirstRows(b, S, order, k) && j <= i < |a|
    requires !Before(b[i], a[i], order)
    ensures a[j] in b[..i]
  {
    var r := a[j];
    assert r in a && b[i] in b;
    assert !Before(b[i], r, order);
    var m :| 0 <= m < |b| && b[m] == r;
    assert m < i;
    assert b[..i][m] == r;
  }

  /** No scan puts a strictly earlier row at a position than another scan does. */
  lemma NotEarlier(a: seq<Row>, b: seq<Row>, S: set<Row>, order: Order, k: Option<nat>, i: nat)
    requires FirstRows(a, S, order, k) && FirstRows(b, S, order, k) && i < |a|
    ensures Before(b[i], a[i], order)
  {
    if !Before(b[i], a[i], order) {
      PrefixSize(a, i + 1);
      PrefixSize(b, i);
      forall r | r in PrefixSet(a, i + 1)
        ensures r in PrefixSet(b, i)
      {
        var j :| 0 <= j <= i && a[j] == r;
        EarlierIsListed(a, b, S, order, k, i, j);
      }
      SubsetSize(PrefixSet(a, i + 1), PrefixSet(b, i));
    }
  }

  /** The timestamps of a scan are determined by the rows stored, whatever the order among
      equal timestamps: the result is the head of the globally sorted window. */
  lemma ScanIsDetermined(a: seq<Row>, b: seq<Row>, S: set<Row>, order: Order, k: Option<nat>)
    requires FirstRows(a, S, order, k) && FirstRows(b, S, order, k)
    ensures |a| == |b| && forall i :: 0 <= i < |a| ==> a[i].ts == b[i].ts
  {
    forall i | 0 <= i < |a|
      ensures a[i].ts == b[i].ts
    {
      NotEarlier(a, b, S, order, k, i);
      NotEarlier(b, a, S, order, k, i);
    }
  }

  ghost predicate WithinOneMonth(S: set<Row>) {
    forall r, s :: r in S && s in S ==> MonthOf(r.ts) == MonthOf(s.ts)
  }

  /** The first row of such a scan is in the oldest month. */
  lemma FirstIsInOldestMonth(rows: seq<Row>, S: set<Row>, k: Option<nat>, s: Row)
    requires FirstRows(rows, S, Other, k) && rows != [] && s in S
    ensures Index(MonthOf(rows[0].ts)) <= Index(MonthOf(s.ts))
  {
    assert rows[0] in rows;
    if s in rows {
      var i :| 0 <= i < |rows| && rows[i] == s;
    }
  }

  lemma NewerIsMissed(rows: seq<Row>, S: set<Row>, k: Option<nat>, s: Row)
    requires FirstRows(rows, S, Other, k) && rows != [] && s in S && MonthOf(s.ts) != MonthOf(rows[0].ts)
    ensures !FirstRows(rows, S, Desc, k)
  {
    FirstIsInOldestMonth(rows, S, k, s);
    LaterMonth(rows[0], s);
    assert rows[0] in rows && !Before(rows[0], s, Desc);
    if s in rows {
      var i :| 0 <= i < |rows| && rows[i] == s;
      assert !Ordered(rows, Desc);
    }
  }

  /** A read in any other order than `asc` and `desc` is a read in descending order if and
      only if it yields nothing or the window's samples lie in one month. */
  lemma OtherOrderDescendsWhen(rows: seq<Row>, S: set<Row>, k: Option<nat>)
    requires FirstRows(rows, S, Other, k)
    ensures FirstRows(rows, S, Desc, k) <==> rows == [] || WithinOneMonth(S)
  {
    if rows != [] && !WithinOneMonth(S) {
      var r, s :| r in S && s in S && MonthOf(r.ts) != MonthOf(s.ts);
      NewerIsMissed(rows, S, k, if MonthOf(r.ts) != MonthOf(rows[0].ts) then r else s);
    }
  }

  lemma LaterMonth(r: Row, s: Row)
    requires MonthOf(r.ts) != MonthOf(s.ts) && Index(MonthOf(r.ts)) <= Index(MonthOf(s.ts))
    ensures r.ts < s.ts
  {
    MonthOfContains(r.ts);
    MonthOfContains(s.ts);
    MonthsInOrder(MonthOf(r.ts), MonthOf(s.ts));
  }

  // ---------------------------------------------------------------------
  // Counting, the first sample, and the row cap
  // ---------------------------------------------------------------------

  /** `count_in_range`: a COUNT per partition, added up. */
  method CountInRange(t: Partitions, q: Query) returns (total: nat)
    requires ValidTables(t)
    ensures total == |Selected(t, q)|
  {
    var names := PartitionsForRange(t, q, Asc);
    total := 0;
    for i := 0 to |names|
      invariant total == |Through(t, names[..i], q)|
    {
      NextPartition(t, names, i, q, Asc);
      total := total + |Matching(Table(t, names[i]), q)|;
    }
    assert names[..|names|] == names;
    ThroughAll(t, names, q, Asc);
  }

  ghost predicate IsFirst(S: set<Row>, first: Option<int>) {
    if first.None? then S == {}
    else (exists r :: r in S && r.ts == first.value) && forall r :: r in S ==> first.value <= r.ts
  }

  lemma FirstOfScan(rows: seq<Row>, S: set<Row>)
    requires FirstRows(rows, S, Asc, Some(1))
    ensures IsFirst(S, if rows == [] then None else Some(rows[0].ts))
  {
    if rows != [] {
      forall r | r in S
        ensures rows[0].ts <= r.ts
      {
        assert rows[0] in rows;
        if r in rows {
          assert |rows| == 1;
        }
      }
    }
  }

  lemma FirstOfUnion(S: set<Row>, T: set<Row>, a: Option<int>, b: Option<int>)
    requires IsFirst(S, a) && IsFirst(T, b)
    ensures IsFirst(S + T, if b.Some? && (a.None? || b.value < a.value) then b else a)
  {}

  /** `first_sample_ts`: the oldest timestamp in range, if any. */
  method FirstSampleTs(t: Partitions, q: Query) returns (first: Option<int>)
    requires ValidTables(t)
    ensures IsFirst(Selected(t, q), first)
  {
    var names := PartitionsForRange(t, q, Asc);
    first := None;
    for i := 0 to |names|
      invariant IsFirst(Through(t, names[..i], q), first)
    {
      NextPartition(t, names, i, q, Asc);
      var S := Matching(Table(t, names[i]), q);
      var rows := SelectOrdered(S, Asc, Some(1));
      FirstOfScan(rows, S);
      FirstOfUnion(Through(t, names[..i], q), S, first, if rows == [] then None else Some(rows[0].ts));
      if rows != [] && (first.None? || rows[0].ts < first.value) {
        first := Some(rows[0].ts);
      }
    }
    assert names[..|names|] == names;
    ThroughAll(t, names, q, Asc);
  }

  /** `_fetch`: the rows asked for, or None for MaxRowsExceeded. Nothing is truncated
      silently: it raises exactly when a positive cap is smaller than both the window and
      the caller's limit. */
  method Fetch(t: Partitions, q: Query, cap: int, limit: Option<int>, order: Order) returns (rows: Option<seq<Row>>)
    requires ValidTables(t)
    ensures rows.None? <==> cap > 0 && |Selected(t, q)| > cap && (limit.None? || limit.value > cap)
    ensures rows.Some? ==> FirstRows(rows.value, Selected(t, q), order, Budget(limit))
  {
    if q.ids == {} {
      assert Selected(t, q) == {};
      return Some([]);
    }
    var fetchLimit := if cap > 0 then Some(cap + 1) else None;
    if limit.Some? && (fetchLimit.None? || limit.value < fetchLimit.value) {
      fetchLimit := limit;
    }
    var out := QueryTimeRange(t, q, fetchLimit, order);
    if cap > 0 && |out| > cap {
      return None;
    }
    return Some(out);
  }

  /** The raw branch of `aggregate`: a COUNT first, then the fetch. The count check
      refuses exactly the windows whose fetch would have raised. */
  method FetchForAggregate(t: Partitions, q: Query, cap: int) returns (rows: Option<seq<Row>>, refusedByCount: bool)
    requires ValidTables(t)
    ensures refusedByCount <==> cap > 0 && |Selected(t, q)| > cap
    ensures rows.None? <==> refusedByCount
    ensures rows.Some? ==> FirstRows(rows.value, Selected(t, q), Asc, None)
  {
    var n := CountInRange(t, q);
    if cap > 0 && n > cap {
      return None, true;
    }
    rows := Fetch(t, q, cap, None, Asc);
    return rows, false;
  }
}
