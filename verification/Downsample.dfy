/** Downsampling two ways, in Python over fetched samples and in SQL per partition, and
    the pieces they share with the rollup fast path. */
module Downsample {
  import opened Options
  import opened Calendar
  import opened Aggregates
  import opened Tables
  import opened Rollup
  import opened Scan
  import opened Partials
  import WritePath

  // ---------------------------------------------------------------------
  // Aggregating a list of values
  // ---------------------------------------------------------------------

  function Values(rows: seq<Row>): seq<real> {
    seq(|rows|, i requires 0 <= i < |rows| => rows[i].value)
  }

  function SumOf(vs: seq<real>): real {
    if vs == [] then 0.0 else SumOf(vs[..|vs| - 1]) + vs[|vs| - 1]
  }

  function MinOf(vs: seq<real>): real
    requires vs != []
  {
    if |vs| == 1 then vs[0] else Min(MinOf(vs[..|vs| - 1]), vs[|vs| - 1])
  }

  function MaxOf(vs: seq<real>): real
    requires vs != []
  {
    if |vs| == 1 then vs[0] else Max(MaxOf(vs[..|vs| - 1]), vs[|vs| - 1])
  }

  /** The aggregators applied to a nonempty list of values. */
  function ListFunc(fn: Func, vs: seq<real>): real
    requires vs != []
  {
    match fn
    case Avg => SumOf(vs) / |vs| as real
    case Sum => SumOf(vs)
    case Minimum => MinOf(vs)
    case Maximum => MaxOf(vs)
    case Count => |vs| as real
  }

  /** The list aggregates are the fold of the one-sample partials. */
  lemma {:induction false} FoldListStats(rows: seq<Row>)
    requires rows != []
    ensures var vs := Values(rows); FoldList(rows) == Stats(|vs|, SumOf(vs), MinOf(vs), MaxOf(vs))
  {
    var n := |rows| - 1;
    var vs := Values(rows);
    assert vs[..n] == Values(rows[..n]);
    if n > 0 {
      FoldListStats(rows[..n]);
    } else {
      assert FoldList(rows[..n]) == Empty;
    }
  }

  lemma ListFuncIsValue(fn: Func, rows: seq<Row>)
    requires rows != []
    ensures FoldList(rows).Stats? && FoldList(rows).count >= 1
    ensures ListFunc(fn, Values(rows)) == Value(fn, FoldList(rows))
  {
    FoldListStats(rows);
  }

  // ---------------------------------------------------------------------
  // Samples to partials, partials to answers
  // ---------------------------------------------------------------------

  lemma ListsItself(rows: seq<Row>)
    requires NoRepeats(rows)
    ensures Lists(rows, WritePath.RowSet(rows))
  {}

  /** The whole window as one group. */
  lemma WholeWindowReference(S: set<Row>)
    ensures Reference(S, None) == if S == {} then map[] else map[None := AggRows(S)]
  {
    if S != {} {
      var r :| r in S;
      assert StartKey(None)(r) == None;
      assert Image(S, StartKey(None)) == {None};
      assert Group(S, StartKey(None), None) == S;
    }
  }

  /** Indexed partials as a list of parts ordered by bucket. */
  method ListParts(m: map<int, Agg>, b: int) returns (parts: seq<Part>)
    requires b > 0
    ensures PartsOf(parts, Rekeyed(m, b))
  {
    var keys := SortedInts(m.Keys);
    parts := [];
    for i := 0 to |keys|
      invariant |parts| == i
      invariant forall j :: 0 <= j < i ==> keys[j] in m && parts[j] == (Some(keys[j] * b), m[keys[j]])
    {
      assert keys[i] in keys;
      parts := parts + [(Some(keys[i] * b), m[keys[i]])];
    }
    ListedParts(m, b, keys, parts);
  }

  /** The entries of a dict under the starts of their buckets list the rekeyed dict. */
  lemma ListedParts(m: map<int, Agg>, b: int, keys: seq<int>, parts: seq<Part>)
    requires b > 0 && Increasing(keys) && (forall k :: k in keys <==> k in m) && |parts| == |keys|
    requires forall j :: 0 <= j < |keys| ==> keys[j] in m && parts[j] == (Some(keys[j] * b), m[keys[j]])
    ensures PartsOf(parts, Rekeyed(m, b))
  {
    PartsOrdered(keys, b);
    forall j | 0 <= j < |parts|
      ensures parts[j].0 in Rekeyed(m, b) && Rekeyed(m, b)[parts[j].0] == parts[j].1
    {
      RekeyedAt(m, b, keys[j]);
    }
    forall k | k in Rekeyed(m, b)
      ensures exists j :: 0 <= j < |parts| && parts[j].0 == k
    {
      RekeyedKeys(m, b, k);
      var j :| 0 <= j < |keys| && keys[j] == k.value / b;
      assert parts[j].0 == k;
    }
  }

  lemma PartsOrdered(keys: seq<int>, b: int)
    requires Increasing(keys) && b > 0
    ensures forall i, j :: 0 <= i < j < |keys| ==> keys[i] * b < keys[j] * b
  {
    forall i, j | 0 <= i < j < |keys|
      ensures keys[i] * b < keys[j] * b
    {
      ProductGap(keys[j] - keys[i], b);
    }
  }

  /** `_bucket_partials`: the exact partials of the samples given, one per bucket, or one
      for the whole window. */
  method BucketPartials(rows: seq<Row>, b: Option<int>) returns (parts: seq<Part>)
    requires NoRepeats(rows) && IsBucket(b)
    ensures PartsOf(parts, Reference(WritePath.RowSet(rows), b))
  {
    ListsItself(rows);
    if b.None? {
      WholeWindowReference(WritePath.RowSet(rows));
      var vs := Values(rows);
      if vs == [] {
        assert WritePath.RowSet(rows) == {};
        return [];
      }
      assert rows[0] in WritePath.RowSet(rows);
      FoldListStats(rows);
      FoldListIsFold(rows, WritePath.RowSet(rows));
      parts := [(None, Stats(|vs|, SumOf(vs), MinOf(vs), MaxOf(vs)))];
      assert parts[0].0 == None;
      return;
    }
    var m := GroupSamples(rows, IndexKey(b.value));
    SeqGroupIsGroupBy(rows, WritePath.RowSet(rows), IndexKey(b.value));
    RekeyReference(WritePath.RowSet(rows), b.value);
    parts := ListParts(m, b.value);
  }

  /** The value of each bucket, by increasing bucket start. */
  method ListBuckets(m: map<Option<int>, Agg>, fn: Func) returns (out: Answer)
    requires NonemptyPartials(m) && forall k :: k in m ==> k.Some?
    ensures IsAnswer(out, m, fn)
  {
    var starts := set k | k in m :: k.value;
    var keys := SortedInts(starts);
    out := [];
    for i := 0 to |keys|
      invariant |out| == i
      invariant forall j :: 0 <= j < i ==> out[j].0 == keys[j] && Some(keys[j]) in m && out[j].1 == Value(fn, m[Some(keys[j])])
    {
      assert keys[i] in keys;
      assert Some(keys[i]) in m;
      out := out + [(keys[i], Value(fn, m[Some(keys[i])]))];
    }
    forall v: int | Some(v) in m
      ensures exists i :: 0 <= i < |out| && out[i].0 == v
    {
      assert Some(v).value in starts;
      assert v in keys;
      var i :| 0 <= i < |keys| && keys[i] == v;
      assert out[i].0 == v;
    }
  }

  /** `_finalize_buckets`: values by increasing bucket start, then the first `limit`. */
  method FinalizeBuckets(m: map<Option<int>, Agg>, fn: Func, limit: Option<int>) returns (out: Answer, ghost full: Answer)
    requires NonemptyPartials(m) && forall k :: k in m ==> k.Some?
    ensures IsAnswer(full, m, fn) && TakesFirst(out, full, limit)
    ensures limit.None? ==> IsAnswer(out, m, fn)
  {
    out := ListBuckets(m, fn);
    full := out;
    out := Slice(out, limit);
  }

  /** `downsample`: values collected per bucket, aggregated, by increasing bucket start. */
  method DownsampleSamples(rows: seq<Row>, b: int, fn: Func) returns (out: Answer)
    requires NoRepeats(rows) && b > 0
    ensures NonemptyPartials(Reference(WritePath.RowSet(rows), Some(b)))
    ensures IsAnswer(out, Reference(WritePath.RowSet(rows), Some(b)), fn)
  {
    ghost var S := WritePath.RowSet(rows);
    ListsItself(rows);
    var buckets := CollectBuckets(rows, S, b);
    var keys := SortedInts(buckets.Keys);
    out := [];
    for i := 0 to |keys|
      invariant |out| == i
      invariant forall j :: 0 <= j < i ==> BucketAnswer(S, b, fn, keys[j], out[j])
    {
      assert keys[i] in keys;
      BucketValues(rows, S, b, fn, keys[i], buckets);
      out := out + [(keys[i] * b, ListFunc(fn, Values(buckets[keys[i]])))];
    }
    AnswerFromBuckets(S, b, fn, keys, out);
  }

  /** The samples of each bucket, in order of arrival. */
  method CollectBuckets(rows: seq<Row>, ghost S: set<Row>, b: int) returns (buckets: map<int, seq<Row>>)
    requires Lists(rows, S) && b > 0
    ensures buckets.Keys == Image(S, IndexKey(b))
    ensures forall k :: WritePath.PartOf(buckets, k) == WritePath.Filter(rows, IndexKey(b), k)
  {
    buckets := WritePath.SplitBy(rows, IndexKey(b));
  }

  /** The entry of one bucket in the answer. */
  ghost predicate BucketAnswer(S: set<Row>, b: int, fn: Func, k: int, e: (int, real))
    requires b > 0
  {
    var ref := Reference(S, Some(b));
    && e.0 == k * b
    && Some(e.0) in ref && ref[Some(e.0)].Stats? && ref[Some(e.0)].count >= 1
    && e.1 == Value(fn, ref[Some(e.0)])
  }

  /** Right entries for all buckets, in order, are the answer. */
  lemma AnswerFromBuckets(S: set<Row>, b: int, fn: Func, keys: seq<int>, out: Answer)
    requires b > 0 && Increasing(keys) && |out| == |keys|
    requires forall k :: k in keys <==> k in Image(S, IndexKey(b))
    requires forall j :: 0 <= j < |keys| ==> BucketAnswer(S, b, fn, keys[j], out[j])
    ensures NonemptyPartials(Reference(S, Some(b)))
    ensures IsAnswer(out, Reference(S, Some(b)), fn)
  {
    ReferenceNonempty(S, Some(b));
    PartsOrdered(keys, b);
    forall k | k in Reference(S, Some(b)) && k.Some?
      ensures exists i :: 0 <= i < |out| && out[i].0 == k.value
    {
      var r :| r in S && StartKey(Some(b))(r) == k;
      assert IndexKey(b)(r) in Image(S, IndexKey(b));
      var i :| 0 <= i < |keys| && keys[i] == r.ts / b;
      assert BucketAnswer(S, b, fn, keys[i], out[i]);
    }
  }

  lemma BucketValues(rows: seq<Row>, S: set<Row>, b: int, fn: Func, k: int, buckets: map<int, seq<Row>>)
    requires Lists(rows, S) && b > 0 && k in buckets && buckets.Keys == Image(S, IndexKey(b))
    requires WritePath.PartOf(buckets, k) == WritePath.Filter(rows, IndexKey(b), k)
    ensures buckets[k] != [] && BucketAnswer(S, b, fn, k, (k * b, ListFunc(fn, Values(buckets[k]))))
  {
    var m := GroupBy(S, IndexKey(b), RowAgg());
    var G := Group(S, IndexKey(b), k);
    FilterLists(rows, S, IndexKey(b), k);
    FoldListIsFold(buckets[k], G);
    var r :| r in S && IndexKey(b)(r) == k;
    assert r in G;
    assert r in buckets[k];
    ListFuncIsValue(fn, buckets[k]);
    RekeyReference(S, b);
    RekeyedAt(m, b, k);
  }

  // ---------------------------------------------------------------------
  // Downsampling in SQL
  // ---------------------------------------------------------------------

  /** The CASE expression: truncating division corrected to a floor below zero. */
  function SqlBucket(ts: int, b: int): int
    requires b > 0
  {
    if ts >= 0 then SqlDiv(ts, b) else -SqlDiv(-ts + b - 1, b)
  }

  /** The SQL bucket is the Python bucket, for every timestamp of either sign. */
  lemma SqlBucketIsFloor(ts: int, b: int)
    requires b > 0
    ensures SqlBucket(ts, b) == ts / b
  {
    if ts < 0 {
      var x := -ts + b - 1;
      var k := x / b;
      assert x == k * b + x % b;
      var r := b - 1 - x % b;
      assert ts == (-k) * b + r;
      DivideProduct(-k, r, b);
    }
  }

  function SqlBucketKey(b: int): Row -> int
    requires b > 0
  {
    (r: Row) => SqlBucket(r.ts, b)
  }

  /** Fold one query result into the dict of partials. */
  method MergeDicts(m: map<int, Agg>, n: map<int, Agg>) returns (out: map<int, Agg>)
    ensures out == MergeMaps(m, n)
  {
    out := m;
    var keys := SortedInts(n.Keys);
    for i := 0 to |keys|
      invariant forall k :: k in out <==> k in m || k in keys[..i]
      invariant forall k :: k in out ==> out[k] == if k in keys[..i] then Merge(At(m, k), At(n, k)) else m[k]
    {
      var k := keys[i];
      assert k in keys;
      assert k !in keys[..i];
      assert forall x :: x in keys[..i + 1] <==> x in keys[..i] || x == k;
      out := out[k := if k in out then Merge(out[k], n[k]) else n[k]];
    }
    assert keys[..|keys|] == keys;
    forall k: int
      ensures k in out <==> k in m || k in n
    {
      assert k in keys <==> k in n.Keys;
    }
    assert out.Keys == m.Keys + n.Keys;
    forall k | k in out
      ensures out[k] == MergeMaps(m, n)[k]
    {
      MergeCommutes(At(m, k), Empty);
    }
  }

  /** `downsample_sqlite`: one GROUP BY per partition, merged oldest first, equals grouping
      all selected rows at once; buckets that span months come out whole. */
  method DownsampleSqlite(t: Partitions, q: Query, b: int) returns (m: map<int, Agg>)
    requires ValidTables(t) && b > 0
    ensures m == GroupBy(Selected(t, q), IndexKey(b), RowAgg())
  {
    var names := PartitionsForRange(t, q, Asc);
    m := map[];
    assert GroupBy(Through(t, names[..0], q), IndexKey(b), RowAgg()) == map[];
    for i := 0 to |names|
      invariant m == GroupBy(Through(t, names[..i], q), IndexKey(b), RowAgg())
    {
      NextPartition(t, names, i, q, Asc);
      var S := Matching(Table(t, names[i]), q);
      var part := GroupRows(S, SqlBucketKey(b));
      SameBuckets(S, b);
      GroupByUnion(Through(t, names[..i], q), S, IndexKey(b), RowAgg());
      m := MergeDicts(m, part);
    }
    assert names[..|names|] == names;
    ThroughAll(t, names, q, Asc);
  }

  lemma SameBuckets(S: set<Row>, b: int)
    requires b > 0
    ensures GroupBy(S, SqlBucketKey(b), RowAgg()) == GroupBy(S, IndexKey(b), RowAgg())
  {
    forall r | r in S
      ensures SqlBucketKey(b)(r) == IndexKey(b)(r)
    {
      SqlBucketIsFloor(r.ts, b);
    }
    GroupBySameKey(S, SqlBucketKey(b), IndexKey(b), RowAgg());
  }

  /** `_downsample_sql`: the answer over the selected rows, or None when there are more
      buckets than the cap. */
  method DownsampleSql(t: Partitions, q: Query, b: int, fn: Func, cap: int) returns (out: Option<Answer>)
    requires ValidTables(t) && b > 0
    ensures out.None? <==> cap > 0 && |Image(Selected(t, q), IndexKey(b))| > cap
    ensures NonemptyPartials(Reference(Selected(t, q), Some(b)))
    ensures out.Some? ==> IsAnswer(out.value, Reference(Selected(t, q), Some(b)), fn)
  {
    ghost var S := Selected(t, q);
    ReferenceNonempty(S, Some(b));
    var m := DownsampleSqlite(t, q, b);
    assert m.Keys == Image(S, IndexKey(b));
    if cap > 0 && |m| > cap {
      return None;
    }
    var rows := ListPartialValues(m, b, fn, S);
    return Some(rows);
  }

  /** The values of the SQL partials, by increasing bucket. */
  method ListPartialValues(m: map<int, Agg>, b: int, fn: Func, ghost S: set<Row>) returns (rows: Answer)
    requires b > 0 && m == GroupBy(S, IndexKey(b), RowAgg())
    ensures NonemptyPartials(Reference(S, Some(b))) && IsAnswer(rows, Reference(S, Some(b)), fn)
  {
    var keys := SortedInts(m.Keys);
    rows := [];
    for i := 0 to |keys|
      invariant |rows| == i
      invariant forall j :: 0 <= j < i ==> BucketAnswer(S, b, fn, keys[j], rows[j])
    {
      assert keys[i] in keys;
      BucketFromPartial(S, b, fn, keys[i]);
      rows := rows + [(keys[i] * b, Value(fn, m[keys[i]]))];
    }
    AnswerFromBuckets(S, b, fn, keys, rows);
  }

  lemma BucketFromPartial(S: set<Row>, b: int, fn: Func, k: int)
    requires b > 0 && k in Image(S, IndexKey(b))
    ensures var m := GroupBy(S, IndexKey(b), RowAgg());
            m[k].Stats? && m[k].count >= 1 && BucketAnswer(S, b, fn, k, (k * b, Value(fn, m[k])))
  {
    var m := GroupBy(S, IndexKey(b), RowAgg());
    RekeyReference(S, b);
    RekeyedAt(m, b, k);
    ReferenceNonempty(S, Some(b));
  }
}
