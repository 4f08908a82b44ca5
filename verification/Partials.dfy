/** Per-bucket partial aggregates: computed from raw samples in Python, per partition in
    SQL, merged by bucket, and turned into the answer list. */
module Partials {
  import opened Options
  import opened Calendar
  import opened Aggregates
  import opened Tables
  import opened Scan
  import WritePath

  /** The aggregations that count, sum, min and max can express. */
  datatype Func = Avg | Sum | Minimum | Maximum | Count

  function Value(fn: Func, a: Agg): real
    requires a.Stats? && a.count >= 1
  {
    match fn
    case Avg => a.sum / a.count as real
    case Sum => a.sum
    case Minimum => a.lo
    case Maximum => a.hi
    case Count => a.count as real
  }

  /** Start of the epoch-aligned bucket, or None for the whole window. */
  function BucketStart(ts: int, b: Option<int>): Option<int>
    requires b.Some? ==> b.value > 0
  {
    if b.None? then None else Some(ts / b.value * b.value)
  }

  predicate IsBucket(b: Option<int>) {
    b.Some? ==> b.value > 0
  }

  function StartKey(b: Option<int>): Row -> Option<int>
    requires IsBucket(b)
  {
    (r: Row) => BucketStart(r.ts, b)
  }

  function IndexKey(b: int): Row -> int
    requires b > 0
  {
    (r: Row) => r.ts / b
  }

  /** What every path must compute: the exact partial of each bucket that has samples. */
  ghost function Reference(S: set<Row>, b: Option<int>): map<Option<int>, Agg>
    requires IsBucket(b)
  {
    GroupBy(S, StartKey(b), RowAgg())
  }

  // ---------------------------------------------------------------------
  // Folding lists of rows
  // ---------------------------------------------------------------------

  function FoldList(rows: seq<Row>): Agg {
    if rows == [] then Empty
    else
      var n := |rows| - 1;
      Merge(FoldList(rows[..n]), One(rows[n].value))
  }

  lemma {:induction false} FoldListIsFold(rows: seq<Row>, S: set<Row>)
    requires Lists(rows, S)
    ensures FoldList(rows) == AggRows(S)
  {
    if rows == [] {
      assert S == {};
    } else {
      var n := |rows| - 1;
      var T := S - {rows[n]};
      forall r
        ensures r in rows[..n] <==> r in T
      {
        if r in T {
          var i :| 0 <= i < |rows| && rows[i] == r;
        }
      }
      FoldListIsFold(rows[..n], T);
      FoldAdd(T, RowAgg(), rows[n]);
      assert T + {rows[n]} == S;
    }
  }

  lemma {:induction false} FilterLists<J(!new)>(rows: seq<Row>, S: set<Row>, key: Row -> J, j: J)
    requires Lists(rows, S)
    ensures Lists(WritePath.Filter(rows, key, j), Group(S, key, j))
  {
    WritePath.FilterRows(rows, key, j);
    FilterNoRepeats(rows, key, j);
  }

  lemma {:induction false} FilterNoRepeats<J(!new)>(rows: seq<Row>, key: Row -> J, j: J)
    requires NoRepeats(rows)
    ensures NoRepeats(WritePath.Filter(rows, key, j))
  {
    if rows != [] {
      var n := |rows| - 1;
      FilterNoRepeats(rows[..n], key, j);
      WritePath.FilterRows(rows[..n], key, j);
      var f := WritePath.Filter(rows[..n], key, j);
      assert forall i :: 0 <= i < |f| ==> f[i] in f;
    }
  }

  // ---------------------------------------------------------------------
  // Answers
  // ---------------------------------------------------------------------

  type Answer = seq<(int, real)>

  predicate NonemptyPartials<J>(m: map<J, Agg>) {
    forall j :: j in m ==> m[j].Stats? && m[j].count >= 1
  }

  /** `out` lists the buckets of `m` by increasing start with their values. */
  ghost predicate IsAnswer(out: Answer, m: map<Option<int>, Agg>, fn: Func)
    requires NonemptyPartials(m)
  {
    && (forall i, j :: 0 <= i < j < |out| ==> out[i].0 < out[j].0)
    && (forall i :: 0 <= i < |out| ==> Some(out[i].0) in m && out[i].1 == Value(fn, m[Some(out[i].0)]))
    && (forall k :: k in m && k.Some? ==> exists i :: 0 <= i < |out| && out[i].0 == k.value)
  }

  lemma AnswerFinds(out: Answer, m: map<Option<int>, Agg>, fn: Func, other: Answer, i: nat) returns (j: nat)
    requires NonemptyPartials(m) && IsAnswer(out, m, fn) && IsAnswer(other, m, fn) && i < |other|
    ensures j < |out| && out[j].0 == other[i].0
  {
    var k := Some(other[i].0);
    assert k in m && k.Some?;
    j :| 0 <= j < |out| && out[j].0 == k.value;
  }

  /** After a common beginning, the next entries are the same. */
  lemma SameNext(a: Answer, b: Answer, m: map<Option<int>, Agg>, fn: Func, i: nat)
    requires NonemptyPartials(m) && IsAnswer(a, m, fn) && IsAnswer(b, m, fn)
    requires i < |a| && i <= |b| && forall l :: 0 <= l < i ==> a[l] == b[l]
    ensures i < |b| && a[i] == b[i]
  {
    var j := AnswerFinds(b, m, fn, a, i);
    NotAmongEarlier(a, b, i, j);
    var l := AnswerFinds(a, m, fn, b, i);
    NotAmongEarlier(b, a, i, l);
    assert b[i].0 <= b[j].0 == a[i].0 <= a[l].0 == b[i].0;
  }

  /** Wherever `b` agrees with `a` so far, it goes on as `a` does. */
  ghost predicate Follows(b: Answer, a: Answer) {
    forall i: nat :: i < |a| && i <= |b| && a[..i] == b[..i] ==> i < |b| && a[i] == b[i]
  }

  lemma {:induction false} FollowsAll(b: Answer, a: Answer, n: nat)
    requires Follows(b, a) && n <= |a|
    ensures n <= |b| && a[..n] == b[..n]
  {
    if n > 0 {
      FollowsAll(b, a, n - 1);
      assert a[..n] == a[..n - 1] + [a[n - 1]] && b[..n] == b[..n - 1] + [b[n - 1]];
    }
  }

  lemma AnswersFollow(a: Answer, b: Answer, m: map<Option<int>, Agg>, fn: Func)
    requires NonemptyPartials(m) && IsAnswer(a, m, fn) && IsAnswer(b, m, fn)
    ensures Follows(b, a)
  {
    forall i: nat | i < |a| && i <= |b| && a[..i] == b[..i]
      ensures i < |b| && a[i] == b[i]
    {
      assert forall l :: 0 <= l < i ==> a[l] == a[..i][l] == b[..i][l] == b[l];
      SameNext(a, b, m, fn, i);
    }
  }

  /** After a common beginning, an entry's bucket is not found among the earlier ones. */
  lemma NotAmongEarlier(a: Answer, b: Answer, i: nat, j: nat)
    requires i < |a| && i <= |b| && j < |b| && b[j].0 == a[i].0
    requires forall k, l :: 0 <= k < l < |a| ==> a[k].0 < a[l].0
    requires forall l :: 0 <= l < i ==> a[l] == b[l]
    ensures i <= j
  {}

  /** The partials determine the answer list. */
  lemma AnswersAgree(a: Answer, b: Answer, m: map<Option<int>, Agg>, fn: Func)
    requires NonemptyPartials(m) && IsAnswer(a, m, fn) && IsAnswer(b, m, fn)
    ensures a == b
  {
    AnswersFollow(a, b, m, fn);
    AnswersFollow(b, a, m, fn);
    FollowsAll(b, a, |a|);
    FollowsAll(a, b, |b|);
    assert a[..|a|] == a && b[..|b|] == b;
  }

  lemma ReferenceNonempty(S: set<Row>, b: Option<int>)
    requires IsBucket(b)
    ensures NonemptyPartials(Reference(S, b))
  {
    forall j | j in Reference(S, b)
      ensures Reference(S, b)[j].Stats? && Reference(S, b)[j].count >= 1
    {
      GroupByAt(S, StartKey(b), RowAgg(), j);
      FoldNonempty(Group(S, StartKey(b), j), RowAgg());
    }
  }

  /** `out` is what a limit leaves of `xs`: the first `limit` elements, or all but the last
      `-limit` for a negative limit. */
  ghost predicate TakesFirst<T>(out: seq<T>, xs: seq<T>, limit: Option<int>) {
    && out <= xs
    && |out| == (if limit.None? then |xs|
                 else if limit.value >= 0 then Least(limit.value, |xs|)
                 else if |xs| + limit.value > 0 then |xs| + limit.value
                 else 0)
  }

  /** Python slicing `xs[:limit]`. */
  function Slice<T>(xs: seq<T>, limit: Option<int>): (out: seq<T>)
    ensures TakesFirst(out, xs, limit)
  {
    if limit.None? || limit.value >= |xs| then xs
    else if limit.value >= 0 then xs[..limit.value]
    else if |xs| + limit.value <= 0 then []
    else xs[..|xs| + limit.value]
  }

  lemma SomeMember<T>(S: set<T>) returns (x: T)
    requires S != {}
    ensures x in S
  {
    x :| x in S;
  }

  method LeastInt(S: set<int>) returns (least: int)
    requires S != {}
    ensures least in S && forall x :: x in S ==> least <= x
  {
    ghost var w := SomeMember(S);
    least :| least in S;
    var rest := S - {least};
    while rest != {}
      invariant rest <= S && least in S
      invariant forall x :: x in S ==> x in rest || least <= x
    {
      w := SomeMember(rest);
      var x :| x in rest;
      rest := rest - {x};
      if x < least {
        least := x;
      }
    }
  }

  predicate Increasing(xs: seq<int>) {
    forall i, j :: 0 <= i < j < |xs| ==> xs[i] < xs[j]
  }

  method SortedInts(S: set<int>) returns (xs: seq<int>)
    ensures Increasing(xs)
    ensures forall x :: x in xs <==> x in S
  {
    xs := [];
    var todo := S;
    while todo != {}
      invariant todo <= S && Increasing(xs)
      invariant forall x :: x in xs <==> x in S && x !in todo
      invariant forall i, y :: 0 <= i < |xs| && y in todo ==> xs[i] < y
    {
      var least := LeastInt(todo);
      assert forall x :: x in xs + [least] <==> x in xs || x == least;
      xs, todo := xs + [least], todo - {least};
    }
  }

  // ---------------------------------------------------------------------
  // Grouping a list of samples
  // ---------------------------------------------------------------------

  /** The partial of each key over a list of samples, in list order. */
  ghost function SeqGroup<J(!new)>(rows: seq<Row>, key: Row -> J): map<J, Agg> {
    map j | j in (set r | r in rows :: key(r)) :: FoldList(WritePath.Filter(rows, key, j))
  }

  lemma {:induction false} FilterEmpty<J(!new)>(rows: seq<Row>, key: Row -> J, j: J)
    requires forall r :: r in rows ==> key(r) != j
    ensures WritePath.Filter(rows, key, j) == []
  {
    WritePath.FilterRows(rows, key, j);
    if WritePath.Filter(rows, key, j) != [] {
      assert WritePath.Filter(rows, key, j)[0] in WritePath.Filter(rows, key, j);
    }
  }

  lemma SeqGroupAt<J(!new)>(rows: seq<Row>, key: Row -> J, j: J)
    ensures At(SeqGroup(rows, key), j) == FoldList(WritePath.Filter(rows, key, j))
  {
    if j !in SeqGroup(rows, key) {
      FilterEmpty(rows, key, j);
    }
  }

  /** One more sample merges one partial into one group. */
  lemma SeqGroupLast<J(!new)>(rows: seq<Row>, n: nat, key: Row -> J)
    requires n < |rows|
    ensures var m := SeqGroup(rows[..n], key);
            SeqGroup(rows[..n + 1], key) == m[key(rows[n]) := Merge(At(m, key(rows[n])), One(rows[n].value))]
  {
    var m, k := SeqGroup(rows[..n], key), key(rows[n]);
    assert forall r :: r in rows[..n + 1] <==> r in rows[..n] || r == rows[n];
    var big, grown := SeqGroup(rows[..n + 1], key), m[k := Merge(At(m, k), One(rows[n].value))];
    assert big.Keys == grown.Keys;
    forall j | j in big
      ensures big[j] == grown[j]
    {
      WritePath.FilterLast(rows, n, key, j);
      SeqGroupAt(rows[..n], key, j);
      var f := WritePath.Filter(rows[..n], key, j);
      if j == k {
        assert (f + [rows[n]])[..|f|] == f;
      } else {
        assert f + [] == f;
      }
    }
  }

  /** For a listing of a set, grouping the list is grouping the set. */
  lemma SeqGroupIsGroupBy<J(!new)>(rows: seq<Row>, S: set<Row>, key: Row -> J)
    requires Lists(rows, S)
    ensures SeqGroup(rows, key) == GroupBy(S, key, RowAgg())
  {
    assert (set r | r in rows :: key(r)) == Image(S, key);
    forall j | j in Image(S, key)
      ensures FoldList(WritePath.Filter(rows, key, j)) == Fold(Group(S, key, j), RowAgg())
    {
      FilterLists(rows, S, key, j);
      FoldListIsFold(WritePath.Filter(rows, key, j), Group(S, key, j));
    }
  }

  /** The dict loop of `_bucket_partials`: one running partial per bucket index. */
  method GroupSamples<J(==, !new)>(rows: seq<Row>, key: Row -> J) returns (m: map<J, Agg>)
    ensures m == SeqGroup(rows, key)
  {
    m := map[];
    for i := 0 to |rows|
      invariant m == SeqGroup(rows[..i], key)
    {
      SeqGroupLast(rows, i, key);
      var k := key(rows[i]);
      m := m[k := if k in m then Merge(m[k], One(rows[i].value)) else One(rows[i].value)];
    }
    assert rows[..|rows|] == rows;
  }

  // ---------------------------------------------------------------------
  // From bucket indexes to bucket starts
  // ---------------------------------------------------------------------

  /** The same partials under `index * bucket` instead of the index. */
  ghost function Rekeyed(m: map<int, Agg>, b: int): map<Option<int>, Agg>
    requires b > 0
  {
    map k | k in (set i | i in m :: Some(i * b)) && k.Some? && k.value / b in m :: m[k.value / b]
  }

  lemma BucketIndex(i: int, b: int)
    requires b > 0
    ensures i * b / b == i
  {
    DivideProduct(i, 0, b);
  }

  lemma RekeyedAt(m: map<int, Agg>, b: int, i: int)
    requires b > 0
    ensures Some(i * b) in Rekeyed(m, b) <==> i in m
    ensures i in m ==> Rekeyed(m, b)[Some(i * b)] == m[i]
  {
    BucketIndex(i, b);
    if i in m {
      assert Some(i * b) in (set i | i in m :: Some(i * b));
    }
  }

  lemma RekeyedKeys(m: map<int, Agg>, b: int, k: Option<int>)
    requires b > 0 && k in Rekeyed(m, b)
    ensures k.Some? && k.value / b in m && k.value == k.value / b * b && Rekeyed(m, b)[k] == m[k.value / b]
  {
    var i :| i in m && k == Some(i * b);
    BucketIndex(i, b);
  }

  lemma RekeyReference(S: set<Row>, b: int)
    requires b > 0
    ensures Rekeyed(GroupBy(S, IndexKey(b), RowAgg()), b) == Reference(S, Some(b))
  {
    var m, ref := GroupBy(S, IndexKey(b), RowAgg()), Reference(S, Some(b));
    forall i
      ensures Group(S, IndexKey(b), i) == Group(S, StartKey(Some(b)), Some(i * b))
    {
      forall r | r in S
        ensures r.ts / b == i <==> r.ts / b * b == i * b
      {
        BucketIndex(i, b);
        BucketIndex(r.ts / b, b);
      }
    }
    forall k | k in ref
      ensures k in Rekeyed(m, b)
    {
      var r :| r in S && StartKey(Some(b))(r) == k;
      assert IndexKey(b)(r) in Image(S, IndexKey(b));
      RekeyedAt(m, b, r.ts / b);
    }
    forall k | k in Rekeyed(m, b)
      ensures k in ref && ref[k] == Rekeyed(m, b)[k]
    {
      RekeyedKeys(m, b, k);
      var i := k.value / b;
      var r :| r in S && IndexKey(b)(r) == i;
      assert StartKey(Some(b))(r) == k;
      assert k in Image(S, StartKey(Some(b)));
    }
  }

  // ---------------------------------------------------------------------
  // Merging partials
  // ---------------------------------------------------------------------

  /** A partial as the code passes it around: bucket start (None for the whole window)
      and aggregates. */
  type Part = (Option<int>, Agg)

  ghost predicate PartsOf(parts: seq<Part>, m: map<Option<int>, Agg>) {
    && (forall i, j :: 0 <= i < j < |parts| ==> parts[i].0 != parts[j].0)
    && (forall i :: 0 <= i < |parts| ==> parts[i].0 in m && m[parts[i].0] == parts[i].1)
    && (forall k :: k in m ==> exists i :: 0 <= i < |parts| && parts[i].0 == k)
  }

  function MergePart(m: map<Option<int>, Agg>, p: Part): map<Option<int>, Agg> {
    m[p.0 := Merge(At(m, p.0), p.1)]
  }

  function MergeParts(m: map<Option<int>, Agg>, parts: seq<Part>): map<Option<int>, Agg> {
    if parts == [] then m
    else
      var n := |parts| - 1;
      MergePart(MergeParts(m, parts[..n]), parts[n])
  }

  /** `_merge_partials` over groups taken in order. */
  function MergeGroups(groups: seq<seq<Part>>): map<Option<int>, Agg> {
    if groups == [] then map[]
    else
      var n := |groups| - 1;
      MergeParts(MergeGroups(groups[..n]), groups[n])
  }

  method MergePartials(groups: seq<seq<Part>>) returns (m: map<Option<int>, Agg>)
    ensures m == MergeGroups(groups)
  {
    m := map[];
    for g := 0 to |groups|
      invariant m == MergeGroups(groups[..g])
    {
      assert groups[..g + 1][..g] == groups[..g];
      ghost var before := m;
      for i := 0 to |groups[g]|
        invariant m == MergeParts(before, groups[g][..i])
      {
        assert groups[g][..i + 1][..i] == groups[g][..i];
        var p := groups[g][i];
        m := m[p.0 := if p.0 in m then Merge(m[p.0], p.1) else p.1];
      }
      assert groups[g][..|groups[g]|] == groups[g];
    }
    assert groups[..|groups|] == groups;
  }

  lemma MergeNewKey(m: map<Option<int>, Agg>, n: map<Option<int>, Agg>, p: Part)
    requires p.0 !in n
    ensures MergePart(MergeMaps(m, n), p) == MergeMaps(m, n[p.0 := p.1])
  {
    var left, right := MergePart(MergeMaps(m, n), p), MergeMaps(m, n[p.0 := p.1]);
    assert left.Keys == right.Keys;
    forall j | j in right
      ensures left[j] == right[j]
    {
      MergeCommutes(At(m, j), Empty);
    }
  }

  lemma PartsOfFront(parts: seq<Part>, n: map<Option<int>, Agg>)
    requires PartsOf(parts, n) && parts != []
    ensures var l := |parts| - 1; PartsOf(parts[..l], n - {parts[l].0})
    ensures var l := |parts| - 1; (n - {parts[l].0})[parts[l].0 := parts[l].1] == n
  {
    var l := |parts| - 1;
    forall j | j in n - {parts[l].0}
      ensures exists i :: 0 <= i < |parts[..l]| && parts[..l][i].0 == j
    {
      var i :| 0 <= i < |parts| && parts[i].0 == j;
      assert parts[..l][i].0 == j;
    }
  }

  /** Merging a listing of a map's entries merges the maps. */
  lemma {:induction false} MergePartsIsMerge(m: map<Option<int>, Agg>, parts: seq<Part>, n: map<Option<int>, Agg>)
    requires PartsOf(parts, n)
    ensures MergeParts(m, parts) == MergeMaps(m, n)
  {
    if parts == [] {
      assert n == map[];
      assert MergeMaps(m, n) == m by {
        forall j | j in m
          ensures Merge(m[j], Empty) == m[j]
        {
          MergeCommutes(m[j], Empty);
        }
      }
    } else {
      var l := |parts| - 1;
      PartsOfFront(parts, n);
      MergePartsIsMerge(m, parts[..l], n - {parts[l].0});
      MergeNewKey(m, n - {parts[l].0}, parts[l]);
    }
  }
}
