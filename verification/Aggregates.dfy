/** The commutative monoid of [count, sum, min, max] partials, folds over finite sets,
    and GROUP BY as a map of folds.

    Every answer path of the store combines such partials; the lemmas here are what
    makes the paths comparable. */
module Aggregates {
  datatype Agg = Empty | Stats(count: nat, sum: real, lo: real, hi: real)

  function Min(x: real, y: real): real {
    if y < x then y else x
  }

  function Max(x: real, y: real): real {
    if y > x then y else x
  }

  function One(v: real): Agg {
    Stats(1, v, v, v)
  }

  function Merge(a: Agg, b: Agg): Agg {
    match (a, b)
    case (Empty, _) => b
    case (_, Empty) => a
    case (Stats(n, s, l, h), Stats(n', s', l', h')) => Stats(n + n', s + s', Min(l, l'), Max(h, h'))
  }

  /** How many samples a partial stands for. */
  function Counted(a: Agg): nat {
    if a.Empty? then 0 else a.count
  }

  lemma MergeCommutes(a: Agg, b: Agg)
    ensures Merge(a, b) == Merge(b, a)
  {}

  lemma MergeAssociates(a: Agg, b: Agg, c: Agg)
    ensures Merge(Merge(a, b), c) == Merge(a, Merge(b, c))
  {}

  // ---------------------------------------------------------------------
  // Folding a finite set
  // ---------------------------------------------------------------------

  ghost function Fold<K(!new)>(S: set<K>, f: K -> Agg): Agg {
    if S == {} then Empty
    else
      var k :| k in S;
      Merge(f(k), Fold(S - {k}, f))
  }

  /** The fold does not depend on the order in which elements are taken. */
  lemma {:induction false} FoldTake<K(!new)>(S: set<K>, f: K -> Agg, k: K)
    requires k in S
    ensures Fold(S, f) == Merge(f(k), Fold(S - {k}, f))
    decreases |S|
  {
    var j :| j in S && Fold(S, f) == Merge(f(j), Fold(S - {j}, f));
    if j != k {
      FoldTake(S - {j}, f, k);
      FoldTake(S - {k}, f, j);
      assert S - {j} - {k} == S - {k} - {j};
      var rest := Fold(S - {j} - {k}, f);
      MergeAssociates(f(j), f(k), rest);
      MergeAssociates(f(k), f(j), rest);
      MergeCommutes(f(j), f(k));
    }
  }

  lemma FoldAdd<K(!new)>(S: set<K>, f: K -> Agg, k: K)
    requires k !in S
    ensures Fold(S + {k}, f) == Merge(Fold(S, f), f(k))
  {
    FoldTake(S + {k}, f, k);
    assert S + {k} - {k} == S;
    MergeCommutes(f(k), Fold(S, f));
  }

  lemma {:induction false} FoldUnion<K(!new)>(S: set<K>, T: set<K>, f: K -> Agg)
    requires S !! T
    ensures Fold(S + T, f) == Merge(Fold(S, f), Fold(T, f))
    decreases |S|
  {
    if S == {} {
      assert S + T == T;
    } else {
      var k :| k in S;
      FoldTake(S, f, k);
      FoldTake(S + T, f, k);
      assert S + T - {k} == (S - {k}) + T;
      FoldUnion(S - {k}, T, f);
      MergeAssociates(f(k), Fold(S - {k}, f), Fold(T, f));
    }
  }

  lemma {:induction false} FoldSame<K(!new)>(S: set<K>, f: K -> Agg, g: K -> Agg)
    requires forall k :: k in S ==> f(k) == g(k)
    ensures Fold(S, f) == Fold(S, g)
    decreases |S|
  {
    if S != {} {
      var k :| k in S;
      FoldTake(S, f, k);
      FoldTake(S, g, k);
      FoldSame(S - {k}, f, g);
    }
  }

  /** Folding partials counts what it folds: a fold of nonempty partials is nonempty. */
  lemma {:induction false} FoldNonempty<K(!new)>(S: set<K>, f: K -> Agg)
    requires forall k :: k in S ==> f(k).Stats? && f(k).count >= 1
    ensures Fold(S, f).Empty? <==> S == {}
    ensures S != {} ==> Fold(S, f).count >= |S|
    decreases |S|
  {
    if S != {} {
      var k :| k in S;
      FoldTake(S, f, k);
      FoldNonempty(S - {k}, f);
    }
  }

  /** Fewer nonempty partials count fewer samples. */
  lemma FoldCountsLess<K(!new)>(S: set<K>, T: set<K>, f: K -> Agg)
    requires S < T && forall k :: k in T ==> f(k).Stats? && f(k).count >= 1
    ensures Counted(Fold(S, f)) < Counted(Fold(T, f))
  {
    var rest := T - S;
    assert S + rest == T && rest != {};
    assert |rest| > 0;
    FoldUnion(S, rest, f);
    FoldNonempty(rest, f);
  }

  // ---------------------------------------------------------------------
  // GROUP BY
  // ---------------------------------------------------------------------

  ghost function Image<K(!new), J(!new)>(S: set<K>, key: K -> J): set<J> {
    set k | k in S :: key(k)
  }

  ghost function Group<K(!new), J(!new)>(S: set<K>, key: K -> J, j: J): set<K> {
    set k | k in S && key(k) == j
  }

  /** One partial per key value that occurs. */
  ghost function GroupBy<K(!new), J(!new)>(S: set<K>, key: K -> J, f: K -> Agg): map<J, Agg> {
    map j | j in Image(S, key) :: Fold(Group(S, key, j), f)
  }

  function At<J>(m: map<J, Agg>, j: J): Agg {
    if j in m then m[j] else Empty
  }

  function MergeMaps<J>(m: map<J, Agg>, n: map<J, Agg>): map<J, Agg> {
    map j | j in m.Keys + n.Keys :: Merge(At(m, j), At(n, j))
  }

  lemma MergeMapsCount<J>(m: map<J, Agg>, n: map<J, Agg>, j: J)
    ensures Counted(At(MergeMaps(m, n), j)) == Counted(At(m, j)) + Counted(At(n, j))
  {}

  /** A key has a partial exactly if some element has the key. */
  lemma GroupByAt<K(!new), J(!new)>(S: set<K>, key: K -> J, f: K -> Agg, j: J)
    ensures At(GroupBy(S, key, f), j) == Fold(Group(S, key, j), f)
    ensures j in GroupBy(S, key, f) <==> Group(S, key, j) != {}
  {
    if j in Image(S, key) {
      var k :| k in S && key(k) == j;
      assert k in Group(S, key, j);
    } else {
      assert Group(S, key, j) == {};
    }
  }

  /** Grouping a disjoint union is merging the two groupings key by key. */
  lemma GroupByUnion<K(!new), J(!new)>(S: set<K>, T: set<K>, key: K -> J, f: K -> Agg)
    requires S !! T
    ensures GroupBy(S + T, key, f) == MergeMaps(GroupBy(S, key, f), GroupBy(T, key, f))
  {
    assert Image(S + T, key) == Image(S, key) + Image(T, key);
    forall j | j in Image(S + T, key)
      ensures Fold(Group(S + T, key, j), f) == Merge(At(GroupBy(S, key, f), j), At(GroupBy(T, key, f), j))
    {
      GroupByAt(S, key, f, j);
      GroupByAt(T, key, f, j);
      assert Group(S + T, key, j) == Group(S, key, j) + Group(T, key, j);
      FoldUnion(Group(S, key, j), Group(T, key, j), f);
    }
  }

  /** Adding one element merges one partial into one group. */
  lemma GroupByAdd<K(!new), J(!new)>(S: set<K>, key: K -> J, f: K -> Agg, k: K)
    requires k !in S
    ensures GroupBy(S + {k}, key, f) == GroupBy(S, key, f)[key(k) := Merge(At(GroupBy(S, key, f), key(k)), f(k))]
  {
    var m, n := GroupBy(S, key, f), GroupBy(S + {k}, key, f);
    assert Image(S + {k}, key) == Image(S, key) + {key(k)};
    forall j | j in Image(S + {k}, key)
      ensures n[j] == (if j == key(k) then Merge(At(m, j), f(k)) else m[j])
    {
      if j == key(k) {
        GroupByAt(S, key, f, j);
        assert Group(S + {k}, key, j) == Group(S, key, j) + {k};
        FoldAdd(Group(S, key, j), f, k);
      } else {
        assert Group(S + {k}, key, j) == Group(S, key, j);
      }
    }
  }

  /** Aggregating in two stages (rows into groups, groups into a total) is
      aggregating in one. */
  lemma {:induction false} FoldRegroup<K(!new), J(!new)>(S: set<K>, key: K -> J, f: K -> Agg, T: set<J>, g: J -> Agg)
    requires forall k :: k in S ==> key(k) in T
    requires forall j :: j in T ==> g(j) == Fold(Group(S, key, j), f)
    ensures Fold(S, f) == Fold(T, g)
    decreases |T|
  {
    if T == {} {
      assert S == {};
    } else {
      var j :| j in T;
      var rest, others := S - Group(S, key, j), T - {j};
      forall i | i in others
        ensures g(i) == Fold(Group(rest, key, i), f)
      {
        RestGroups(S, key, j, i);
      }
      assert forall k :: k in rest ==> key(k) in others;
      FoldRegroup(rest, key, f, others, g);
      FoldApart(S, key, f, j);
      FoldTake(T, g, j);
    }
  }

  lemma FoldApart<K(!new), J(!new)>(S: set<K>, key: K -> J, f: K -> Agg, j: J)
    ensures Fold(S, f) == Merge(Fold(Group(S, key, j), f), Fold(S - Group(S, key, j), f))
  {
    var here := Group(S, key, j);
    assert here + (S - here) == S;
    FoldUnion(here, S - here, f);
  }

  lemma RestGroups<K(!new), J(!new)>(S: set<K>, key: K -> J, j: J, i: J)
    requires i != j
    ensures Group(S - Group(S, key, j), key, i) == Group(S, key, i)
  {}

  /** Keys that agree on the set group it the same way. */
  lemma GroupBySameKey<K(!new), J(!new)>(S: set<K>, key: K -> J, key': K -> J, f: K -> Agg)
    requires forall k :: k in S ==> key(k) == key'(k)
    ensures GroupBy(S, key, f) == GroupBy(S, key', f)
  {
    assert Image(S, key) == Image(S, key');
    forall j
      ensures Group(S, key, j) == Group(S, key', j)
    {}
  }
}
