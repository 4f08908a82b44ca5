/** Interpolated percentiles over real values. */
module Percentiles {
  predicate Ascending(s: seq<real>) {
    forall i, j :: 0 <= i <= j < |s| ==> s[i] <= s[j]
  }

  function Insert(s: seq<real>, x: real): seq<real> {
    if s == [] || s[|s| - 1] <= x then s + [x] else Insert(s[..|s| - 1], x) + [s[|s| - 1]]
  }

  function Sort(s: seq<real>): seq<real> {
    if s == [] then [] else Insert(Sort(s[..|s| - 1]), s[|s| - 1])
  }

  lemma {:induction false} InsertKeeps(s: seq<real>, x: real)
    ensures multiset(Insert(s, x)) == multiset(s) + multiset{x} && |Insert(s, x)| == |s| + 1
  {
    if s != [] && s[|s| - 1] > x {
      InsertKeeps(s[..|s| - 1], x);
      assert s == s[..|s| - 1] + [s[|s| - 1]];
    }
  }

  lemma {:induction false} InsertSorted(s: seq<real>, x: real)
    requires Ascending(s)
    ensures Ascending(Insert(s, x))
  {
    if s != [] && s[|s| - 1] > x {
      var n := |s| - 1;
      var r := Insert(s[..n], x);
      InsertSorted(s[..n], x);
      InsertKeeps(s[..n], x);
      forall i | 0 <= i < |r|
        ensures r[i] <= s[n]
      {
        assert r[i] in multiset(r);
        assert r[i] == x || r[i] in s[..n];
      }
    }
  }

  lemma {:induction false} SortKeeps(s: seq<real>)
    ensures multiset(Sort(s)) == multiset(s) && |Sort(s)| == |s|
  {
    if s != [] {
      var n := |s| - 1;
      SortKeeps(s[..n]);
      InsertKeeps(Sort(s[..n]), s[n]);
      assert s == s[..n] + [s[n]];
    }
  }

  lemma {:induction false} SortSorted(s: seq<real>)
    ensures Ascending(Sort(s))
  {
    if s != [] {
      var n := |s| - 1;
      SortSorted(s[..n]);
      InsertSorted(Sort(s[..n]), s[n]);
    }
  }

  lemma {:induction false} SortCorrect(s: seq<real>)
    ensures Ascending(Sort(s)) && multiset(Sort(s)) == multiset(s) && |Sort(s)| == |s|
  {
    SortKeeps(s);
    SortSorted(s);
  }

  lemma WithoutLast(a: seq<real>)
    requires a != []
    ensures multiset(a[..|a| - 1]) == multiset(a) - multiset{a[|a| - 1]}
  {
    assert a == a[..|a| - 1] + [a[|a| - 1]];
  }

  lemma LastIsGreatest(a: seq<real>, b: seq<real>)
    requires Ascending(a) && multiset(a) == multiset(b) && a != [] && b != []
    ensures b[|b| - 1] <= a[|a| - 1]
  {
    assert b[|b| - 1] in multiset(a);
  }

  /** A multiset has one ascending listing. */
  lemma {:induction false} SortedUnique(a: seq<real>, b: seq<real>)
    requires Ascending(a) && Ascending(b) && multiset(a) == multiset(b)
    ensures a == b
  {
    assert |a| == |multiset(a)| == |multiset(b)| == |b|;
    if a != [] {
      var n := |a| - 1;
      LastIsGreatest(a, b);
      LastIsGreatest(b, a);
      WithoutLast(a);
      WithoutLast(b);
      SortedUnique(a[..n], b[..n]);
      assert a == a[..n] + [a[n]] && b == b[..n] + [b[n]];
    }
  }

  lemma SortIgnoresOrder(a: seq<real>, b: seq<real>)
    requires multiset(a) == multiset(b)
    ensures Sort(a) == Sort(b)
  {
    SortCorrect(a);
    SortCorrect(b);
    SortedUnique(Sort(a), Sort(b));
  }

  lemma ProductMonotone(m: real, a: real, b: real)
    requires m >= 0.0 && a <= b
    ensures m * a <= m * b
  {
    assert m * (b - a) >= 0.0;
    assert m * (b - a) == m * b - m * a;
  }

  /** A rank between the first and the last of `n` positions. */
  predicate IsRank(n: nat, rank: real) {
    0.0 <= rank && rank.Floor < n && (rank.Floor as real == rank || rank.Floor + 1 < n)
  }

  lemma InRange(n: nat, rank: real)
    requires n >= 1 && 0.0 <= rank <= (n - 1) as real
    ensures IsRank(n, rank)
  {
    assert rank.Floor as real <= rank;
    if rank.Floor + 1 >= n {
      assert rank.Floor as real >= (n - 1) as real;
    }
  }

  lemma ProductInRange(m: real, q: real)
    requires m >= 0.0 && 0.0 <= q <= 1.0
    ensures 0.0 <= m * q <= m
  {
    ProductMonotone(m, 0.0, q);
    ProductMonotone(m, q, 1.0);
  }

  function Scaled(m: real, q: real): real {
    m * q
  }

  /** The fractional rank of a percentile. */
  function Rank(n: nat, q: real): (rank: real)
    requires n >= 1 && 0.0 <= q <= 1.0
    ensures IsRank(n, rank)
  {
    var rank := Scaled((n - 1) as real, q);
    ProductInRange((n - 1) as real, q);
    InRange(n, rank);
    rank
  }

  lemma ScaledMonotone(m: real, p: real, q: real)
    requires m >= 0.0 && p <= q
    ensures Scaled(m, p) <= Scaled(m, q)
  {
    ProductMonotone(m, p, q);
  }

  lemma RankMonotone(n: nat, p: real, q: real)
    requires n >= 1 && 0.0 <= p <= q <= 1.0
    ensures Rank(n, p) <= Rank(n, q)
  {
    ScaledMonotone((n - 1) as real, p, q);
  }

  /** The value at a fractional rank, interpolated between the neighbours. */
  function AtRank(s: seq<real>, rank: real): real
    requires IsRank(|s|, rank)
  {
    var lower := rank.Floor;
    if lower as real == rank then s[lower]
    else
      var upper := lower + 1;
      s[lower] * (upper as real - rank) + s[upper] * (rank - lower as real)
  }

  /** `_percentile` of a nonempty list. */
  function Percentile(values: seq<real>, q: real): real
    requires values != [] && 0.0 <= q <= 1.0
  {
    SortCorrect(values);
    if |values| == 1 then values[0] else AtRank(Sort(values), Rank(|values|, q))
  }

  /** `statistics.median` of a nonempty list. */
  function Median(values: seq<real>): real
    requires values != []
  {
    SortCorrect(values);
    var s, n := Sort(values), |values|;
    if n % 2 == 1 then s[n / 2] else (s[n / 2 - 1] + s[n / 2]) / 2.0
  }

  lemma Between(a: real, b: real, f: real, g: real)
    requires a <= b && f >= 0.0 && g >= 0.0 && f + g == 1.0
    ensures a <= a * g + b * f <= b
  {
    ProductMonotone(b - a, 0.0, f);
    ProductMonotone(b - a, 0.0, g);
    assert (b - a) * f == b * f - a * f;
    assert (b - a) * g == b * g - a * g;
    assert a * g == a * (1.0 - f) == a - a * f;
    assert b * f == b * (1.0 - g) == b - b * g;
  }

  lemma MixMonotone(a: real, b: real, f: real, g: real)
    requires a <= b && f <= g
    ensures a * (1.0 - f) + b * f <= a * (1.0 - g) + b * g
  {
    ProductMonotone(g - f, a, b);
    assert (g - f) * b == b * g - b * f;
    assert (g - f) * a == a * (1.0 - f) - a * (1.0 - g);
  }

  /** An interpolated value lies between its neighbours. */
  lemma AtRankBetween(s: seq<real>, rank: real)
    requires Ascending(s) && IsRank(|s|, rank)
    ensures s[rank.Floor] <= AtRank(s, rank)
    ensures AtRank(s, rank) <= if rank.Floor as real == rank then s[rank.Floor] else s[rank.Floor + 1]
  {
    var l := rank.Floor;
    if l as real != rank {
      var f := rank - l as real;
      Between(s[l], s[l + 1], f, (l + 1) as real - rank);
    }
  }

  /** Percentiles grow with the rank. */
  lemma AtRankMonotone(s: seq<real>, x: real, y: real)
    requires Ascending(s) && IsRank(|s|, x) && IsRank(|s|, y) && x <= y
    ensures AtRank(s, x) <= AtRank(s, y)
  {
    AtRankBetween(s, x);
    AtRankBetween(s, y);
    if x.Floor == y.Floor {
      var l := x.Floor;
      if y != l as real {
        var a, b := s[l], s[l + 1];
        var f, g := x - l as real, y - l as real;
        MixMonotone(a, b, f, g);
        assert (l + 1) as real - x == 1.0 - f && (l + 1) as real - y == 1.0 - g;
        assert AtRank(s, y) == a * (1.0 - g) + b * g;
      }
    }
  }

  lemma PercentileMonotone(values: seq<real>, p: real, q: real)
    requires values != [] && 0.0 <= p <= q <= 1.0
    ensures Percentile(values, p) <= Percentile(values, q)
  {
    SortCorrect(values);
    RankMonotone(|values|, p, q);
    AtRankMonotone(Sort(values), Rank(|values|, p), Rank(|values|, q));
  }

  lemma HalfRank(n: nat)
    requires n >= 1
    ensures Rank(n, 0.5) == ((n - 1) / 2) as real + if n % 2 == 1 then 0.0 else 0.5
  {
    assert n - 1 == 2 * ((n - 1) / 2) + (n - 1) % 2;
  }

  lemma SortSingle(values: seq<real>)
    requires |values| == 1
    ensures Sort(values) == values
  {
    assert values[..0] == [] && Sort([]) == [];
  }

  /** The median is the interpolated 0.5 percentile. */
  lemma MedianIsHalf(values: seq<real>)
    requires values != []
    ensures Median(values) == Percentile(values, 0.5)
  {
    SortCorrect(values);
    HalfRank(|values|);
    if |values| == 1 {
      SortSingle(values);
    } else {
      MedianAtRank(Sort(values), Rank(|values|, 0.5));
    }
  }

  lemma MedianAtRank(s: seq<real>, rank: real)
    requires |s| > 1 && IsRank(|s|, rank)
    requires rank == ((|s| - 1) / 2) as real + if |s| % 2 == 1 then 0.0 else 0.5
    ensures AtRank(s, rank) == if |s| % 2 == 1 then s[|s| / 2] else (s[|s| / 2 - 1] + s[|s| / 2]) / 2.0
  {
    var k := (|s| - 1) / 2;
    assert rank.Floor == k;
    if |s| % 2 == 1 {
      assert k == |s| / 2;
    } else {
      assert k == |s| / 2 - 1;
    }
  }

  /** The ends of the range: the least and the greatest value. */
  lemma PercentileEnds(values: seq<real>)
    requires values != []
    ensures forall v :: v in values ==> Percentile(values, 0.0) <= v <= Percentile(values, 1.0)
    ensures Percentile(values, 0.0) in values && Percentile(values, 1.0) in values
  {
    SortCorrect(values);
    var n, s := |values|, Sort(values);
    if n == 1 {
      assert values == [values[0]];
    } else {
      assert Rank(n, 0.0) == 0.0 && Rank(n, 1.0) == (n - 1) as real;
      assert s[0] in multiset(values) && s[n - 1] in multiset(values);
      forall v | v in values
        ensures s[0] <= v <= s[n - 1]
      {
        assert v in multiset(s);
      }
    }
  }

  lemma PermutedPercentile(values: seq<real>, permuted: seq<real>, q: real)
    requires values != [] && permuted != [] && multiset(permuted) == multiset(values) && 0.0 <= q <= 1.0
    ensures Percentile(values, q) == Percentile(permuted, q) && |values| == |permuted|
  {
    assert |multiset(values)| == |values| && |multiset(permuted)| == |permuted|;
    SortIgnoresOrder(values, permuted);
    if |values| == 1 {
      SortSingle(values);
      SortSingle(permuted);
    }
  }

  /** Over reals the reported order statistics are ordered, and none of them depends on the
      order in which the samples arrive. */
  lemma OrderStatistics(values: seq<real>, permuted: seq<real>)
    requires values != [] && multiset(permuted) == multiset(values)
    ensures permuted != []
    ensures Percentile(values, 0.0) <= Median(values) <= Percentile(values, 0.95)
            <= Percentile(values, 0.99) <= Percentile(values, 1.0)
    ensures forall q :: 0.0 <= q <= 1.0 ==> Percentile(values, q) == Percentile(permuted, q)
    ensures Median(values) == Median(permuted)
  {
    MedianIsHalf(values);
    PercentileMonotone(values, 0.0, 0.5);
    PercentileMonotone(values, 0.5, 0.95);
    PercentileMonotone(values, 0.95, 0.99);
    PercentileMonotone(values, 0.99, 1.0);
    assert |multiset(permuted)| == |permuted| && |multiset(values)| == |values|;
    forall q | 0.0 <= q <= 1.0
      ensures Percentile(values, q) == Percentile(permuted, q)
    {
      PermutedPercentile(values, permuted, q);
    }
    MedianIsHalf(permuted);
  }

  function Term(a: real, d: real, x: real): real {
    a + d * x
  }

  lemma TermMonotone(a: real, d: real, x: real, y: real)
    requires d >= 0.0 && x <= y
    ensures Term(a, d, x) <= Term(a, d, y)
  {
    ProductMonotone(d, x, y);
  }

  /** `n` values in equal steps. */
  function Progression(a: real, d: real, n: nat): seq<real> {
    seq(n, i => Term(a, d, i as real))
  }

  lemma ProgressionAscends(a: real, d: real, n: nat)
    requires d >= 0.0
    ensures Ascending(Progression(a, d, n))
  {
    var s := Progression(a, d, n);
    forall i, j | 0 <= i <= j < n
      ensures s[i] <= s[j]
    {
      assert i as real <= j as real;
      TermMonotone(a, d, i as real, j as real);
    }
  }

  /** The mix of two neighbours of a progression, with weights that sum to one. */
  lemma MixOfSteps(a: real, d: real, l: real, u: real, rank: real)
    requires u == l + 1.0
    ensures (a + d * l) * (u - rank) + (a + d * u) * (rank - l) == a + d * rank
  {
    var f := rank - l;
    assert u - rank == 1.0 - f && a + d * u == (a + d * l) + d;
    var low := a + d * l;
    assert low * (1.0 - f) == low - low * f;
    assert (low + d) * f == low * f + d * f;
    assert d * rank == d * l + d * f;
  }

  lemma AtRankOfProgression(a: real, d: real, n: nat, rank: real)
    requires IsRank(n, rank)
    ensures AtRank(Progression(a, d, n), rank) == a + d * rank
  {
    var l := rank.Floor;
    if l as real != rank {
      assert (l + 1) as real == l as real + 1.0;
      MixOfSteps(a, d, l as real, (l + 1) as real, rank);
    }
  }

  lemma SortOfProgression(a: real, d: real, n: nat)
    requires d >= 0.0
    ensures Sort(Progression(a, d, n)) == Progression(a, d, n)
  {
    ProgressionAscends(a, d, n);
    SortCorrect(Progression(a, d, n));
    SortedUnique(Sort(Progression(a, d, n)), Progression(a, d, n));
  }

  lemma ProgressionAtRank(a: real, d: real, n: nat, q: real, rank: real)
    requires n >= 1 && d >= 0.0 && 0.0 <= q <= 1.0 && rank == Rank(n, q)
    ensures Percentile(Progression(a, d, n), q) == a + d * rank
  {
    var s := Progression(a, d, n);
    SortOfProgression(a, d, n);
    AtRankOfProgression(a, d, n, rank);
    if n == 1 {
      assert s == [a + d * 0.0];
      ZeroRank(q);
    }
  }

  lemma ZeroRank(q: real)
    requires 0.0 <= q <= 1.0
    ensures Rank(1, q) == 0.0
  {}

  lemma RankValue(n: nat, q: real)
    requires n >= 1 && 0.0 <= q <= 1.0
    ensures Rank(n, q) == (n - 1) as real * q
  {}

  /** Interpolation is linear: of values in equal steps, the percentile at `q` lies at the
      fraction `q` of the way from the first to the last. */
  lemma PercentileOfProgression(a: real, d: real, n: nat, q: real)
    requires n >= 1 && d >= 0.0 && 0.0 <= q <= 1.0
    ensures Percentile(Progression(a, d, n), q) == a + d * ((n - 1) as real * q)
  {
    RankValue(n, q);
    ProgressionAtRank(a, d, n, q, Rank(n, q));
  }
}
