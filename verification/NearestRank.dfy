/** What the counters of a histogram say about the durations that were counted in it. */
module NearestRank {
  import opened Words
  import opened Buckets
  import opened Hist

  ghost predicate Ascending(d: seq<U64>) {
    forall i, j :: 0 <= i < j < |d| ==> d[i] <= d[j]
  }

  /** How many of the durations fall in bucket `k`. */
  function Tally(d: seq<U64>, k: nat): nat {
    if |d| == 0 then 0 else Tally(d[..|d| - 1], k) + (if Bucket(d[|d| - 1]) == k then 1 else 0)
  }

  function Counts(d: seq<U64>): (c: seq<nat>)
    ensures |c| == HIST_SLOTS
  {
    seq(HIST_SLOTS, k requires 0 <= k => Tally(d, k))
  }

  /** How many of the durations fall below bucket `k`. */
  function Below(d: seq<U64>, k: nat): nat {
    if |d| == 0 then 0 else Below(d[..|d| - 1], k) + (if Bucket(d[|d| - 1]) < k then 1 else 0)
  }

  lemma {:induction false} BelowStep(d: seq<U64>, k: nat)
    ensures Below(d, k + 1) == Below(d, k) + Tally(d, k)
    ensures Below(d, 0) == 0 && Below(d, HIST_SLOTS) == |d|
  {
    if |d| > 0 {
      BelowStep(d[..|d| - 1], k);
    }
  }

  lemma {:induction false} CountsPrefix(d: seq<U64>, k: nat)
    requires k <= HIST_SLOTS
    ensures SumTo(Counts(d), k) == Below(d, k)
  {
    BelowStep(d, if k == 0 then 0 else k - 1);
    if k > 0 {
      CountsPrefix(d, k - 1);
      SumTake(Counts(d), k - 1);
    }
  }

  lemma CountsTotal(d: seq<U64>)
    ensures Sum(Counts(d)) == |d|
  {
    CountsPrefix(d, HIST_SLOTS);
    BelowStep(d, 0);
    assert Counts(d)[..HIST_SLOTS] == Counts(d);
  }

  /** In sorted order the durations below a bucket come first. */
  lemma {:induction false} SortedBelow(d: seq<U64>, k: nat, i: nat)
    requires Ascending(d) && i < |d|
    ensures Below(d, k) <= |d|
    ensures Bucket(d[i]) < k <==> i < Below(d, k)
  {
    var n := |d| - 1;
    BucketMonotone(d[i], d[n]);
    BelowAll(d, k);
    if i < n && Bucket(d[n]) >= k {
      SortedBelow(d[..n], k, i);
    } else if i == n && n > 0 {
      BelowAll(d[..n], k);
    }
  }

  lemma {:induction false} BelowAll(d: seq<U64>, k: nat)
    ensures Below(d, k) <= |d|
    ensures Ascending(d) && |d| > 0 && Bucket(d[|d| - 1]) < k ==> Below(d, k) == |d|
  {
    if |d| > 0 {
      BelowAll(d[..|d| - 1], k);
      if |d| > 1 && d[|d| - 2] <= d[|d| - 1] {
        BucketMonotone(d[|d| - 2], d[|d| - 1]);
      }
    }
  }

  lemma {:induction false} TallyDrop(d: seq<U64>, i: nat, k: nat)
    requires i < |d|
    ensures Tally(d, k) == Tally(d[..i] + d[i + 1..], k) + (if Bucket(d[i]) == k then 1 else 0)
  {
    var n := |d| - 1;
    if i == n {
      assert d[..i] + d[i + 1..] == d[..n];
    } else {
      TallyDrop(d[..n], i, k);
      var e := d[..i] + d[i + 1..];
      assert e[..|e| - 1] == d[..n][..i] + d[..n][i + 1..];
      assert e[|e| - 1] == d[n];
    }
  }

  lemma {:induction false} TallyPermutation(a: seq<U64>, b: seq<U64>, k: nat)
    requires multiset(a) == multiset(b)
    ensures Tally(a, k) == Tally(b, k)
  {
    if |a| == 0 {
      assert |multiset(b)| == 0;
    } else {
      var x := a[|a| - 1];
      assert x in multiset(a);
      var i := RemoveOne(b, x);
      assert a == a[..|a| - 1] + [x];
      TallyPermutation(a[..|a| - 1], b[..i] + b[i + 1..], k);
      TallyDrop(b, i, k);
    }
  }

  lemma CountsPermutation(a: seq<U64>, b: seq<U64>)
    requires multiset(a) == multiset(b)
    ensures Counts(a) == Counts(b)
  {
    forall k | 0 <= k < HIST_SLOTS
      ensures Tally(a, k) == Tally(b, k)
    {
      TallyPermutation(a, b, k);
    }
  }

  /** The position of the nearest-rank percentile in sorted order. */
  function RankIndex(n: nat, p: nat): (i: nat)
    requires n > 0 && 1 <= p <= 100
    ensures i < n && 100 * i < p * n <= 100 * (i + 1)
  {
    assert p * n <= 100 * n;
    (p * n + 99) / 100 - 1
  }

  /**
   End to end: from the durations `d`, counted one by one in their buckets, the percentile userspace
   computes is the printed bound of the ceil(p*n/100)-th smallest duration, whatever order they came in.
   */
  lemma PercentileIsNearestRank(d: seq<U64>, sorted: seq<U64>, p: U64)
    requires multiset(d) == multiset(sorted) && Ascending(sorted)
    requires |d| > 0 && 1 <= p <= 100 && p * |d| < TWO64
    ensures |d| == |sorted| < TWO64 && RankIndex(|d|, p) < |sorted|
    ensures PercentileOf(Counts(d), |d|, p) == UpperBoundNs(Bucket(sorted[RankIndex(|d|, p)]))
    ensures FirstReaching(Counts(d), Rank(p, |d|), 0) < HIST_SLOTS
  {
    hide FirstReaching, Rank, RankIndex, Counts, Bucket, UpperBoundNs;
    assert |multiset(d)| == |d| && |multiset(sorted)| == |sorted|;
    assert |d| < TWO64 by { ProductAtLeast(|d|, p); }
    CountsPermutation(d, sorted);
    FirstReachingIs(sorted, RankIndex(|d|, p));
    RankOfIndex(|d|, p);
  }

  lemma ProductAtLeast(n: nat, p: nat)
    requires p >= 1
    ensures n <= p * n
  {
  }

  lemma RankOfIndex(n: U64, p: U64)
    requires n > 0 && 1 <= p <= 100 && p * n < TWO64
    ensures Rank(p, n) == RankIndex(n, p) + 1
  {
    SmallMod(p * n);
  }

  lemma FirstReachingIs(sorted: seq<U64>, i: nat)
    requires Ascending(sorted) && i < |sorted| < TWO64
    ensures FirstReaching(Counts(sorted), i + 1, 0) == Bucket(sorted[i])
  {
    var k := Bucket(sorted[i]);
    RunningBelow(sorted, k + 1, i);
    var f := FirstReaching(Counts(sorted), i + 1, 0);
    if f < k {
      RunningBelow(sorted, f + 1, i);
    }
    assert RunningTotal(Counts(sorted), k + 1) >= i + 1;
  }

  /** As many durations as fit in a counter never make the running total wrap. */
  lemma RunningBelow(sorted: seq<U64>, k: nat, i: nat)
    requires Ascending(sorted) && i < |sorted| < TWO64 && k <= HIST_SLOTS
    ensures i < RunningTotal(Counts(sorted), k) <==> Bucket(sorted[i]) < k
  {
    CountsPrefix(sorted, k);
    SortedBelow(sorted, k, i);
    SmallMod(Below(sorted, k));
  }

  /**
   So the printed percentile is above the duration it stands for exactly while that duration is under
   2^32 ns, and never more than twice it (or 2 ns).
   */
  lemma PercentileBrackets(d: seq<U64>, sorted: seq<U64>, p: U64)
    requires multiset(d) == multiset(sorted) && Ascending(sorted)
    requires |d| > 0 && 1 <= p <= 100 && p * |d| < TWO64
    ensures |d| == |sorted| < TWO64
    ensures var v, ns := sorted[RankIndex(|d|, p)], PercentileOf(Counts(d), |d|, p);
            (v < ns <==> v < 0x1_0000_0000) && ns <= 2 * (if v == 0 then 1 else v)
  {
    PercentileIsNearestRank(d, sorted, p);
    PrintedBound(sorted[RankIndex(|d|, p)]);
  }

  ghost predicate IsMax(d: seq<U64>, m: U64) {
    m in d && forall v :: v in d ==> v <= m
  }

  /** Σ counts[j] * edge(j) over the first `k` buckets, for their lower or their upper edges. */
  function Weighted(counts: seq<nat>, k: nat, upper: bool): nat
    requires k <= |counts|
  {
    if k == 0 then 0
    else Weighted(counts, k - 1, upper) + counts[k - 1] * Edge(k - 1, upper)
  }

  function Edge(k: nat, upper: bool): nat {
    if upper then UpperBoundNs(k) else Lower(k)
  }

  lemma {:induction false} WeightedAppend(d: seq<U64>, v: U64, k: nat, upper: bool)
    requires k <= HIST_SLOTS
    ensures Weighted(Counts(d + [v]), k, upper)
         == Weighted(Counts(d), k, upper) + (if Bucket(v) < k then Edge(Bucket(v), upper) else 0)
  {
    if k > 0 {
      WeightedAppend(d, v, k - 1, upper);
      assert (d + [v])[..|d|] == d;
      var e, b := Edge(k - 1, upper), if Bucket(v) == k - 1 then 1 else 0;
      assert (Tally(d, k - 1) + b) * e == Tally(d, k - 1) * e + b * e;
    }
  }

  /** The buckets bracket the true sum: below it with lower edges, above it with printed bounds. */
  lemma {:induction false} BucketsBracketSum(d: seq<U64>)
    ensures Weighted(Counts(d), HIST_SLOTS, false) <= Sum(d)
    ensures |d| > 0 && (forall v :: v in d ==> v < 0x1_0000_0000)
            ==> Sum(d) < Weighted(Counts(d), HIST_SLOTS, true)
  {
    if |d| == 0 {
      assert d == [];
      WeightedEmpty(HIST_SLOTS, false);
    } else {
      var e, v := d[..|d| - 1], d[|d| - 1];
      assert d == e + [v];
      BucketsBracketSum(e);
      if |e| == 0 {
        assert e == [];
        WeightedEmpty(HIST_SLOTS, true);
      }
      assert v in d && forall w :: w in e ==> w in d;
      WeightedAppend(e, v, HIST_SLOTS, false);
      WeightedAppend(e, v, HIST_SLOTS, true);
      BucketsPartition(v, Bucket(v));
      PrintedBound(v);
    }
  }

  lemma {:induction false} WeightedEmpty(k: nat, upper: bool)
    requires k <= HIST_SLOTS
    ensures Weighted(Counts([]), k, upper) == 0
  {
    if k > 0 {
      WeightedEmpty(k - 1, upper);
    }
  }

  lemma OneMore(n: nat, m: nat)
    ensures (n + 1) * m == n * m + m
  {
  }

  lemma {:induction false} TotalAtMost(d: seq<U64>, m: nat)
    requires forall v :: v in d ==> v <= m
    ensures Sum(d) <= |d| * m
  {
    if |d| > 0 {
      var e, v := d[..|d| - 1], d[|d| - 1];
      assert d == e + [v];
      assert v in d && forall w :: w in e ==> w in d;
      TotalAtMost(e, m);
      OneMore(|e|, m);
    }
  }

  lemma {:induction false} TallyZero(d: seq<U64>, k: nat)
    ensures Tally(d, k) == 0 <==> forall v :: v in d ==> Bucket(v) != k
  {
    if |d| > 0 {
      var e, v := d[..|d| - 1], d[|d| - 1];
      assert d == e + [v];
      TallyZero(e, k);
    }
  }

  /** The maximum sits in the highest non-empty bucket, and the sum lies between the bucket edges. */
  ghost predicate CoherentCells(counts: seq<nat>, sum: nat, max: U64)
    requires |counts| == HIST_SLOTS
  {
    && counts[Bucket(max)] > 0 && (forall k :: Bucket(max) < k < HIST_SLOTS ==> counts[k] == 0)
    && Weighted(counts, HIST_SLOTS, false) <= sum
    && (max < 0x1_0000_0000 ==> sum < Weighted(counts, HIST_SLOTS, true))
  }

  /** The mean is at most the maximum, and the percentiles ascend to at most twice the maximum. */
  predicate CoherentStats(s: Stats) {
    && Mean(s) <= s.max
    && s.p50 <= s.p95 <= s.p99 <= 2 * (if s.max == 0 then 1 else s.max)
  }

  /** What a summary says is coherent with the durations `d` behind its cells. */
  ghost predicate Coherent(d: seq<U64>, cells: seq<U64>) {
    && |cells| == HIST_SLOTS + 2
    && var s := SummarizeOf(cells);
    && s.count == |d| && s.sum == Sum(d) && IsMax(d, s.max)
    && Mean(s) * |d| <= Sum(d) < (Mean(s) + 1) * |d|
    && CoherentStats(s) && CoherentCells(cells[..HIST_SLOTS], s.sum, s.max)
  }

  /** The counters of `d`, its sum when that does not wrap, and its true maximum give a coherent summary. */
  lemma SummaryCoherent(d: seq<U64>, sorted: seq<U64>, m: U64, cells: seq<U64>)
    requires multiset(d) == multiset(sorted) && Ascending(sorted)
    requires IsMax(d, m) && Sum(d) < TWO64 && 99 * |d| < TWO64
    requires |cells| == HIST_SLOTS + 2 && cells[..HIST_SLOTS] == Counts(d)
    requires cells[HIST_SLOTS] == Sum(d) && cells[HIST_SLOTS + 1] == m
    ensures Coherent(d, cells)
  {
    hide Sum, Mean, Counts, PercentileOf, CoherentCells;
    var s := SummarizeOf(cells);
    CountsTotal(d);
    SmallMod(|d|);
    assert HistPart(cells) == Counts(d);
    assert s.count == |d| && s.sum == Sum(d) && s.max == m;
    CellsCoherent(d, m);
    MeanOfMax(d, m, s);
    PercentilesAscend(d, sorted, m);
  }

  lemma CellsCoherent(d: seq<U64>, m: U64)
    requires IsMax(d, m)
    ensures CoherentCells(Counts(d), Sum(d), m)
  {
    HighestBucket(d, m);
    BucketsBracketSum(d);
    assert forall v :: v in d ==> v <= m;
  }

  lemma MeanOfMax(d: seq<U64>, m: U64, s: Stats)
    requires IsMax(d, m) && s.count == |d| && s.sum == Sum(d)
    ensures Mean(s) <= m && Mean(s) * |d| <= Sum(d) < (Mean(s) + 1) * |d|
  {
    hide Sum;
    TotalAtMost(d, m);
    MeanAtMost(Sum(d), |d|, m);
  }

  lemma HighestBucket(d: seq<U64>, m: U64)
    requires IsMax(d, m)
    ensures Counts(d)[Bucket(m)] > 0 && forall k :: Bucket(m) < k < HIST_SLOTS ==> Counts(d)[k] == 0
  {
    TallyZero(d, Bucket(m));
    forall k | Bucket(m) < k < HIST_SLOTS
      ensures Counts(d)[k] == 0
    {
      TallyZero(d, k);
      forall v | v in d
        ensures Bucket(v) != k
      {
        BucketMonotone(v, m);
      }
    }
  }

  lemma MeanAtMost(total: nat, n: nat, m: nat)
    requires n > 0 && total <= n * m
    ensures total / n <= m
  {
    var q := total / n;
    assert n * q <= total;
    if q > m {
      MulLess(n, m, q);
    }
  }

  lemma MulLess(n: nat, m: nat, q: nat)
    requires n > 0 && m < q
    ensures n * m < n * q
  {
  }

  lemma PercentilesAscend(d: seq<U64>, sorted: seq<U64>, m: U64)
    requires multiset(d) == multiset(sorted) && Ascending(sorted)
    requires IsMax(d, m) && 99 * |d| < TWO64
    ensures |d| < TWO64
    ensures PercentileOf(Counts(d), |d|, 50) <= PercentileOf(Counts(d), |d|, 95) <= PercentileOf(Counts(d), |d|, 99)
    ensures PercentileOf(Counts(d), |d|, 99) <= 2 * (if m == 0 then 1 else m)
  {
    PercentileBelow(d, sorted, 50, 95);
    PercentileBelow(d, sorted, 95, 99);
    PercentileAtMost(d, sorted, m, 99);
  }

  lemma PercentileAtMost(d: seq<U64>, sorted: seq<U64>, m: U64, p: U64)
    requires multiset(d) == multiset(sorted) && Ascending(sorted)
    requires IsMax(d, m) && 1 <= p <= 99 && p * |d| < TWO64
    ensures |d| < TWO64 && PercentileOf(Counts(d), |d|, p) <= 2 * (if m == 0 then 1 else m)
  {
    PercentileIsNearestRank(d, sorted, p);
    var v := sorted[RankIndex(|d|, p)];
    assert v <= m by {
      assert v in multiset(sorted);
      assert v in multiset(d);
      assert v in d;
    }
    BoundOfSmaller(v, m);
  }

  lemma BoundOfSmaller(v: U64, m: U64)
    requires v <= m
    ensures UpperBoundNs(Bucket(v)) <= 2 * (if m == 0 then 1 else m)
  {
    BucketMonotone(v, m);
    UpperBoundMonotone(Bucket(v), Bucket(m));
    PrintedBound(m);
  }

  lemma PercentileBelow(d: seq<U64>, sorted: seq<U64>, p: U64, q: U64)
    requires multiset(d) == multiset(sorted) && Ascending(sorted)
    requires |d| > 0 && 1 <= p <= q <= 99 && 99 * |d| < TWO64
    ensures PercentileOf(Counts(d), |d|, p) <= PercentileOf(Counts(d), |d|, q)
  {
    hide Bucket, UpperBoundNs, PercentileOf, FirstReaching, Counts;
    ProductBelow(|d|, p, q);
    PercentileIsNearestRank(d, sorted, p);
    PercentileIsNearestRank(d, sorted, q);
    var i, j := RankIndex(|d|, p), RankIndex(|d|, q);
    assert i <= j;
    BucketMonotone(sorted[i], sorted[j]);
    UpperBoundMonotone(Bucket(sorted[i]), Bucket(sorted[j]));
  }

  lemma ProductBelow(n: nat, p: nat, q: nat)
    requires p <= q <= 99
    ensures p * n <= q * n <= 99 * n
  {
  }
}
