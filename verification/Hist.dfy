/** Percentiles of a log2 histogram, as `src/hist.rs` computes them from a vector of counters. */
module Hist {
  import opened Words
  import opened Buckets

  datatype Stats = Stats(count: U64, sum: U64, max: U64, p50: U64, p95: U64, p99: U64)

  /** `(p * total).div_ceil(100)` on u64: the product wraps. */
  function Rank(p: U64, total: U64): U64 {
    WrappedRank(p * total)
  }

  function WrappedRank(product: nat): U64 {
    (product % TWO64 + 99) / 100
  }

  /** The computed rank is the nearest rank exactly when the product does not wrap. */
  lemma RankIsNearestUnlessWrapped(p: U64, total: U64)
    ensures Rank(p, total) == (p * total + 99) / 100 <==> p * total < TWO64
  {
    WrapLoses(p * total);
  }

  lemma WrapLoses(m: nat)
    ensures WrappedRank(m) == (m + 99) / 100 <==> m < TWO64
  {
    if m >= TWO64 {
      assert m % TWO64 <= m - TWO64;
    }
  }

  function SumTo(counts: seq<nat>, i: nat): nat
    requires i <= |counts|
  {
    Sum(counts[..i])
  }

  /** What the loop has added up before slot `i`: the additions wrap. */
  function RunningTotal(counts: seq<nat>, i: nat): U64
    requires i <= |counts|
  {
    SumTo(counts, i) % TWO64
  }

  lemma RunningStep(counts: seq<nat>, i: nat)
    requires i < |counts|
    ensures RunningTotal(counts, i + 1) == (RunningTotal(counts, i) + counts[i]) % TWO64
  {
    SumTake(counts, i);
    WrapAdd(Sum(counts[..i]), counts[i]);
  }

  lemma RunningWhole(counts: seq<nat>)
    ensures RunningTotal(counts, 0) == 0 && RunningTotal(counts, |counts|) == Sum(counts) % TWO64
  {
    assert counts[..|counts|] == counts;
  }

  /** The first slot from `i` on whose running total reaches `rank`, or `|counts|`. */
  function FirstReaching(counts: seq<nat>, rank: nat, i: nat): (k: nat)
    requires i <= |counts|
    ensures i <= k <= |counts|
    ensures k < |counts| ==> rank <= RunningTotal(counts, k + 1)
    ensures forall j :: i < j <= k ==> RunningTotal(counts, j) < rank
    decreases |counts| - i
  {
    if i == |counts| then i
    else if RunningTotal(counts, i + 1) >= rank then i
    else FirstReaching(counts, rank, i + 1)
  }

  function PercentileOf(counts: seq<nat>, total: U64, p: U64): U64 {
    if total == 0 then 0
    else
      var k := FirstReaching(counts, Rank(p, total), 0);
      UpperBoundNs(if k < |counts| || k == 0 then k else k - 1)
  }

  /** The first slot whose running total reaches the rank decides, or the last slot when none does. */
  lemma PercentileCases(counts: seq<nat>, total: U64, p: U64, k: nat)
    requires total > 0 && k <= |counts|
    requires k < |counts| ==> Rank(p, total) <= Sum(counts[..k + 1]) % TWO64
    requires forall j :: 0 < j <= k ==> Sum(counts[..j]) % TWO64 < Rank(p, total)
    ensures PercentileOf(counts, total, p)
         == UpperBoundNs(if k < |counts| then k else if |counts| == 0 then 0 else |counts| - 1)
  {
    var f := FirstReaching(counts, Rank(p, total), 0);
    assert f < |counts| ==> Rank(p, total) <= RunningTotal(counts, f + 1);
    assert k < |counts| ==> Rank(p, total) <= RunningTotal(counts, k + 1);
  }

  method Percentile(counts: seq<nat>, total: U64, p: U64) returns (ns: U64)
    ensures ns == PercentileOf(counts, total, p)
  {
    if total == 0 {
      return 0;
    }
    hide RunningTotal, Rank, UpperBoundNs;
    var rank := Rank(p, total);
    var seen: U64 := 0;
    RunningWhole(counts);
    for slot := 0 to |counts|
      invariant seen == RunningTotal(counts, slot)
      invariant FirstReaching(counts, rank, 0) == FirstReaching(counts, rank, slot)
    {
      RunningStep(counts, slot);
      seen := (seen + counts[slot]) % TWO64;
      if seen >= rank {
        return UpperBoundNs(slot);
      }
    }
    return UpperBoundNs(if |counts| == 0 then 0 else |counts| - 1);
  }

  /** `counts[..HIST_SLOTS.min(len)]`. */
  function HistPart(counts: seq<U64>): seq<nat> {
    if |counts| <= HIST_SLOTS then counts else counts[..HIST_SLOTS]
  }

  function GetOrZero(counts: seq<U64>, i: nat): U64 {
    if i < |counts| then counts[i] else 0
  }

  function SummarizeOf(counts: seq<U64>): Stats {
    var hist := HistPart(counts);
    var count := Sum(hist) % TWO64;
    Stats(count, GetOrZero(counts, HIST_SLOTS), GetOrZero(counts, HIST_SLOTS + 1),
          PercentileOf(hist, count, 50), PercentileOf(hist, count, 95), PercentileOf(hist, count, 99))
  }

  method Summarize(counts: seq<U64>) returns (stats: Stats)
    ensures stats == SummarizeOf(counts)
    ensures stats.sum == (if |counts| > 32 then counts[32] else 0)
    ensures stats.max == (if |counts| > 33 then counts[33] else 0)
  {
    hide RunningTotal, PercentileOf;
    var hist := HistPart(counts);
    var count: U64 := 0;
    RunningWhole(hist);
    for i := 0 to |hist|
      invariant count == RunningTotal(hist, i)
    {
      RunningStep(hist, i);
      count := (count + hist[i]) % TWO64;
    }
    var p50 := Percentile(hist, count, 50);
    var p95 := Percentile(hist, count, 95);
    var p99 := Percentile(hist, count, 99);
    stats := Stats(count, GetOrZero(counts, HIST_SLOTS), GetOrZero(counts, HIST_SLOTS + 1), p50, p95, p99);
  }

  /** `sum.checked_div(count).unwrap_or(0)`: the mean column of `tracelet latency`. */
  function Mean(stats: Stats): (m: U64)
    ensures stats.count == 0 ==> m == 0
    ensures stats.count > 0 ==> m * stats.count <= stats.sum < (m + 1) * stats.count
  {
    if stats.count == 0 then 0
    else
      QuotientBounds(stats.sum, stats.count);
      stats.sum / stats.count
  }

  lemma QuotientBounds(a: nat, n: nat)
    requires n > 0
    ensures (a / n) * n <= a < (a / n + 1) * n && a / n <= a
  {
    var q, r := a / n, a % n;
    assert a == n * q + r && r < n;
    Distributes(q, n);
  }

  lemma Distributes(q: nat, n: nat)
    requires n > 0
    ensures (q + 1) * n == q * n + n && n * q == q * n >= q
  {
  }
}
