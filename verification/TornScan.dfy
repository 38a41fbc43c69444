/** What a scan of the cells, one at a time while exits keep running, says about the samples. */
module TornScan {
  import opened Words
  import opened Buckets
  import opened Hist
  import opened NearestRank
  import opened LatencyModel
  import opened LatencyInvariants
  import opened LatencyTheorems

  /** Whether the `n`-th sample was counted before its own cell was read. */
  predicate InTime(x: Sample, n: nat, readAt: seq<nat>)
    requires |readAt| == CELLS
  {
    n < readAt[BucketCell(x)]
  }

  /** The samples that were. */
  function Seen(log: seq<Sample>, readAt: seq<nat>): seq<Sample>
    requires |readAt| == CELLS
  {
    if |log| == 0 then []
    else if InTime(log[|log| - 1], |log| - 1, readAt) then Seen(log[..|log| - 1], readAt) + [log[|log| - 1]]
    else Seen(log[..|log| - 1], readAt)
  }

  function Upto(log: seq<Sample>, n: nat): seq<Sample> {
    if n <= |log| then log[..n] else log
  }

  lemma UptoSnoc(log: seq<Sample>, n: nat)
    requires |log| > 0
    ensures Upto(log, n) == if |log| <= n then Upto(log[..|log| - 1], n) + [log[|log| - 1]]
                            else Upto(log[..|log| - 1], n)
  {
  }

  lemma {:induction false} SeenCounts(log: seq<Sample>, readAt: seq<nat>, c: nat)
    requires |readAt| == CELLS && c < CELLS
    ensures CountCell(Seen(log, readAt), c) == CountCell(Upto(log, readAt[c]), c)
  {
    if |log| > 0 {
      var rest, x := log[..|log| - 1], log[|log| - 1];
      SeenCounts(rest, readAt, c);
      UptoSnoc(log, readAt[c]);
      CountCellAppend(Seen(rest, readAt), x, c);
      CountCellAppend(Upto(rest, readAt[c]), x, c);
    }
  }

  lemma {:induction false} SeenAll(log: seq<Sample>, readAt: seq<nat>)
    requires |readAt| == CELLS && forall c :: 0 <= c < CELLS ==> |log| <= readAt[c]
    ensures Seen(log, readAt) == log
  {
    hide BucketCell;
    if |log| > 0 {
      SeenAll(log[..|log| - 1], readAt);
    }
  }

  lemma {:induction false} SeenFrom(log: seq<Sample>, readAt: seq<nat>, from: nat)
    requires |readAt| == CELLS && from <= |log| && forall c :: 0 <= c < CELLS ==> from <= readAt[c]
    ensures multiset(log[..from]) <= multiset(Seen(log, readAt))
  {
    hide InTime;
    if from == |log| {
      SeenAll(log, readAt);
      assert log[..from] == log;
    } else {
      var n := |log| - 1;
      SeenFrom(log[..n], readAt, from);
      assert log[..n][..from] == log[..from];
    }
  }

  lemma {:induction false} SeenTo(log: seq<Sample>, readAt: seq<nat>, to: nat)
    requires |readAt| == CELLS && forall c :: 0 <= c < CELLS ==> readAt[c] <= to
    ensures multiset(Seen(log, readAt)) <= multiset(Upto(log, to))
  {
    if |log| > 0 {
      var rest, x := log[..|log| - 1], log[|log| - 1];
      SeenTo(rest, readAt, to);
      UptoSnoc(log, to);
      if InTime(x, |log| - 1, readAt) {
        assert multiset(Upto(log, to)) == multiset(Upto(rest, to)) + multiset{x};
      } else {
        assert multiset(Upto(rest, to)) <= multiset(Upto(log, to));
      }
    }
  }

  lemma {:induction false} SeenLength(log: seq<Sample>, readAt: seq<nat>)
    requires |readAt| == CELLS
    ensures |Seen(log, readAt)| <= |log|
  {
    if |log| > 0 {
      SeenLength(log[..|log| - 1], readAt);
    }
  }

  /**
   A scan that finished while exits kept running counts exactly the samples of one multiset between
   those counted when it began and those counted when it ended.
   */
  lemma TornCounts(now: U64, run: seq<Action>, i: nat, s: Syscall)
    requires Exec(now, run).Some? && i < |Exec(now, run).value.scans|
    requires |Exec(now, run).value.samples.log| < TWO64
    ensures var log, scan := Exec(now, run).value.samples.log, Exec(now, run).value.scans[i];
            && |scan.values| == |scan.readAt| == CELLS && scan.from <= scan.to <= |log|
            && var seen := Seen(log, scan.readAt);
            && multiset(log[..scan.from]) <= multiset(seen) <= multiset(log[..scan.to])
            && Vector(scan.values, s)[..HIST_SLOTS] == Counts(Durations(seen, s))
  {
    Invariant(now, run);
    var log, scan := Exec(now, run).value.samples.log, Exec(now, run).value.scans[i];
    assert ReadsLog(log, scan.values, scan.readAt, scan.from, scan.to);
    SeenFrom(log, scan.readAt, scan.from);
    SeenTo(log, scan.readAt, scan.to);
    ScanCounts(log, scan, s);
  }

  lemma ScanCounts(log: seq<Sample>, scan: Scan, s: Syscall)
    requires ReadsLog(log, scan.values, scan.readAt, scan.from, scan.to)
    requires |scan.values| == CELLS && |log| < TWO64
    ensures Vector(scan.values, s)[..HIST_SLOTS] == Counts(Durations(Seen(log, scan.readAt), s))
  {
    var seen := Seen(log, scan.readAt);
    VectorCells(scan.values, s);
    forall k | 0 <= k < HIST_SLOTS
      ensures Vector(scan.values, s)[k] == Tally(Durations(seen, s), k)
    {
      ScanCount(log, scan, s, k);
    }
  }

  lemma ScanCount(log: seq<Sample>, scan: Scan, s: Syscall, k: nat)
    requires ReadsLog(log, scan.values, scan.readAt, scan.from, scan.to)
    requires |scan.values| == CELLS && |log| < TWO64 && k < HIST_SLOTS
    ensures scan.values[Cell(s, k)] == Tally(Durations(Seen(log, scan.readAt), s), k)
  {
    var c := Cell(s, k);
    CellBijection(s, k, s, k, c);
    ReadValue(log, scan, c);
    assert Upto(log, scan.readAt[c]) == log[..scan.readAt[c]];
    SeenCounts(log, scan.readAt, c);
    CountCellIsTally(Seen(log, scan.readAt), s, k);
  }

  lemma ReadValue(log: seq<Sample>, scan: Scan, c: nat)
    requires ReadsLog(log, scan.values, scan.readAt, scan.from, scan.to)
    requires c < |scan.values| && IsBucketCell(c) && |log| < TWO64
    ensures scan.readAt[c] <= |log| && scan.values[c] == CountCell(log[..scan.readAt[c]], c)
  {
    CountCellBound(log[..scan.readAt[c]], c);
    SmallMod(CountCell(log[..scan.readAt[c]], c));
  }

  /** The durations of syscall `s` among the samples scan `i` saw. */
  ghost predicate DurationsSeen(st: State, i: nat, s: Syscall, d: seq<U64>)
    requires i < |st.scans|
  {
    |st.scans[i].readAt| == CELLS && d == Durations(Seen(st.samples.log, st.scans[i].readAt), s)
  }

  /**
   Torn-read percentiles: every percentile printed from such a scan is the exact nearest-rank bound of
   that multiset, whatever the interleaving.
   */
  lemma TornPercentiles(now: U64, run: seq<Action>, i: nat, s: Syscall, d: seq<U64>, sorted: seq<U64>)
    requires Exec(now, run).Some? && i < |Exec(now, run).value.scans|
    requires 99 * |Exec(now, run).value.samples.log| < TWO64
    requires DurationsSeen(Exec(now, run).value, i, s, d)
    requires multiset(d) == multiset(sorted) && Ascending(sorted)
    ensures |Exec(now, run).value.scans[i].values| == CELLS
    ensures PrintsNearestRanks(SummarizeOf(Vector(Exec(now, run).value.scans[i].values, s)), sorted)
  {
    TornCounts(now, run, i, s);
    var st := Exec(now, run).value;
    var v := Vector(st.scans[i].values, s);
    VectorCells(st.scans[i].values, s);
    SeenLength(st.samples.log, st.scans[i].readAt);
    CountCellIsTally(Seen(st.samples.log, st.scans[i].readAt), s, 0);
    assert HistPart(v) == Counts(d);
    SummaryPrints(v, d, sorted);
  }

  ghost predicate PrintsNearestRanks(stats: Stats, sorted: seq<U64>) {
    && stats.count == |sorted|
    && (if |sorted| == 0 then stats.p50 == stats.p95 == stats.p99 == 0
        else
          && stats.p50 == UpperBoundNs(Bucket(sorted[RankIndex(|sorted|, 50)]))
          && stats.p95 == UpperBoundNs(Bucket(sorted[RankIndex(|sorted|, 95)]))
          && stats.p99 == UpperBoundNs(Bucket(sorted[RankIndex(|sorted|, 99)])))
  }

  lemma SummaryPrints(v: seq<U64>, d: seq<U64>, sorted: seq<U64>)
    requires HistPart(v) == Counts(d) && 99 * |d| < TWO64
    requires multiset(d) == multiset(sorted) && Ascending(sorted)
    ensures PrintsNearestRanks(SummarizeOf(v), sorted)
  {
    CountsTotal(d);
    SmallMod(|d|);
    assert |multiset(d)| == |d| && |multiset(sorted)| == |sorted|;
    if |d| > 0 {
      PercentileIsNearestRank(d, sorted, 50);
      PercentileIsNearestRank(d, sorted, 95);
      PercentileIsNearestRank(d, sorted, 99);
    }
  }

  lemma {:induction false} CountCellGrows(log: seq<Sample>, m: nat, n: nat, c: nat)
    requires m <= n <= |log|
    ensures CountCell(log[..m], c) <= CountCell(log[..n], c)
    decreases n - m
  {
    if m < n {
      CountCellGrows(log, m, n - 1, c);
      assert log[..n][..n - 1] == log[..n - 1];
    }
  }

  /** Later scans never go backwards in any bucket. */
  lemma ScansNeverGoBack(now: U64, run: seq<Action>, i: nat, j: nat, c: nat)
    requires Exec(now, run).Some? && i <= j < |Exec(now, run).value.scans|
    requires |Exec(now, run).value.samples.log| < TWO64
    requires c < CELLS && IsBucketCell(c)
    ensures var scans := Exec(now, run).value.scans;
            |scans[i].values| == |scans[j].values| == CELLS && scans[i].values[c] <= scans[j].values[c]
  {
    Invariant(now, run);
    var log, a, b := Exec(now, run).value.samples.log, Exec(now, run).value.scans[i], Exec(now, run).value.scans[j];
    assert ReadsLog(log, a.values, a.readAt, a.from, a.to) && ReadsLog(log, b.values, b.readAt, b.from, b.to);
    ReadValue(log, a, c);
    ReadValue(log, b, c);
    if i < j {
      assert a.to <= b.from;
    }
    CountCellGrows(log, a.readAt[c], b.readAt[c], c);
  }
}
