/** The promises of the latency pipeline, over every run: any interleaving of hooks and scans. */
module LatencyTheorems {
  import opened Words
  import opened Buckets
  import opened Hist
  import opened NearestRank
  import opened LatencyModel
  import opened LatencyInvariants

  /** The durations of one syscall, in order. */
  function Durations(xs: seq<Sample>, s: Syscall): seq<U64> {
    if |xs| == 0 then []
    else Durations(xs[..|xs| - 1], s) + (if xs[|xs| - 1].syscall == s then [xs[|xs| - 1].delta] else [])
  }

  lemma {:induction false} DurationsOccur(xs: seq<Sample>, s: Syscall, d: U64)
    ensures multiset(Durations(xs, s))[d] == multiset(xs)[Sample(s, d)]
  {
    if |xs| > 0 {
      var ys, x := xs[..|xs| - 1], xs[|xs| - 1];
      assert xs == ys + [x];
      DurationsOccur(ys, s, d);
    }
  }

  lemma DurationsPermutation(xs: seq<Sample>, ys: seq<Sample>, s: Syscall)
    requires multiset(xs) == multiset(ys)
    ensures multiset(Durations(xs, s)) == multiset(Durations(ys, s))
  {
    forall d: U64
      ensures multiset(Durations(xs, s))[d] == multiset(Durations(ys, s))[d]
    {
      DurationsOccur(xs, s, d);
      DurationsOccur(ys, s, d);
    }
  }

  lemma {:induction false} CountCellIsTally(xs: seq<Sample>, s: Syscall, k: nat)
    requires k < HIST_SLOTS
    ensures CountCell(xs, Cell(s, k)) == Tally(Durations(xs, s), k)
    ensures |Durations(xs, s)| <= |xs|
  {
    if |xs| > 0 {
      var ys, x := xs[..|xs| - 1], xs[|xs| - 1];
      CountCellIsTally(ys, s, k);
      CellBijection(s, k, x.syscall, Bucket(x.delta), 0);
      if x.syscall == s {
        assert Durations(xs, s)[..|Durations(ys, s)|] == Durations(ys, s);
      } else {
        assert Durations(xs, s) == Durations(ys, s);
      }
    }
  }

  lemma {:induction false} SumForIsSum(xs: seq<Sample>, s: Syscall)
    ensures SumFor(xs, s) == Sum(Durations(xs, s))
  {
    if |xs| > 0 {
      var ys, x := xs[..|xs| - 1], xs[|xs| - 1];
      SumForIsSum(ys, s);
      if x.syscall == s {
        assert Durations(xs, s)[..|Durations(ys, s)|] == Durations(ys, s);
      } else {
        assert Durations(xs, s) == Durations(ys, s);
      }
    }
  }

  lemma {:induction false} SumDrop(d: seq<nat>, i: nat)
    requires i < |d|
    ensures Sum(d) == Sum(d[..i] + d[i + 1..]) + d[i]
  {
    var n := |d| - 1;
    var e := d[..i] + d[i + 1..];
    if i == n {
      assert e == d[..n];
    } else {
      SumDrop(d[..n], i);
      assert e[..|e| - 1] == d[..n][..i] + d[..n][i + 1..];
    }
  }

  lemma {:induction false} SumPermutation(a: seq<nat>, b: seq<nat>)
    requires multiset(a) == multiset(b)
    ensures Sum(a) == Sum(b)
  {
    if |a| == 0 {
      assert |multiset(b)| == 0;
    } else {
      var x := a[|a| - 1];
      assert x in multiset(a);
      var i := RemoveOne(b, x);
      assert a == a[..|a| - 1] + [x];
      SumPermutation(a[..|a| - 1], b[..i] + b[i + 1..]);
      SumDrop(b, i);
    }
  }

  /** One syscall's vector, as both readers cut it out of the flat array. */
  function Vector(cells: seq<U64>, s: Syscall): seq<U64>
    requires |cells| == CELLS
  {
    cells[s * 34..s * 34 + 34]
  }

  lemma VectorCells(cells: seq<U64>, s: Syscall)
    requires |cells| == CELLS
    ensures |Vector(cells, s)| == LATENCY_SLOTS
    ensures forall k :: 0 <= k < LATENCY_SLOTS ==> Vector(cells, s)[k] == cells[Cell(s, k)]
  {
  }

  // ---- when no exit is in progress

  ghost predicate NoExitInProgress(st: State) {
    forall t :: t in st.pcs ==> st.pcs[t].Entering?
  }

  lemma AllFinished(st: State)
    requires FlowInv(st) && NoExitInProgress(st)
    ensures multiset(st.samples.taken) == multiset(st.samples.log) == multiset(st.samples.summed)
            == multiset(st.samples.finished)
  {
    var h := st.samples;
    forall x
      ensures multiset(h.taken)[x] == multiset(h.log)[x] == multiset(h.summed)[x] == multiset(h.finished)[x]
    {
      assert FlowAt(st, x);
      assert Population(st.pcs, x) == Held(0, 0, 0) by {
        assert At(st.pcs, Measured(x)) == At(st.pcs, Counted(x)) == At(st.pcs, Summed(x)) == At(st.pcs, Compared(x)) == {};
      }
      assert Occurs(h.taken, x) == Occurs(h.log, x) == Occurs(h.summed, x) == Occurs(h.finished, x);
    }
  }

  /**
   Every interleaving of concurrent exits: once none is in progress, a syscall's buckets count exactly
   its completed durations, its sum is their total modulo 2^64, and its maximum is one of them.
   */
  lemma QuiescentHistogram(now: U64, run: seq<Action>, s: Syscall)
    requires Exec(now, run).Some? && NoExitInProgress(Exec(now, run).value)
    requires |Exec(now, run).value.samples.log| < TWO64
    ensures var st := Exec(now, run).value;
            && |st.hist| == CELLS
            && var d, v := Durations(st.samples.finished, s), Vector(st.hist, s);
            && v[..HIST_SLOTS] == Counts(d) && Sum(Counts(d)) == |d|
            && v[HIST_SLOTS] == Sum(d) % TWO64
            && (if |d| == 0 then v[HIST_SLOTS + 1] == 0 else v[HIST_SLOTS + 1] in d)
  {
    Invariant(now, run);
    var st := Exec(now, run).value;
    AllFinished(st);
    VectorCells(st.hist, s);
    QuiescentCounts(st, s);
    QuiescentSum(st, s);
    QuiescentMax(st, s);
    CountsTotal(Durations(st.samples.finished, s));
    assert Vector(st.hist, s)[HIST_SLOTS] == st.hist[SumCell(s)];
    assert Vector(st.hist, s)[HIST_SLOTS + 1] == st.hist[MaxCell(s)];
  }

  lemma QuiescentCounts(st: State, s: Syscall)
    requires HistInv(st) && |st.samples.log| < TWO64
    requires multiset(st.samples.log) == multiset(st.samples.finished)
    ensures Vector(st.hist, s)[..HIST_SLOTS] == Counts(Durations(st.samples.finished, s))
  {
    assert |st.hist| == CELLS;
    hide HistInv, Vector, Tally, Durations, CountCell;
    VectorCells(st.hist, s);
    DurationsPermutation(st.samples.log, st.samples.finished, s);
    forall k | 0 <= k < HIST_SLOTS
      ensures Vector(st.hist, s)[k] == Tally(Durations(st.samples.finished, s), k)
    {
      BucketCellValue(st, s, k);
      CountCellIsTally(st.samples.log, s, k);
      TallyPermutation(Durations(st.samples.log, s), Durations(st.samples.finished, s), k);
    }
  }

  lemma BucketCellValue(st: State, s: Syscall, k: nat)
    requires HistInv(st) && |st.samples.log| < TWO64 && k < HIST_SLOTS
    ensures st.hist[Cell(s, k)] == CountCell(st.samples.log, Cell(s, k))
  {
    hide CountCell, SumFor;
    CellBijection(s, k, s, k, Cell(s, k));
    CountCellBound(st.samples.log, Cell(s, k));
    SmallMod(CountCell(st.samples.log, Cell(s, k)));
  }

  lemma {:induction false} CountCellBound(log: seq<Sample>, c: nat)
    ensures CountCell(log, c) <= |log|
  {
    if |log| > 0 {
      CountCellBound(log[..|log| - 1], c);
    }
  }

  lemma QuiescentSum(st: State, s: Syscall)
    requires HistInv(st) && multiset(st.samples.summed) == multiset(st.samples.finished)
    ensures st.hist[SumCell(s)] == Sum(Durations(st.samples.finished, s)) % TWO64
  {
    SumForIsSum(st.samples.summed, s);
    DurationsPermutation(st.samples.summed, st.samples.finished, s);
    SumPermutation(Durations(st.samples.summed, s), Durations(st.samples.finished, s));
  }

  lemma DurationsHas(xs: seq<Sample>, s: Syscall, d: U64)
    ensures d in Durations(xs, s) <==> Sample(s, d) in xs
  {
    DurationsOccur(xs, s, d);
    assert d in multiset(Durations(xs, s)) <==> Sample(s, d) in multiset(xs);
  }

  lemma QuiescentMax(st: State, s: Syscall)
    requires MaxInv(st)
    ensures var d, m := Durations(st.samples.finished, s), st.hist[MaxCell(s)];
            if |d| == 0 then m == 0 else m in d
  {
    var d, m := Durations(st.samples.finished, s), st.hist[MaxCell(s)];
    DurationsHas(st.samples.finished, s, m);
    if |d| > 0 && m == 0 {
      DurationsHas(st.samples.finished, s, d[0]);
      var x := Sample(s, d[0]);
      assert x in st.samples.finished && x.syscall == s;
      assert d[0] == 0;
    }
  }

  // ---- the start map

  /**
   Over any run, well paired or not: every allowed enter was measured, replaced, counted as a drop or is
   still in the map, which never holds more than 10240 entries; and with no exit in progress every
   measured duration is in the buckets.
   */
  lemma StartMapConservation(now: U64, run: seq<Action>)
    requires Exec(now, run).Some?
    ensures var st := Exec(now, run).value;
            && |st.start| <= 10240
            && st.ledger.allowed == |st.samples.taken| + st.ledger.failed + st.ledger.overwritten + |st.start|
            && st.latencyDrops == st.ledger.failed % TWO64
            && (NoExitInProgress(st) ==>
                st.ledger.allowed == |st.samples.log| + st.ledger.failed + st.ledger.overwritten + |st.start|)
  {
    Invariant(now, run);
    var st := Exec(now, run).value;
    if NoExitInProgress(st) {
      AllFinished(st);
      assert |multiset(st.samples.taken)| == |st.samples.taken|;
      assert |multiset(st.samples.log)| == |st.samples.log|;
    }
  }

  /** No hook is ever stuck: whatever the others do, the next step of a thread in an exit can happen. */
  lemma ExitsNeverStuck(now: U64, run: seq<Action>, t: Tid)
    requires Exec(now, run).Some? && t in Exec(now, run).value.pcs
    ensures var st := Exec(now, run).value;
            match st.pcs[t]
            case Entering(_, _) =>
              && Enabled(st, EnterStore(t, true, false)) && Enabled(st, EnterStore(t, false, false))
              && (Enabled(st, EnterStore(t, true, true)) <==> t in st.start || |st.start| < 10240)
            case Found(_) => Enabled(st, ExitTime(t)) && t in st.start && st.start[t] <= st.now
            case Timed(_) => Enabled(st, ExitDelete(t)) && t in st.start && st.start[t] <= st.now
            case Measured(_) => Enabled(st, AddBucket(t))
            case Counted(_) => Enabled(st, AddSum(t))
            case Summed(_) => Enabled(st, LoadMax(t))
            case Compared(_) => Enabled(st, StoreMax(t))
  {
    Invariant(now, run);
  }

  // ---- the maximum and overlapping exits

  /** Every completed duration is at most its syscall's maximum cell. */
  ghost predicate MaxHolds(st: State) {
    && |st.hist| == CELLS
    && forall x :: x in st.samples.finished ==> x.delta <= st.hist[MaxCell(x.syscall)]
  }

  /** The store about to happen would put back a smaller maximum than another exit stored meanwhile. */
  ghost predicate StaleStore(st: State, a: Action) {
    && a.StoreMax? && Enabled(st, a)
    && st.hist[MaxCell(st.pcs[a.t].sample.syscall)] > st.pcs[a.t].sample.delta
  }

  lemma MaxHoldsStep(st: State, a: Action)
    requires MaxHolds(st) && MaxInv(st) && Enabled(st, a) && !StaleStore(st, a)
    ensures MaxHolds(Apply(st, a))
  {
    hide AddTo, BucketCell, SumCell, MaxCell;
    var st' := Apply(st, a);
    if a.LoadMax? || a.StoreMax? {
      assert forall x :: x in st'.samples.finished ==> x in st.samples.finished || x == st.pcs[a.t].sample;
    } else {
      MaximaUntouched(st, a);
    }
  }

  lemma StaleStoreLoses(st: State, a: Action)
    requires MaxInv(st) && StaleStore(st, a)
    ensures !MaxHolds(Apply(st, a))
  {
    var st', s := Apply(st, a), st.pcs[a.t].sample.syscall;
    var lost := Sample(s, st.hist[MaxCell(s)]);
    assert lost in st.samples.finished && lost in st'.samples.finished;
  }

  /** `MaxHolds` after every prefix of the run. */
  ghost predicate MaxAlwaysHolds(now: U64, run: seq<Action>)
    requires Exec(now, run).Some?
  {
    && MaxHolds(Exec(now, run).value)
    && (|run| > 0 ==> MaxAlwaysHolds(now, run[..|run| - 1]))
  }

  ghost predicate NeverStale(now: U64, run: seq<Action>)
    requires Exec(now, run).Some?
  {
    |run| > 0 ==>
      && !StaleStore(Exec(now, run[..|run| - 1]).value, run[|run| - 1])
      && NeverStale(now, run[..|run| - 1])
  }

  /**
   The maximum shown is at every moment at least every completed duration, exactly in the runs in
   which no exit stores over a larger maximum than the one it compared with.
   */
  lemma {:induction false} MaxHoldsUnlessStale(now: U64, run: seq<Action>)
    requires Exec(now, run).Some?
    ensures MaxAlwaysHolds(now, run) <==> NeverStale(now, run)
  {
    if |run| > 0 {
      var before, a := run[..|run| - 1], run[|run| - 1];
      MaxHoldsUnlessStale(now, before);
      Invariant(now, before);
      var st := Exec(now, before).value;
      if StaleStore(st, a) {
        StaleStoreLoses(st, a);
      } else if MaxAlwaysHolds(now, before) {
        MaxHoldsStep(st, a);
      }
    }
  }

  /** Two exits of one syscall are between comparing and storing at once. */
  ghost predicate Overlap(st: State) {
    exists t, u :: t in st.pcs && u in st.pcs && t != u
      && st.pcs[t].Compared? && st.pcs[u].Compared? && st.pcs[t].sample.syscall == st.pcs[u].sample.syscall
  }

  /** A pending store is above the cell it goes to. */
  ghost predicate PendingAbove(st: State) {
    && |st.hist| == CELLS
    && forall t :: t in st.pcs && st.pcs[t].Compared?
         ==> st.hist[MaxCell(st.pcs[t].sample.syscall)] < st.pcs[t].sample.delta
  }

  lemma PendingStep(st: State, a: Action)
    requires PendingAbove(st) && !Overlap(st) && Enabled(st, a)
    ensures PendingAbove(Apply(st, a))
  {
    if !a.LoadMax? && !a.StoreMax? {
      MaximaUntouched(st, a);
      ComparedKept(st, a);
    }
  }

  /** At no point of the run do two exits of one syscall overlap there. */
  ghost predicate NeverOverlap(now: U64, run: seq<Action>)
    requires Exec(now, run).Some?
  {
    && !Overlap(Exec(now, run).value)
    && (|run| > 0 ==> NeverOverlap(now, run[..|run| - 1]))
  }

  lemma {:induction false} NoOverlapNeverStale(now: U64, run: seq<Action>)
    requires Exec(now, run).Some? && NeverOverlap(now, run)
    ensures PendingAbove(Exec(now, run).value) && NeverStale(now, run)
  {
    if |run| > 0 {
      NoOverlapNeverStale(now, run[..|run| - 1]);
      PendingStep(Exec(now, run[..|run| - 1]).value, run[|run| - 1]);
    }
  }

  /** Exits that do not overlap keep the maximum exact. */
  lemma SeparateExitsKeepMax(now: U64, run: seq<Action>, s: Syscall)
    requires Exec(now, run).Some? && NeverOverlap(now, run)
    ensures var st := Exec(now, run).value;
            && |st.hist| == CELLS
            && var d := Durations(st.samples.finished, s);
            |d| > 0 ==> IsMax(d, st.hist[MaxCell(s)])
  {
    NoOverlapNeverStale(now, run);
    MaxHoldsUnlessStale(now, run);
    Invariant(now, run);
    MaxOfFinished(Exec(now, run).value, s);
  }

  lemma MaxOfFinished(st: State, s: Syscall)
    requires MaxHolds(st) && MaxInv(st)
    ensures var d := Durations(st.samples.finished, s); |d| > 0 ==> IsMax(d, st.hist[MaxCell(s)])
  {
    QuiescentMax(st, s);
    var d := Durations(st.samples.finished, s);
    forall v | v in d
      ensures v <= st.hist[MaxCell(s)]
    {
      DurationsHas(st.samples.finished, s, v);
      var x := Sample(s, v);
      assert x in st.samples.finished && x.syscall == s;
    }
  }

  /** After exits none of which stored over a larger maximum, a syscall's summary is coherent with its durations. */
  lemma SummaryOfRun(now: U64, run: seq<Action>, s: Syscall, d: seq<U64>, sorted: seq<U64>)
    requires Exec(now, run).Some? && NoExitInProgress(Exec(now, run).value) && NeverStale(now, run)
    requires 99 * |Exec(now, run).value.samples.log| < TWO64
    requires d == Durations(Exec(now, run).value.samples.finished, s)
    requires |d| > 0 && Sum(d) < TWO64 && multiset(d) == multiset(sorted) && Ascending(sorted)
    ensures |Exec(now, run).value.hist| == CELLS && Coherent(d, Vector(Exec(now, run).value.hist, s))
  {
    QuiescentHistogram(now, run, s);
    FinishedBound(now, run, s);
    MaxHoldsUnlessStale(now, run);
    Invariant(now, run);
    MaxOfFinished(Exec(now, run).value, s);
    CoherentVector(Exec(now, run).value.hist, s, d, sorted);
  }

  /** In particular after exits that did not overlap. */
  lemma SummaryOfSeparateExits(now: U64, run: seq<Action>, s: Syscall, d: seq<U64>, sorted: seq<U64>)
    requires Exec(now, run).Some? && NoExitInProgress(Exec(now, run).value) && NeverOverlap(now, run)
    requires 99 * |Exec(now, run).value.samples.log| < TWO64
    requires d == Durations(Exec(now, run).value.samples.finished, s)
    requires |d| > 0 && Sum(d) < TWO64 && multiset(d) == multiset(sorted) && Ascending(sorted)
    ensures |Exec(now, run).value.hist| == CELLS && Coherent(d, Vector(Exec(now, run).value.hist, s))
  {
    NoOverlapNeverStale(now, run);
    SummaryOfRun(now, run, s, d, sorted);
  }

  lemma CoherentVector(hist: seq<U64>, s: Syscall, d: seq<U64>, sorted: seq<U64>)
    requires |hist| == CELLS && IsMax(d, hist[MaxCell(s)])
    requires Vector(hist, s)[..HIST_SLOTS] == Counts(d) && Vector(hist, s)[HIST_SLOTS] == Sum(d) % TWO64
    requires Sum(d) < TWO64 && 99 * |d| < TWO64
    requires multiset(d) == multiset(sorted) && Ascending(sorted)
    ensures Coherent(d, Vector(hist, s))
  {
    VectorCells(hist, s);
    SummaryCoherent(d, sorted, hist[MaxCell(s)], Vector(hist, s));
  }

  lemma FinishedBound(now: U64, run: seq<Action>, s: Syscall)
    requires Exec(now, run).Some? && NoExitInProgress(Exec(now, run).value)
    ensures |Durations(Exec(now, run).value.samples.finished, s)| <= |Exec(now, run).value.samples.log|
  {
    var st := Exec(now, run).value;
    Invariant(now, run);
    AllFinished(st);
    CountCellIsTally(st.samples.finished, s, 0);
    assert |multiset(st.samples.log)| == |st.samples.log|;
    assert |multiset(st.samples.finished)| == |st.samples.finished|;
  }
}
