/** Runs that show the conditions of the latency theorems are needed. */
module LatencyWitnesses {
  import opened Words
  import opened Buckets
  import opened LatencyModel
  import opened LatencyInvariants
  import opened LatencyTheorems
  import opened LatencyPairing

  lemma Extend(run: seq<Action>, a: Action) returns (longer: seq<Action>)
    requires Exec(0, run).Some? && Enabled(Exec(0, run).value, a)
    ensures longer == run + [a] && Exec(0, longer) == Some(Apply(Exec(0, run).value, a))
  {
    longer := run + [a];
    assert longer[..|run|] == run;
  }

  /** A stored enter of thread `t`, a given time ago. */
  lemma Entered(run: seq<Action>, t: Tid, s: Syscall, dt: U64) returns (longer: seq<Action>)
    requires Exec(0, run).Some? && Exec(0, run).value.now + dt < TWO64
    requires t !in Exec(0, run).value.pcs && |Exec(0, run).value.start| < MAX_STARTS
    ensures Exec(0, longer).Some?
    ensures var st, st' := Exec(0, run).value, Exec(0, longer).value;
            && st'.now == st.now + dt && st'.start == st.start[t := st.now] && st'.pcs == st.pcs - {t}
            && st'.hist == st.hist && st'.samples == st.samples
            && st'.calls == Calls(st.calls.inside[t := Call(s, st.now, true, 0)], st.calls.returned)
  {
    hide Exec, AddTo, BucketCell, SumCell, MaxCell;
    longer := Extend(run, EnterRead(t, s));
    longer := Extend(longer, EnterStore(t, true, true));
    longer := Extend(longer, Tick(dt));
  }

  /** Thread `t` leaves and gets as far as having compared its duration with the maximum. */
  lemma Compares(run: seq<Action>, t: Tid, s: Syscall, x: Sample) returns (longer: seq<Action>)
    requires Exec(0, run).Some?
    requires var st := Exec(0, run).value;
             && |st.hist| == CELLS && t !in st.pcs && t in st.start && st.start[t] <= st.now
             && x == Sample(s, st.now - st.start[t]) && st.hist[MaxCell(s)] < x.delta
    ensures Exec(0, longer).Some?
    ensures var st, st' := Exec(0, run).value, Exec(0, longer).value;
            && st'.pcs == st.pcs[t := Compared(x)] && |st'.hist| == CELLS
            && st'.hist[MaxCell(s)] == st.hist[MaxCell(s)]
            && st'.start == st.start - {t} && st'.now == st.now
            && st'.samples.finished == st.samples.finished
  {
    longer := Measures(run, t, s, x);
    longer := Adds(longer, t, x);
  }

  lemma Measures(run: seq<Action>, t: Tid, s: Syscall, x: Sample) returns (longer: seq<Action>)
    requires Exec(0, run).Some?
    requires var st := Exec(0, run).value;
             && t !in st.pcs && t in st.start && st.start[t] <= st.now && x == Sample(s, st.now - st.start[t])
    ensures Exec(0, longer).Some?
    ensures var st, st' := Exec(0, run).value, Exec(0, longer).value;
            && st'.pcs == st.pcs[t := Measured(x)] && st'.hist == st.hist
            && st'.start == st.start - {t} && st'.now == st.now
            && st'.samples.taken == st.samples.taken + [x] && st'.samples.finished == st.samples.finished
            && st'.calls == Return(MeasuredAt(st.calls, t, st.now), t)
  {
    hide Exec, AddTo, BucketCell, SumCell, MaxCell, Return;
    longer := Times(run, t, s, x);
    longer := Extend(longer, ExitDelete(t));
  }

  lemma Times(run: seq<Action>, t: Tid, s: Syscall, x: Sample) returns (longer: seq<Action>)
    requires Exec(0, run).Some?
    requires var st := Exec(0, run).value;
             && t !in st.pcs && t in st.start && st.start[t] <= st.now && x == Sample(s, st.now - st.start[t])
    ensures Exec(0, longer).Some?
    ensures var st := Exec(0, run).value;
            Exec(0, longer).value == st.(pcs := st.pcs[t := Timed(x)], calls := MeasuredAt(st.calls, t, st.now))
  {
    hide Exec, AddTo, BucketCell, SumCell, MaxCell, MeasuredAt;
    longer := Extend(run, ExitLookup(t, s));
    longer := Extend(longer, ExitTime(t));
  }

  lemma Adds(run: seq<Action>, t: Tid, x: Sample) returns (longer: seq<Action>)
    requires Exec(0, run).Some?
    requires var st := Exec(0, run).value;
             && |st.hist| == CELLS && t in st.pcs && st.pcs[t] == Measured(x) && st.hist[MaxCell(x.syscall)] < x.delta
    ensures Exec(0, longer).Some?
    ensures var st, st' := Exec(0, run).value, Exec(0, longer).value;
            && st'.pcs == st.pcs[t := Compared(x)] && |st'.hist| == CELLS
            && st'.hist[MaxCell(x.syscall)] == st.hist[MaxCell(x.syscall)]
            && st'.start == st.start && st'.now == st.now
            && st'.samples.finished == st.samples.finished
  {
    CellsApart(x);
    longer := Extend(run, AddBucket(t));
    longer := Extend(longer, AddSum(t));
    longer := Extend(longer, LoadMax(t));
  }

  /** Two overlapping reads of 5 ns and 2 ns: when the shorter one stores last, the maximum shown is 2 ns. */
  lemma OverlapLosesMaximum() returns (run: seq<Action>)
    ensures Exec(0, run).Some? && NoExitInProgress(Exec(0, run).value)
    ensures var st := Exec(0, run).value;
            && st.samples.finished == [Sample(0, 5), Sample(0, 2)]
            && |st.hist| == CELLS && st.hist[MaxCell(0)] == 2
  {
    run := Entered([], 1, 0, 3);
    run := Entered(run, 2, 0, 2);
    run := Compares(run, 1, 0, Sample(0, 5));
    run := Compares(run, 2, 0, Sample(0, 2));
    run := StoresBoth(run);
  }

  lemma StoresBoth(run: seq<Action>) returns (longer: seq<Action>)
    requires Exec(0, run).Some?
    requires var st := Exec(0, run).value;
             && |st.hist| == CELLS && st.pcs == map[1 := Compared(Sample(0, 5)), 2 := Compared(Sample(0, 2))]
             && st.samples.finished == []
    ensures Exec(0, longer).Some? && Exec(0, longer).value.pcs == map[]
    ensures var st := Exec(0, longer).value;
            && st.samples.finished == [Sample(0, 5), Sample(0, 2)]
            && |st.hist| == CELLS && st.hist[MaxCell(0)] == 2
  {
    longer := Extend(run, StoreMax(1));
    longer := Extend(longer, StoreMax(2));
  }

  /**
   A thread enters a read; its exit is not seen. It then leaves a write entered before the write's enter
   hook was attached, and the write is measured from the read's entry.
   */
  lemma UnpairedExitMisattributes() returns (run: seq<Action>)
    ensures Exec(0, run).Some? && NoneMeasuring(Exec(0, run).value)
    ensures var st := Exec(0, run).value;
            && st.samples.taken == [Sample(1, 7)]
            && st.calls.returned == [Call(0, 0, true, 7)] && Owed(st.calls.returned) == [Sample(0, 7)]
    ensures !NeverStaleLookup(0, run) && !PairedRun(0, run)
  {
    run := Entered([], 1, 0, 7);
    run := Measures(run, 1, 1, Sample(1, 7));
    OwedAppend([], Call(0, 0, true, 7));
    OwnDurationsUnlessStale(0, run);
    if PairedRun(0, run) {
      Pairing(0, run);
    }
  }
}
