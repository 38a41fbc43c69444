/** When a scan read each cell, and so what it says about sums, maxima and an array nobody writes to. */
module ScanCells {
  import opened Words
  import opened Buckets
  import opened NearestRank
  import opened LatencyModel
  import opened LatencyInvariants
  import opened LatencyTheorems

  /** The state before the `n`-th step of a run. */
  ghost function StateAt(now: U64, run: seq<Action>, n: nat): State {
    if n <= |run| && Exec(now, run[..n]).Some? then Exec(now, run[..n]).value else Init(now)
  }

  lemma {:induction false} PrefixRuns(now: U64, run: seq<Action>, n: nat)
    requires Exec(now, run).Some? && n <= |run|
    ensures Exec(now, run[..n]).Some?
    ensures n < |run| ==> Enabled(StateAt(now, run, n), run[n])
                          && StateAt(now, run, n + 1) == Apply(StateAt(now, run, n), run[n])
  {
    hide Enabled, Apply;
    if n == |run| {
      assert run[..n] == run;
    } else if n == |run| - 1 {
      assert run[..n + 1] == run;
    } else {
      var before := run[..|run| - 1];
      PrefixRuns(now, before, n);
      PrefixRuns(now, before, n + 1);
      assert before[..n] == run[..n] && before[..n + 1] == run[..n + 1];
    }
  }

  lemma LaterSame(now: U64, run: seq<Action>, n: nat)
    requires n < |run|
    ensures StateAt(now, run[..|run| - 1], n) == StateAt(now, run, n)
  {
    assert run[..|run| - 1][..n] == run[..n];
  }

  // ---- the moments of a scan

  /**
   The reader's scan, the `i`-th, began at step `b` of the run and read its `c`-th cell at step `m[c]`: the
   value it has is the one the cell held then, and its marks in the sample log are those of then.
   */
  ghost predicate ReadAtMoments(now: U64, run: seq<Action>, r: Reader, i: nat, b: nat, m: seq<nat>) {
    && r.Scanning? && b < |run| && run[b] == BeginScan && |StateAt(now, run, b).scans| == i
    && r.from == |StateAt(now, run, b).samples.log|
    && |m| == |r.values| == |r.readAt| <= CELLS
    && (forall c :: 0 <= c < |m| ==> b < m[c] < |run| && ReadThen(now, run, i, m[c], c, r.values[c], r.readAt[c]))
    && (forall c, d :: 0 <= c < d < |m| ==> m[c] < m[d])
  }

  /** Step `k` read cell `c`. */
  ghost predicate ReadThen(now: U64, run: seq<Action>, i: nat, k: nat, c: nat, value: U64, logged: nat) {
    && k < |run| && run[k] == ReadCell && |StateAt(now, run, k).scans| == i
    && c < |StateAt(now, run, k).hist| == CELLS && value == StateAt(now, run, k).hist[c]
    && logged == |StateAt(now, run, k).samples.log|
  }

  /** The `i`-th finished scan of a run began at step `b`, and step `m[c]` read cell `c`; `m[101]` finished it. */
  ghost predicate ScanTaken(now: U64, run: seq<Action>, i: nat, b: nat, m: seq<nat>) {
    && Exec(now, run).Some? && i < |Exec(now, run).value.scans|
    && var scan := Exec(now, run).value.scans[i];
    && ReadAtMoments(now, run, Scanning(scan.values, scan.readAt, scan.from), i, b, m)
    && |m| == CELLS && |StateAt(now, run, m[101] + 1).scans| == i + 1
    && scan.to == |StateAt(now, run, m[101]).samples.log|
  }

  lemma MomentsLonger(now: U64, run: seq<Action>, r: Reader, i: nat, b: nat, m: seq<nat>)
    requires |run| > 0 && ReadAtMoments(now, run[..|run| - 1], r, i, b, m)
    ensures ReadAtMoments(now, run, r, i, b, m)
  {
    hide StateAt;
    var before := run[..|run| - 1];
    LaterSame(now, run, b);
    forall c | 0 <= c < |m|
      ensures b < m[c] < |run| && ReadThen(now, run, i, m[c], c, r.values[c], r.readAt[c])
    {
      assert ReadThen(now, before, i, m[c], c, r.values[c], r.readAt[c]);
      LaterSame(now, run, m[c]);
    }
  }

  /** One more cell, read by the last step. */
  lemma MomentsNext(now: U64, run: seq<Action>, r: Reader, i: nat, b: nat, m: seq<nat>)
    requires |run| > 0 && run[|run| - 1] == ReadCell && ReadAtMoments(now, run[..|run| - 1], r, i, b, m)
    requires var st := StateAt(now, run, |run| - 1); |st.hist| == CELLS && |r.values| < CELLS && |st.scans| == i
    ensures var st := StateAt(now, run, |run| - 1);
            ReadAtMoments(now, run, Scanning(r.values + [st.hist[|r.values|]], r.readAt + [|st.samples.log|], r.from),
                          i, b, m + [|run| - 1])
  {
    hide StateAt;
    var n, st := |run| - 1, StateAt(now, run, |run| - 1);
    MomentsLonger(now, run, r, i, b, m);
    assert ReadThen(now, run, i, n, |r.values|, st.hist[|r.values|], |st.samples.log|);
  }

  /** Only the scan's own two steps touch the reader and the finished scans. */
  lemma ReaderKept(st: State, a: Action)
    requires Enabled(st, a) && !a.BeginScan? && !a.ReadCell?
    ensures Apply(st, a).reader == st.reader && Apply(st, a).scans == st.scans
  {
    hide AddTo, BucketCell, SumCell, MaxCell;
  }

  lemma {:induction false} ReaderMoments(now: U64, run: seq<Action>) returns (b: nat, m: seq<nat>)
    requires Exec(now, run).Some? && Exec(now, run).value.reader.Scanning?
    ensures var st := Exec(now, run).value; ReadAtMoments(now, run, st.reader, |st.scans|, b, m)
  {
    hide ReadAtMoments, ReadThen;
    var before, a := run[..|run| - 1], run[|run| - 1];
    var st := Exec(now, before).value;
    Invariant(now, before);
    if a.BeginScan? {
      b, m := |run| - 1, [];
      ScanBegins(now, run);
    } else {
      if !a.ReadCell? {
        ReaderKept(st, a);
      }
      b, m := ReaderMoments(now, before);
      if a.ReadCell? {
        MomentsNext(now, run, st.reader, |st.scans|, b, m);
        m := m + [|run| - 1];
      } else {
        MomentsLonger(now, run, st.reader, |st.scans|, b, m);
      }
    }
  }

  lemma ScanBegins(now: U64, run: seq<Action>)
    requires Exec(now, run).Some? && |run| > 0 && run[|run| - 1] == BeginScan
    ensures var st := Exec(now, run).value; ReadAtMoments(now, run, st.reader, |st.scans|, |run| - 1, [])
  {
  }

  /** Later steps leave a finished scan as it is. */
  lemma ScansStay(st: State, a: Action, i: nat)
    requires Enabled(st, a) && i < |st.scans|
    ensures i < |Apply(st, a).scans| && Apply(st, a).scans[i] == st.scans[i]
  {
    if !a.BeginScan? && !a.ReadCell? {
      ReaderKept(st, a);
    }
  }

  /** And a scan is finished by reading its 102nd cell. */
  lemma ScanEnds(st: State, a: Action)
    requires Enabled(st, a) && |Apply(st, a).scans| > |st.scans|
    ensures a == ReadCell && st.reader.Scanning? && |st.reader.values| < |st.hist|
    ensures |st.reader.values| == |st.reader.readAt|
        ==> Apply(st, a).scans == st.scans + [Scan(st.reader.values + [st.hist[|st.reader.values|]],
                                                   st.reader.readAt + [|st.samples.log|],
                                                   st.reader.from, |st.samples.log|)]
    ensures |st.reader.values| + 1 == |st.hist|
  {
    if !a.BeginScan? && !a.ReadCell? {
      ReaderKept(st, a);
    }
  }

  /** Every finished scan was taken so: each of its 102 values is what the cell held at one moment, in order. */
  lemma {:induction false} EveryScanTaken(now: U64, run: seq<Action>, i: nat) returns (b: nat, m: seq<nat>)
    requires Exec(now, run).Some? && i < |Exec(now, run).value.scans|
    ensures ScanTaken(now, run, i, b, m)
  {
    hide ReadThen, Apply, Enabled, StateAt;
    var before, a := run[..|run| - 1], run[|run| - 1];
    var st := Exec(now, before).value;
    if i < |st.scans| {
      ScansStay(st, a, i);
      b, m := EveryScanTaken(now, before, i);
      var scan := st.scans[i];
      MomentsLonger(now, run, Scanning(scan.values, scan.readAt, scan.from), i, b, m);
      LaterSame(now, run, m[101]);
      LaterSame(now, run, m[101] + 1);
    } else {
      ScanEnds(st, a);
      b, m := LastScanTaken(now, run);
    }
  }

  lemma LastScanTaken(now: U64, run: seq<Action>) returns (b: nat, m: seq<nat>)
    requires Exec(now, run).Some? && |run| > 0
    requires |Exec(now, run).value.scans| > |Exec(now, run[..|run| - 1]).value.scans|
    ensures var i := |Exec(now, run[..|run| - 1]).value.scans|;
            |Exec(now, run).value.scans| == i + 1 && ScanTaken(now, run, i, b, m)
  {
    hide ReadThen, Apply, Enabled;
    var before, a := run[..|run| - 1], run[|run| - 1];
    var st := Exec(now, before).value;
    Invariant(now, before);
    ScanEnds(st, a);
    b, m := ReaderMoments(now, before);
    MomentsNext(now, run, st.reader, |st.scans|, b, m);
    m := m + [|run| - 1];
    assert run[..|run|] == run;
  }

  // ---- what the cells held

  /** The moment a cell was read lies between the scan's start and its end. */
  lemma CellRead(now: U64, run: seq<Action>, i: nat, b: nat, m: seq<nat>, c: nat)
    requires ScanTaken(now, run, i, b, m) && c < CELLS
    ensures b < m[c] <= m[101] < |run| && |StateAt(now, run, m[c]).hist| == CELLS
    ensures Exec(now, run).value.scans[i].values[c] == StateAt(now, run, m[c]).hist[c]
  {
    hide StateAt, Exec;
    var scan := Exec(now, run).value.scans[i];
    assert ReadThen(now, run, i, m[c], c, scan.values[c], scan.readAt[c]);
  }

  /** No step from `b` up to `e` writes the array. */
  predicate NoWriteBetween(run: seq<Action>, b: nat, e: nat) {
    forall k :: b <= k < e && k < |run| ==> !run[k].AddBucket? && !run[k].AddSum? && !run[k].StoreMax?
  }

  lemma {:induction false} ArrayStays(now: U64, run: seq<Action>, b: nat, e: nat)
    requires Exec(now, run).Some? && b <= e <= |run| && NoWriteBetween(run, b, e)
    ensures StateAt(now, run, e).hist == StateAt(now, run, b).hist
    decreases e
  {
    hide StateAt, Enabled, Apply;
    if b < e {
      ArrayStays(now, run, b, e - 1);
      PrefixRuns(now, run, e - 1);
      WritersOfHist(StateAt(now, run, e - 1), run[e - 1]);
    }
  }

  /** A scan with no write between its start and its last read is a copy of the whole array. */
  lemma QuietScanIsExact(now: U64, run: seq<Action>, i: nat, b: nat, m: seq<nat>)
    requires ScanTaken(now, run, i, b, m) && NoWriteBetween(run, b, m[101])
    ensures Exec(now, run).value.scans[i].values == StateAt(now, run, b).hist == StateAt(now, run, m[101]).hist
  {
    hide StateAt, Exec;
    PrefixRuns(now, run, b);
    var values := Exec(now, run).value.scans[i].values;
    ArrayStays(now, run, b, m[101]);
    CellRead(now, run, i, b, m, 101);
    forall c | 0 <= c < CELLS
      ensures values[c] == StateAt(now, run, b).hist[c]
    {
      CellRead(now, run, i, b, m, c);
      ArrayStays(now, run, b, m[c]);
    }
  }

  /** The histories only grow. */
  ghost predicate Grown(x: Samples, y: Samples) {
    x.taken <= y.taken && x.log <= y.log && x.summed <= y.summed && x.finished <= y.finished
  }

  lemma StepGrows(st: State, a: Action)
    requires Enabled(st, a)
    ensures Grown(st.samples, Apply(st, a).samples)
  {
    hide AddTo, BucketCell, SumCell, MaxCell;
  }

  lemma {:induction false} HistoriesGrow(now: U64, run: seq<Action>, b: nat, e: nat)
    requires Exec(now, run).Some? && b <= e <= |run|
    ensures Grown(StateAt(now, run, b).samples, StateAt(now, run, e).samples)
    decreases e
  {
    hide StateAt, Enabled, Apply;
    if b < e {
      HistoriesGrow(now, run, b, e - 1);
      PrefixRuns(now, run, e - 1);
      StepGrows(StateAt(now, run, e - 1), run[e - 1]);
    }
  }

  lemma InvAt(now: U64, run: seq<Action>, n: nat)
    requires Exec(now, run).Some? && n <= |run|
    ensures Inv(StateAt(now, run, n))
  {
    PrefixRuns(now, run, n);
    Invariant(now, run[..n]);
  }

  /**
   Whatever runs meanwhile, a syscall's sum as scanned is the total, modulo 2^64, of the durations summed up to
   one moment between the scan's start and its end.
   */
  lemma ScannedSum(now: U64, run: seq<Action>, i: nat, b: nat, m: seq<nat>, s: Syscall)
    requires ScanTaken(now, run, i, b, m)
    ensures |Exec(now, run).value.scans[i].values| == 102
    ensures exists n ::
      && |StateAt(now, run, b).samples.summed| <= n <= |StateAt(now, run, m[101]).samples.summed|
      && n <= |Exec(now, run).value.samples.summed|
      && Exec(now, run).value.scans[i].values[s * 34 + 32]
         == Sum(Durations(Exec(now, run).value.samples.summed[..n], s)) % TWO64
  {
    hide Exec, StateAt, FlowInv, StartInv, MaxInv, ScanInv;
    var k := m[s * 34 + 32];
    CellRead(now, run, i, b, m, s * 34 + 32);
    InvAt(now, run, k);
    HistoriesGrow(now, run, b, k);
    HistoriesGrow(now, run, k, m[101]);
    HistoriesGrow(now, run, k, |run|);
    WholeRun(now, run);
    var st, n := StateAt(now, run, k), |StateAt(now, run, k).samples.summed|;
    assert st.hist[SumCell(s)] == SumFor(st.samples.summed, s) % TWO64;
    SumForIsSum(st.samples.summed, s);
    assert Exec(now, run).value.samples.summed[..n] == st.samples.summed;
  }

  lemma WholeRun(now: U64, run: seq<Action>)
    requires Exec(now, run).Some?
    ensures StateAt(now, run, |run|) == Exec(now, run).value
  {
    assert run[..|run|] == run;
  }

  /** And a syscall's maximum as scanned is 0 or a duration of it completed before the scan's end. */
  lemma ScannedMaximum(now: U64, run: seq<Action>, i: nat, b: nat, m: seq<nat>, s: Syscall)
    requires ScanTaken(now, run, i, b, m)
    ensures |Exec(now, run).value.scans[i].values| == 102
    ensures var v := Exec(now, run).value.scans[i].values[s * 34 + 33];
            && (v == 0 || Sample(s, v) in StateAt(now, run, m[101]).samples.finished)
            && (forall x :: x in StateAt(now, run, b).samples.finished && x.syscall == s && x.delta > 0 ==> v > 0)
  {
    hide Exec, StateAt, FlowInv, StartInv, HistInv, ScanInv;
    var k := m[s * 34 + 33];
    CellRead(now, run, i, b, m, s * 34 + 33);
    InvAt(now, run, k);
    HistoriesGrow(now, run, b, k);
    HistoriesGrow(now, run, k, m[101]);
    var st := StateAt(now, run, k);
    assert st.hist[MaxCell(s)] == st.hist[s * 34 + 33];
    assert Maxima(st.hist, st.samples.finished);
  }

  lemma {:induction false} MaxHeldBefore(now: U64, run: seq<Action>, n: nat)
    requires Exec(now, run).Some? && n <= |run| && MaxAlwaysHolds(now, run)
    ensures MaxHolds(StateAt(now, run, n))
  {
    if n == |run| {
      WholeRun(now, run);
    } else {
      MaxHeldBefore(now, run[..|run| - 1], n);
      LaterSame(now, run, n);
    }
  }

  /** Unless a store put back a smaller maximum, it is at least every duration completed before the scan began. */
  lemma ScannedMaximumBounds(now: U64, run: seq<Action>, i: nat, b: nat, m: seq<nat>, x: Sample)
    requires ScanTaken(now, run, i, b, m) && NeverStale(now, run)
    requires x in StateAt(now, run, b).samples.finished
    ensures |Exec(now, run).value.scans[i].values| == 102
    ensures x.delta <= Exec(now, run).value.scans[i].values[x.syscall * 34 + 33]
  {
    hide StateAt, Exec;
    var k := m[x.syscall * 34 + 33];
    CellRead(now, run, i, b, m, x.syscall * 34 + 33);
    MaxHoldsUnlessStale(now, run);
    MaxHeldBefore(now, run, k);
    HistoriesGrow(now, run, b, k);
    assert StateAt(now, run, k).hist[MaxCell(x.syscall)] == StateAt(now, run, k).hist[x.syscall * 34 + 33];
  }

  /** The row printed from a scan taken while nothing was written and no exit was under way. */
  lemma QuietScanSummary(now: U64, run: seq<Action>, i: nat, b: nat, m: seq<nat>, s: Syscall,
                         d: seq<U64>, sorted: seq<U64>)
    requires ScanTaken(now, run, i, b, m) && NoWriteBetween(run, b, m[101])
    requires Exec(now, run[..b]).Some? && NoExitInProgress(StateAt(now, run, b)) && NeverStale(now, run[..b])
    requires 99 * |StateAt(now, run, b).samples.log| < TWO64
    requires d == Durations(StateAt(now, run, b).samples.finished, s)
    requires |d| > 0 && Sum(d) < TWO64 && multiset(d) == multiset(sorted) && Ascending(sorted)
    ensures |Exec(now, run).value.scans[i].values| == CELLS
    ensures Coherent(d, Vector(Exec(now, run).value.scans[i].values, s))
  {
    hide Coherent, NoExitInProgress, NeverStale;
    QuietScanIsExact(now, run, i, b, m);
    SummaryOfRun(now, run[..b], s, d, sorted);
  }
}
