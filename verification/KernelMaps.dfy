/** The kernel's maps and the hooks that update them in place, one hook at a time. */
module KernelMaps {
  import opened Words
  import opened Buckets
  import opened LatencyModel
  import opened LatencyInvariants
  import opened LatencyTheorems

  const DROP_KEY_LATENCY: nat := 1

  /** What one uninterrupted exit does to the cells: count, add, and raise the maximum if exceeded. */
  function Record(hist: seq<U64>, x: Sample): (cells: seq<U64>)
    requires |hist| == CELLS
    ensures |cells| == CELLS
  {
    var added := AddTo(AddTo(hist, BucketCell(x), 1), SumCell(x.syscall), x.delta);
    if x.delta > added[MaxCell(x.syscall)] then added[MaxCell(x.syscall) := x.delta] else added
  }

  class LatencyMaps {
    var start: map<Tid, U64>
    const hist: array<U64>
    const drops: array<U64>

    ghost predicate Valid()
      reads this, hist, drops
    {
      hist.Length == CELLS && drops.Length == 3 && hist != drops && |start| <= MAX_STARTS
    }

    constructor ()
      ensures Valid() && fresh(hist) && fresh(drops)
      ensures start == map[] && hist[..] == seq(CELLS, i => 0) && drops[..] == [0, 0, 0]
    {
      start := map[];
      hist := new U64[CELLS](i => 0);
      drops := new U64[3](i => 0);
    }

    /** Counts in an existing cell; a key outside the array finds none. */
    method CountDrop(key: U32)
      requires Valid()
      modifies drops
      ensures drops[..] == if key < 3 then AddTo(old(drops[..]), key, 1) else old(drops[..])
    {
      if key < drops.Length {
        drops[key] := (drops[key] + 1) % TWO64;
      }
    }

    /** `bpf_map_update_elem` may fail (`ok`), and must when it would add an entry to a full map. */
    method SyscallEnter(key: Tid, ts: U64, allowed: bool, ok: bool)
      requires Valid() && (ok ==> key in start || |start| < 10240)
      modifies this`start, drops
      ensures Valid()
      ensures start == if allowed && ok then old(start)[key := ts] else old(start)
      ensures drops[..] == if allowed && !ok then old(drops[..])[1 := (old(drops[1]) + 1) % TWO64] else old(drops[..])
    {
      if !allowed {
        return;
      }
      if ok {
        MapAdd(start, key, ts);
        start := start[key := ts];
      } else {
        CountDrop(DROP_KEY_LATENCY);
      }
    }

    /** The two counters userspace looks at: the ring buffer's under key 0, the latency map's under key 1. */
    method ReadDrops() returns (ringbuf: U64, latency: U64)
      requires Valid()
      ensures ringbuf == drops[0] && latency == drops[1]
    {
      ringbuf := ReadDropKey(0);
      latency := ReadDropKey(1);
    }

    method ReadDropKey(key: U32) returns (value: U64)
      requires Valid()
      ensures value == if key < 3 then drops[key] else 0
    {
      return if key < drops.Length then drops[key] else 0;
    }

    method SyscallExit(syscall: Syscall, key: Tid, now: U64)
      requires Valid()
      modifies this`start, hist
      ensures Valid()
      ensures key !in old(start) ==> start == old(start) && hist[..] == old(hist[..])
      ensures key in old(start) ==>
                && start == old(start) - {key}
                && hist[..] == Record(old(hist[..]), Sample(syscall, (now - old(start)[key]) % TWO64))
    {
      if key !in start {
        return;
      }
      var delta: U64 := (now - start[key]) % TWO64;
      MapRemove(start, key);
      start := start - {key};

      var slot := Log2Slot(delta);
      if slot >= HIST_SLOTS {
        slot := HIST_SLOTS - 1;
      }
      FetchAndAdd(syscall * 34 + slot, 1);
      FetchAndAdd(syscall * 34 + HIST_SLOTS, delta);
      RaiseMax(syscall * 34 + HIST_SLOTS + 1, delta);
    }

    method RaiseMax(idx: nat, delta: U64)
      requires Valid() && idx < CELLS
      modifies hist
      ensures hist[..] == if delta > old(hist[idx]) then old(hist[..])[idx := delta] else old(hist[..])
    {
      if delta > hist[idx] {
        hist[idx] := delta;
      }
    }

    /** `__sync_fetch_and_add` on a cell of the array. */
    method FetchAndAdd(idx: nat, n: U64)
      requires Valid() && idx < CELLS
      modifies hist
      ensures hist[..] == AddTo(old(hist[..]), idx, n)
    {
      hist[idx] := (hist[idx] + n) % TWO64;
    }

    /** `read_histogram` (and the dashboard's `refresh_latency`), with no hook running meanwhile. */
    method ReadHistogram() returns (histogram: seq<seq<U64>>)
      requires Valid()
      ensures |histogram| == SYSCALL_COUNT
      ensures forall s: Syscall :: histogram[s] == Vector(hist[..], s)
    {
      histogram := [];
      for syscall := 0 to SYSCALL_COUNT
        invariant |histogram| == syscall
        invariant forall s: Syscall :: s < syscall ==> histogram[s] == Vector(hist[..], s)
      {
        var slots: seq<U64> := [];
        for slot := 0 to LATENCY_SLOTS
          invariant slots == hist[syscall * 34..syscall * 34 + slot]
        {
          slots := slots + [hist[syscall * 34 + slot]];
        }
        histogram := histogram + [slots];
      }
    }
  }

  /** The flat array behaves as three separate histograms: an exit touches no other syscall's vector. */
  lemma ExitKeepsOtherVectors(hist: seq<U64>, x: Sample, s: Syscall)
    requires |hist| == CELLS && s != x.syscall
    ensures Vector(Record(hist, x), s) == Vector(hist, s)
  {
    VectorCells(hist, s);
    VectorCells(Record(hist, x), s);
    forall k | 0 <= k < LATENCY_SLOTS
      ensures Record(hist, x)[Cell(s, k)] == hist[Cell(s, k)]
    {
      CellBijection(s, k, x.syscall, Bucket(x.delta), 0);
      CellBijection(s, k, x.syscall, HIST_SLOTS, 0);
      CellBijection(s, k, x.syscall, HIST_SLOTS + 1, 0);
    }
  }

  /** ... and its own vector is the one that counts one more duration. */
  lemma ExitUpdatesOwnVector(hist: seq<U64>, x: Sample)
    requires |hist| == CELLS
    ensures var v, v', b := Vector(hist, x.syscall), Vector(Record(hist, x), x.syscall), Bucket(x.delta);
            v' == v[b := (v[b] + 1) % TWO64]
                   [32 := (v[32] + x.delta) % TWO64]
                   [33 := if x.delta > v[33] then x.delta else v[33]]
  {
    VectorCells(hist, x.syscall);
    VectorCells(Record(hist, x), x.syscall);
  }

  /**
   The method is the uninterrupted run of the machine's steps: when nothing else happens between the
   lookup and the store, the seven steps leave the cells and the start map as `SyscallExit` does.
   */
  lemma UninterruptedExit(st: State, t: Tid, s: Syscall) returns (last: State)
    requires |st.hist| == CELLS && t !in st.pcs && t in st.start
    ensures var x := Sample(s, (st.now - st.start[t]) % TWO64);
            && Enabled(st, ExitLookup(t, s)) && ReachedFrom(Apply(st, ExitLookup(t, s)), t, last)
            && t !in last.pcs && last.hist == Record(st.hist, x) && last.start == st.start - {t}
            && last.samples.finished == st.samples.finished + [x]
  {
    var a := Apply(st, ExitLookup(t, s));
    var b := Apply(a, ExitTime(t));
    var c := Apply(b, ExitDelete(t));
    last := RecordingPart(c, t, Sample(s, (st.now - st.start[t]) % TWO64));
    assert ReachedFrom(b, t, last);
    assert ReachedFrom(a, t, last);
  }

  lemma RecordingPart(st: State, t: Tid, x: Sample) returns (last: State)
    requires |st.hist| == CELLS && t in st.pcs && st.pcs[t] == Measured(x)
    ensures ReachedFrom(st, t, last)
    ensures t !in last.pcs && last.hist == Record(st.hist, x) && last.start == st.start
    ensures last.samples.finished == st.samples.finished + [x]
  {
    var d := Apply(st, AddBucket(t));
    var e := Apply(d, AddSum(t));
    last := MaximumPart(e, t, x);
    assert ReachedFrom(d, t, last);
    assert e.hist == AddTo(AddTo(st.hist, BucketCell(x), 1), SumCell(x.syscall), x.delta);
  }

  lemma MaximumPart(st: State, t: Tid, x: Sample) returns (last: State)
    requires |st.hist| == CELLS && t in st.pcs && st.pcs[t] == Summed(x)
    ensures ReachedFrom(st, t, last)
    ensures t !in last.pcs && last.start == st.start
    ensures last.hist == if x.delta > st.hist[MaxCell(x.syscall)] then st.hist[MaxCell(x.syscall) := x.delta] else st.hist
    ensures last.samples.finished == st.samples.finished + [x]
  {
    last := Apply(st, LoadMax(t));
    if x.delta > st.hist[MaxCell(x.syscall)] {
      var f := last;
      last := Apply(f, StoreMax(t));
      assert ReachedFrom(f, t, last);
    }
  }

  /** Thread `t` alone, step after step, until its exit is over. */
  ghost predicate ReachedFrom(st: State, t: Tid, last: State)
    decreases StepsLeft(st, t)
  {
    if t !in st.pcs then last == st
    else
      var a := NextStep(st.pcs[t], t);
      && Enabled(st, a) && !a.EnterStore?
      && (OneStepLess(st, t);
          ReachedFrom(Apply(st, a), t, last))
  }

  lemma OneStepLess(st: State, t: Tid)
    requires t in st.pcs && Enabled(st, NextStep(st.pcs[t], t))
    ensures StepsLeft(Apply(st, NextStep(st.pcs[t], t)), t) < StepsLeft(st, t)
  {
    hide AddTo, BucketCell, SumCell, MaxCell;
  }

  function NextStep(pc: Pc, t: Tid): Action {
    match pc
    case Entering(_, _) => EnterStore(t, false, false)
    case Found(_) => ExitTime(t)
    case Timed(_) => ExitDelete(t)
    case Measured(_) => AddBucket(t)
    case Counted(_) => AddSum(t)
    case Summed(_) => LoadMax(t)
    case Compared(_) => StoreMax(t)
  }

  function StepsLeft(st: State, t: Tid): nat {
    if t !in st.pcs then 0
    else
      match st.pcs[t]
      case Entering(_, _) => 1
      case Found(_) => 6
      case Timed(_) => 5
      case Measured(_) => 4
      case Counted(_) => 3
      case Summed(_) => 2
      case Compared(_) => 1
  }
}
