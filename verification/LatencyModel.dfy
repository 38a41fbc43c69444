/**
 The in-kernel latency pipeline as a state machine. Every action is one step of one thread's hook
 (`syscall_enter`, `syscall_exit`) or of the userspace scan, so that any number of hooks and one
 scan interleave freely. The fields after `reader` are history: no action looks at them.
 */
module LatencyModel {
  import opened Words
  import opened Buckets

  const SYSCALL_COUNT: nat := 3
  const LATENCY_SLOTS: nat := 34    // 32 buckets, the sum and the maximum
  const CELLS: nat := 102           // SYSCALL_COUNT * LATENCY_SLOTS
  const MAX_STARTS: nat := 10240

  type Tid = U64
  type Syscall = s: nat | s < 3

  datatype Sample = Sample(syscall: Syscall, delta: U64)

  /** Where a thread is inside a hook; a thread that is in none has no entry. */
  datatype Pc =
    | Entering(syscall: Syscall, ts: U64)   // clock read, filter and map update to come
    | Found(syscall: Syscall)               // start entry found
    | Timed(sample: Sample)                 // duration computed, entry not yet deleted
    | Measured(sample: Sample)              // entry deleted
    | Counted(sample: Sample)               // bucket incremented
    | Summed(sample: Sample)                // sum increased
    | Compared(sample: Sample)              // duration seen to exceed the maximum, store to come

  /** A system call a thread has entered and not left, as the tracepoints saw it. */
  datatype Call = Call(syscall: Syscall, enteredAt: U64, stored: bool, measuredAt: U64)

  /** A finished scan: the value of each cell and how long the sample log was when it was read. */
  datatype Scan = Scan(values: seq<U64>, readAt: seq<nat>, from: nat, to: nat)

  datatype Reader = Resting | Scanning(values: seq<U64>, readAt: seq<nat>, from: nat)

  // ---- history

  /** The durations that have reached each stage of an exit, in the order they reached it. */
  datatype Samples = Samples(
    taken: seq<Sample>,       // start entry deleted
    log: seq<Sample>,         // counted in a bucket
    summed: seq<Sample>,      // added to a sum
    finished: seq<Sample>)    // exit completed

  /** How many enters passed the filter, and of those how many replaced an entry or failed to store one. */
  datatype Ledger = Ledger(allowed: nat, overwritten: nat, failed: nat)

  /** The system calls threads are in, and those they have returned from. */
  datatype Calls = Calls(inside: map<Tid, Call>, returned: seq<Call>)

  datatype State = State(
    now: U64,
    pcs: map<Tid, Pc>,
    start: map<Tid, U64>,
    hist: seq<U64>,
    latencyDrops: U64,
    reader: Reader,
    samples: Samples,
    ledger: Ledger,
    calls: Calls,
    scans: seq<Scan>)

  datatype Action =
    | Tick(dt: U64)
    | EnterRead(t: Tid, s: Syscall)
    | EnterStore(t: Tid, allowed: bool, updateOk: bool)
    | ExitLookup(t: Tid, s: Syscall)
    | ExitTime(t: Tid)
    | ExitDelete(t: Tid)
    | AddBucket(t: Tid)
    | AddSum(t: Tid)
    | LoadMax(t: Tid)
    | StoreMax(t: Tid)
    | BeginScan
    | ReadCell

  function Cell(s: Syscall, slot: nat): (c: nat)
    requires slot < LATENCY_SLOTS
    ensures c < CELLS
  {
    s * 34 + slot
  }

  function BucketCell(x: Sample): (c: nat)
    ensures c < CELLS
  {
    Cell(x.syscall, Bucket(x.delta))
  }

  function SumCell(s: Syscall): (c: nat)
    ensures c < CELLS
  {
    Cell(s, HIST_SLOTS)
  }

  function MaxCell(s: Syscall): (c: nat)
    ensures c < CELLS
  {
    Cell(s, HIST_SLOTS + 1)
  }

  /** `__sync_fetch_and_add` on one cell: the addition wraps. */
  function AddTo(hist: seq<U64>, c: nat, n: U64): seq<U64>
    requires c < |hist|
  {
    hist[c := (hist[c] + n) % TWO64]
  }

  function Init(now: U64): State {
    State(now, map[], map[], seq(CELLS, i => 0), 0, Resting, Samples([], [], [], []), Ledger(0, 0, 0), Calls(map[], []), [])
  }

  predicate In(st: State, t: Tid) { t in st.pcs }

  /**
   Which actions can happen. A thread runs one hook at a time. A map update that would add the
   10241st entry fails; any other may fail or not.
   */
  predicate Enabled(st: State, a: Action) {
    match a
    case Tick(dt) => st.now + dt < TWO64
    case EnterRead(t, s) => t !in st.pcs
    case EnterStore(t, allowed, ok) =>
      && In(st, t) && st.pcs[t].Entering?
      && (allowed && ok ==> t in st.start || |st.start| < MAX_STARTS)
    case ExitLookup(t, s) => t !in st.pcs
    case ExitTime(t) => In(st, t) && st.pcs[t].Found? && t in st.start
    case ExitDelete(t) => In(st, t) && st.pcs[t].Timed?
    case AddBucket(t) => In(st, t) && st.pcs[t].Measured? && |st.hist| == CELLS
    case AddSum(t) => In(st, t) && st.pcs[t].Counted? && |st.hist| == CELLS
    case LoadMax(t) => In(st, t) && st.pcs[t].Summed? && |st.hist| == CELLS
    case StoreMax(t) => In(st, t) && st.pcs[t].Compared? && |st.hist| == CELLS
    case BeginScan => st.reader.Resting?
    case ReadCell => st.reader.Scanning? && |st.reader.values| < |st.hist|
  }

  function Apply(st: State, a: Action): State
    requires Enabled(st, a)
  {
    match a
    case Tick(dt) => st.(now := st.now + dt)
    case EnterRead(t, s) =>
      st.(pcs := st.pcs[t := Entering(s, st.now)],
          calls := Calls(st.calls.inside[t := Call(s, st.now, false, 0)], st.calls.returned))
    case EnterStore(t, allowed, ok) => ApplyStore(st, t, allowed, ok)
    case ExitLookup(t, s) =>
      if t in st.start then st.(pcs := st.pcs[t := Found(s)])
      else st.(calls := Return(st.calls, t))
    case ExitTime(t) =>
      st.(pcs := st.pcs[t := Timed(Sample(st.pcs[t].syscall, (st.now - st.start[t]) % TWO64))],
          calls := MeasuredAt(st.calls, t, st.now))
    case ExitDelete(t) =>
      st.(pcs := st.pcs[t := Measured(st.pcs[t].sample)], start := st.start - {t},
          samples := st.samples.(taken := st.samples.taken + [st.pcs[t].sample]),
          calls := Return(st.calls, t))
    case AddBucket(t) =>
      var x := st.pcs[t].sample;
      st.(pcs := st.pcs[t := Counted(x)], hist := AddTo(st.hist, BucketCell(x), 1),
          samples := st.samples.(log := st.samples.log + [x]))
    case AddSum(t) =>
      var x := st.pcs[t].sample;
      st.(pcs := st.pcs[t := Summed(x)], hist := AddTo(st.hist, SumCell(x.syscall), x.delta),
          samples := st.samples.(summed := st.samples.summed + [x]))
    case LoadMax(t) =>
      var x := st.pcs[t].sample;
      if x.delta > st.hist[MaxCell(x.syscall)] then st.(pcs := st.pcs[t := Compared(x)])
      else st.(pcs := st.pcs - {t}, samples := Finish(st.samples, x))
    case StoreMax(t) =>
      var x := st.pcs[t].sample;
      st.(pcs := st.pcs - {t}, hist := st.hist[MaxCell(x.syscall) := x.delta], samples := Finish(st.samples, x))
    case BeginScan => st.(reader := Scanning([], [], |st.samples.log|))
    case ReadCell => ApplyRead(st)
  }

  function Finish(samples: Samples, x: Sample): Samples {
    samples.(finished := samples.finished + [x])
  }

  /** Thread `t` leaves the call it is in. */
  function Return(calls: Calls, t: Tid): Calls {
    if t in calls.inside then Calls(calls.inside - {t}, calls.returned + [calls.inside[t]]) else calls
  }

  function MeasuredAt(calls: Calls, t: Tid, now: U64): Calls {
    if t in calls.inside then calls.(inside := calls.inside[t := calls.inside[t].(measuredAt := now)]) else calls
  }

  function Stored(calls: Calls, t: Tid): Calls {
    if t in calls.inside then calls.(inside := calls.inside[t := calls.inside[t].(stored := true)]) else calls
  }

  function ApplyStore(st: State, t: Tid, allowed: bool, ok: bool): State
    requires In(st, t) && st.pcs[t].Entering?
  {
    var left := st.(pcs := st.pcs - {t});
    if !allowed then left
    else if !ok then
      left.(latencyDrops := (st.latencyDrops + 1) % TWO64,
            ledger := Ledger(st.ledger.allowed + 1, st.ledger.overwritten, st.ledger.failed + 1))
    else
      left.(start := st.start[t := st.pcs[t].ts], calls := Stored(st.calls, t),
            ledger := Ledger(st.ledger.allowed + 1,
                             st.ledger.overwritten + (if t in st.start then 1 else 0), st.ledger.failed))
  }

  /** The next cell, in index order; the 102nd completes the scan. */
  function ApplyRead(st: State): State
    requires st.reader.Scanning? && |st.reader.values| < |st.hist|
  {
    var values := st.reader.values + [st.hist[|st.reader.values|]];
    var readAt := st.reader.readAt + [|st.samples.log|];
    if |values| == |st.hist|
    then st.(reader := Resting, scans := st.scans + [Scan(values, readAt, st.reader.from, |st.samples.log|)])
    else st.(reader := Scanning(values, readAt, st.reader.from))
  }

  /** The state a run reaches, if every one of its actions is enabled in turn. */
  function Exec(now: U64, run: seq<Action>): Option<State> {
    if |run| == 0 then Some(Init(now))
    else
      match Exec(now, run[..|run| - 1])
      case None => None
      case Some(st) => if Enabled(st, run[|run| - 1]) then Some(Apply(st, run[|run| - 1])) else None
  }
}
