/** What every action of the latency pipeline keeps. */
module LatencyInvariants {
  import opened Words
  import opened Buckets
  import opened LatencyModel

  // ---- the flat array

  /** `syscall * 34 + slot` is a bijection from syscalls and slots onto 0..101. */
  lemma CellBijection(s: Syscall, slot: nat, s': Syscall, slot': nat, c: nat)
    requires slot < LATENCY_SLOTS && slot' < LATENCY_SLOTS && c < CELLS
    ensures Cell(s, slot) == Cell(s', slot') <==> s == s' && slot == slot'
    ensures c / 34 < SYSCALL_COUNT && Cell(c / 34, c % 34) == c
    ensures IsBucketCell(Cell(s, slot)) <==> slot < HIST_SLOTS
  {
  }

  predicate IsBucketCell(c: nat) { c % 34 < 32 }

  /** How many samples were counted in cell `c`. */
  function CountCell(log: seq<Sample>, c: nat): nat {
    if |log| == 0 then 0 else CountCell(log[..|log| - 1], c) + (if BucketCell(log[|log| - 1]) == c then 1 else 0)
  }

  function SumFor(xs: seq<Sample>, s: Syscall): nat {
    if |xs| == 0 then 0
    else SumFor(xs[..|xs| - 1], s) + (if xs[|xs| - 1].syscall == s then xs[|xs| - 1].delta else 0)
  }

  lemma CountCellAppend(log: seq<Sample>, x: Sample, c: nat)
    ensures CountCell(log + [x], c) == CountCell(log, c) + (if BucketCell(x) == c then 1 else 0)
  {
    assert (log + [x])[..|log|] == log;
  }

  lemma SumForAppend(xs: seq<Sample>, x: Sample, s: Syscall)
    ensures SumFor(xs + [x], s) == SumFor(xs, s) + (if x.syscall == s then x.delta else 0)
  {
    assert (xs + [x])[..|xs|] == xs;
  }

  /** Every bucket cell counts the log and every sum cell adds up `summed`, modulo 2^64. */
  ghost predicate CellsTally(hist: seq<U64>, log: seq<Sample>, summed: seq<Sample>) {
    && |hist| == CELLS
    && (forall c :: 0 <= c < CELLS && IsBucketCell(c) ==> hist[c] == CountCell(log, c) % TWO64)
    && (forall s: Syscall :: hist[SumCell(s)] == SumFor(summed, s) % TWO64)
  }

  lemma CountTallied(hist: seq<U64>, log: seq<Sample>, summed: seq<Sample>, x: Sample)
    requires CellsTally(hist, log, summed)
    ensures CellsTally(AddTo(hist, BucketCell(x), 1), log + [x], summed)
  {
    hide CountCell, SumFor, BucketCell, SumCell;
    var hist' := AddTo(hist, BucketCell(x), 1);
    BucketIsNotSum(x);
    forall c | 0 <= c < CELLS && IsBucketCell(c)
      ensures hist'[c] == CountCell(log + [x], c) % TWO64
    {
      CountCellAppend(log, x, c);
      WrapAdd(CountCell(log, c), 1);
    }
  }

  lemma BucketIsNotSum(x: Sample)
    ensures IsBucketCell(BucketCell(x)) && forall s: Syscall :: SumCell(s) != BucketCell(x) && !IsBucketCell(SumCell(s))
  {
    hide Bucket;
  }

  lemma SumTallied(hist: seq<U64>, log: seq<Sample>, summed: seq<Sample>, x: Sample)
    requires CellsTally(hist, log, summed)
    ensures CellsTally(AddTo(hist, SumCell(x.syscall), x.delta), log, summed + [x])
  {
    hide CountCell, SumFor, BucketCell;
    var hist' := AddTo(hist, SumCell(x.syscall), x.delta);
    forall s: Syscall
      ensures hist'[SumCell(s)] == SumFor(summed + [x], s) % TWO64
    {
      SumForAppend(summed, x, s);
      WrapAdd(SumFor(summed, s), x.delta);
    }
  }

  lemma MaxLeavesTallies(hist: seq<U64>, log: seq<Sample>, summed: seq<Sample>, x: Sample)
    requires CellsTally(hist, log, summed)
    ensures CellsTally(hist[MaxCell(x.syscall) := x.delta], log, summed)
  {
  }

  ghost predicate HistInv(st: State) { CellsTally(st.hist, st.samples.log, st.samples.summed) }

  /** Only three kinds of step write the array. */
  lemma WritersOfHist(st: State, a: Action)
    requires Enabled(st, a) && !a.AddBucket? && !a.AddSum? && !a.StoreMax?
    ensures Apply(st, a).hist == st.hist && Apply(st, a).samples.log == st.samples.log && Apply(st, a).samples.summed == st.samples.summed
  {
    hide AddTo, BucketCell, SumCell, MaxCell;
  }

  lemma HistStep(st: State, a: Action)
    requires HistInv(st) && Enabled(st, a)
    ensures HistInv(Apply(st, a))
  {
    match a
    case AddBucket(t) => CountTallied(st.hist, st.samples.log, st.samples.summed, st.pcs[t].sample);
    case AddSum(t) => SumTallied(st.hist, st.samples.log, st.samples.summed, st.pcs[t].sample);
    case StoreMax(t) => MaxLeavesTallies(st.hist, st.samples.log, st.samples.summed, st.pcs[t].sample);
    case _ => WritersOfHist(st, a);
  }

  // ---- which samples are where

  /** The threads at program counter `pc`. */
  function At(pcs: map<Tid, Pc>, pc: Pc): set<Tid> {
    set t | t in pcs && pcs[t] == pc
  }

  lemma AtMove(pcs: map<Tid, Pc>, t: Tid, q: Pc, pc: Pc)
    ensures |At(pcs[t := q], pc)|
         == |At(pcs, pc)| - (if t in pcs && pcs[t] == pc then 1 else 0) + (if q == pc then 1 else 0)
  {
    AtElsewhere(pcs, t, q, pc);
    SetWithout(At(pcs, pc), t);
    SetWithout(At(pcs[t := q], pc), t);
  }

  lemma AtElsewhere(pcs: map<Tid, Pc>, t: Tid, q: Pc, pc: Pc)
    ensures At(pcs[t := q], pc) - {t} == At(pcs, pc) - {t}
  {
  }

  lemma AtLeave(pcs: map<Tid, Pc>, t: Tid, pc: Pc)
    ensures |At(pcs - {t}, pc)| == |At(pcs, pc)| - (if t in pcs && pcs[t] == pc then 1 else 0)
  {
    AtWithout(pcs, t, pc);
    SetWithout(At(pcs, pc), t);
  }

  lemma AtWithout(pcs: map<Tid, Pc>, t: Tid, pc: Pc)
    ensures At(pcs - {t}, pc) == At(pcs, pc) - {t}
  {
  }

  lemma SetWithout(ts: set<Tid>, t: Tid)
    ensures |ts - {t}| == |ts| - (if t in ts then 1 else 0)
  {
    if t in ts {
      assert ts == (ts - {t}) + {t};
    } else {
      assert ts == ts - {t};
    }
  }

  function Occurs(xs: seq<Sample>, x: Sample): nat { multiset(xs)[x] }

  lemma OccursAppend(xs: seq<Sample>, y: Sample, x: Sample)
    ensures Occurs(xs + [y], x) == Occurs(xs, x) + (if x == y then 1 else 0)
  {
  }

  /** Samples only move forward: whatever has left one stage but not reached the next is in a thread between them. */
  ghost predicate FlowAt(st: State, x: Sample) {
    && Occurs(st.samples.taken, x) == Occurs(st.samples.log, x) + Population(st.pcs, x).measured
    && Occurs(st.samples.log, x) == Occurs(st.samples.summed, x) + Population(st.pcs, x).counted
    && Occurs(st.samples.summed, x) == Occurs(st.samples.finished, x) + Population(st.pcs, x).summed
  }

  /** How many threads hold sample `x` at each stage between two histories. */
  datatype Held = Held(measured: nat, counted: nat, summed: nat)

  function Population(pcs: map<Tid, Pc>, x: Sample): Held {
    Held(|At(pcs, Measured(x))|, |At(pcs, Counted(x))|, |At(pcs, Summed(x))| + |At(pcs, Compared(x))|)
  }

  /** What one thread contributes to it. */
  function Holding(pc: Option<Pc>, x: Sample): Held {
    match pc
    case Some(Measured(y)) => Held(if x == y then 1 else 0, 0, 0)
    case Some(Counted(y)) => Held(0, if x == y then 1 else 0, 0)
    case Some(Summed(y)) => Held(0, 0, if x == y then 1 else 0)
    case Some(Compared(y)) => Held(0, 0, if x == y then 1 else 0)
    case _ => Held(0, 0, 0)
  }

  function PcOf(pcs: map<Tid, Pc>, t: Tid): Option<Pc> {
    if t in pcs then Some(pcs[t]) else None
  }

  /** Only thread `t`'s program counter differs. */
  ghost predicate Moved(pcs: map<Tid, Pc>, pcs': map<Tid, Pc>, t: Tid) {
    pcs' == (if t in pcs' then pcs[t := pcs'[t]] else pcs - {t})
  }

  lemma PopulationMoves(pcs: map<Tid, Pc>, pcs': map<Tid, Pc>, t: Tid, x: Sample)
    requires Moved(pcs, pcs', t)
    ensures var (p, p') := (Population(pcs, x), Population(pcs', x));
            var (h, h') := (Holding(PcOf(pcs, t), x), Holding(PcOf(pcs', t), x));
            && p'.measured == p.measured - h.measured + h'.measured
            && p'.counted == p.counted - h.counted + h'.counted
            && p'.summed == p.summed - h.summed + h'.summed
  {
    AtMoved(pcs, pcs', t, Measured(x));
    AtMoved(pcs, pcs', t, Counted(x));
    AtMoved(pcs, pcs', t, Summed(x));
    AtMoved(pcs, pcs', t, Compared(x));
  }

  lemma AtMoved(pcs: map<Tid, Pc>, pcs': map<Tid, Pc>, t: Tid, pc: Pc)
    requires Moved(pcs, pcs', t)
    ensures |At(pcs', pc)| == |At(pcs, pc)| - (if PcOf(pcs, t) == Some(pc) then 1 else 0)
                                            + (if PcOf(pcs', t) == Some(pc) then 1 else 0)
  {
    if t in pcs' {
      AtMove(pcs, t, pcs'[t], pc);
    } else {
      AtLeave(pcs, t, pc);
    }
  }

  ghost predicate FlowInv(st: State) {
    forall x :: FlowAt(st, x)
  }

  function Mover(a: Action): Tid {
    match a
    case Tick(_) | BeginScan | ReadCell => 0
    case EnterRead(t, _) => t
    case EnterStore(t, _, _) => t
    case ExitLookup(t, _) => t
    case ExitTime(t) => t
    case ExitDelete(t) => t
    case AddBucket(t) => t
    case AddSum(t) => t
    case LoadMax(t) => t
    case StoreMax(t) => t
  }

  /** A step moves one thread, and extends the history between the stages it moves it across. */
  lemma StepMoves(st: State, a: Action)
    requires Enabled(st, a)
    ensures Moved(st.pcs, Apply(st, a).pcs, Mover(a))
  {
    if InExit(a) {
      ExitMoves(st, a);
    } else {
      OtherMoves(st, a);
    }
  }

  lemma ExitMoves(st: State, a: Action)
    requires Enabled(st, a) && InExit(a)
    ensures Moved(st.pcs, Apply(st, a).pcs, Mover(a))
  {
    hide AddTo, BucketCell, SumCell, MaxCell;
  }

  lemma OtherMoves(st: State, a: Action)
    requires Enabled(st, a) && !InExit(a)
    ensures Moved(st.pcs, Apply(st, a).pcs, Mover(a))
  {
    hide AddTo, BucketCell, SumCell, MaxCell;
  }

  /** The change in each history matches what the moving thread held before (`h`) and after (`h'`). */
  ghost predicate Recorded(st: State, st': State, h: Held, h': Held, x: Sample) {
    && Occurs(st'.samples.taken, x) - Occurs(st.samples.taken, x)
       == Occurs(st'.samples.log, x) - Occurs(st.samples.log, x) + h'.measured - h.measured
    && Occurs(st'.samples.log, x) - Occurs(st.samples.log, x)
       == Occurs(st'.samples.summed, x) - Occurs(st.samples.summed, x) + h'.counted - h.counted
    && Occurs(st'.samples.summed, x) - Occurs(st.samples.summed, x)
       == Occurs(st'.samples.finished, x) - Occurs(st.samples.finished, x) + h'.summed - h.summed
  }

  predicate InExit(a: Action) {
    a.ExitDelete? || a.AddBucket? || a.AddSum? || a.LoadMax? || a.StoreMax?
  }

  lemma StepRecords(st: State, a: Action, x: Sample)
    requires Enabled(st, a)
    ensures Recorded(st, Apply(st, a), Holding(PcOf(st.pcs, Mover(a)), x), Holding(PcOf(Apply(st, a).pcs, Mover(a)), x), x)
  {
    if InExit(a) {
      ExitRecords(st, a, x);
    } else {
      OtherRecords(st, a);
      OtherHoldsNothing(st, a, x);
    }
  }

  lemma OtherRecords(st: State, a: Action)
    requires Enabled(st, a) && !InExit(a)
    ensures Apply(st, a).samples == st.samples
  {
    hide AddTo, BucketCell, SumCell, MaxCell;
  }

  lemma OtherHoldsNothing(st: State, a: Action, x: Sample)
    requires Enabled(st, a) && !InExit(a)
    ensures Holding(PcOf(st.pcs, Mover(a)), x) == Holding(PcOf(Apply(st, a).pcs, Mover(a)), x)
  {
    match a
    case Tick(_) | BeginScan | ReadCell => assert Apply(st, a).pcs == st.pcs;
    case EnterRead(t, _) => 
    case EnterStore(t, _, _) => 
    case ExitLookup(t, _) => 
    case ExitTime(t) => 
  }

  lemma ExitRecords(st: State, a: Action, x: Sample)
    requires Enabled(st, a) && InExit(a)
    ensures Recorded(st, Apply(st, a), Holding(PcOf(st.pcs, Mover(a)), x), Holding(PcOf(Apply(st, a).pcs, Mover(a)), x), x)
  {
    match a
    case ExitDelete(t) => DeleteRecords(st, t, x);
    case AddBucket(t) => CountRecords(st, t, x);
    case AddSum(t) => SumRecords(st, t, x);
    case LoadMax(t) => LoadRecords(st, t, x);
    case StoreMax(t) => StoreRecords(st, t, x);
  }

  lemma DeleteRecords(st: State, t: Tid, x: Sample)
    requires Enabled(st, ExitDelete(t))
    ensures var st' := Apply(st, ExitDelete(t));
            Recorded(st, st', Holding(PcOf(st.pcs, t), x), Holding(PcOf(st'.pcs, t), x), x)
  {
    hide AddTo, BucketCell, SumCell, MaxCell;
    OccursAppend(st.samples.taken, st.pcs[t].sample, x);
  }

  lemma CountRecords(st: State, t: Tid, x: Sample)
    requires Enabled(st, AddBucket(t))
    ensures var st' := Apply(st, AddBucket(t));
            Recorded(st, st', Holding(PcOf(st.pcs, t), x), Holding(PcOf(st'.pcs, t), x), x)
  {
    hide AddTo, BucketCell, SumCell, MaxCell;
    OccursAppend(st.samples.log, st.pcs[t].sample, x);
  }

  lemma SumRecords(st: State, t: Tid, x: Sample)
    requires Enabled(st, AddSum(t))
    ensures var st' := Apply(st, AddSum(t));
            Recorded(st, st', Holding(PcOf(st.pcs, t), x), Holding(PcOf(st'.pcs, t), x), x)
  {
    hide AddTo, BucketCell, SumCell, MaxCell;
    OccursAppend(st.samples.summed, st.pcs[t].sample, x);
  }

  lemma LoadRecords(st: State, t: Tid, x: Sample)
    requires Enabled(st, LoadMax(t))
    ensures var st' := Apply(st, LoadMax(t));
            Recorded(st, st', Holding(PcOf(st.pcs, t), x), Holding(PcOf(st'.pcs, t), x), x)
  {
    hide AddTo, BucketCell, SumCell, MaxCell, Occurs;
    OccursAppend(st.samples.finished, st.pcs[t].sample, x);
  }

  lemma StoreRecords(st: State, t: Tid, x: Sample)
    requires Enabled(st, StoreMax(t))
    ensures var st' := Apply(st, StoreMax(t));
            Recorded(st, st', Holding(PcOf(st.pcs, t), x), Holding(PcOf(st'.pcs, t), x), x)
  {
    hide AddTo, BucketCell, SumCell, MaxCell;
    OccursAppend(st.samples.finished, st.pcs[t].sample, x);
  }

  lemma FlowStep(st: State, a: Action)
    requires FlowInv(st) && Enabled(st, a)
    ensures FlowInv(Apply(st, a))
  {
    StepMoves(st, a);
    forall x
      ensures FlowAt(Apply(st, a), x)
    {
      assert FlowAt(st, x);
      PopulationMoves(st.pcs, Apply(st, a).pcs, Mover(a), x);
      StepRecords(st, a, x);
    }
  }

  // ---- the start map

  /** Every allowed enter is accounted for, and the entries are bounded. */
  ghost predicate StartAccount(st: State) {
    && |st.start| <= MAX_STARTS
    && st.ledger.allowed == |st.samples.taken| + st.ledger.failed + st.ledger.overwritten + |st.start|
    && st.latencyDrops == st.ledger.failed % TWO64
  }

  /** No entry lies in the future, and a thread that found its entry still has it. */
  ghost predicate StartClock(now: U64, start: map<Tid, U64>, pcs: map<Tid, Pc>) {
    && (forall t :: t in start ==> start[t] <= now)
    && (forall t :: t in pcs && pcs[t].Entering? ==> pcs[t].ts <= now)
    && (forall t :: t in pcs && (pcs[t].Found? || pcs[t].Timed?) ==> t in start)
  }

  ghost predicate StartInv(st: State) {
    StartAccount(st) && StartClock(st.now, st.start, st.pcs)
  }

  lemma StartStep(st: State, a: Action)
    requires StartInv(st) && Enabled(st, a)
    ensures StartInv(Apply(st, a))
  {
    match a
    case EnterStore(t, allowed, ok) => StartAfterStore(st, t, allowed, ok);
    case ExitDelete(t) => StartAfterDelete(st, t);
    case _ =>
      StartUntouched(st, a);
      ClockKept(st, a);
  }

  lemma StartUntouched(st: State, a: Action)
    requires Enabled(st, a) && !a.EnterStore? && !a.ExitDelete?
    ensures var st' := Apply(st, a);
            && st'.start == st.start && st'.samples.taken == st.samples.taken
            && st'.latencyDrops == st.latencyDrops && st'.ledger == st.ledger
  {
    hide AddTo, BucketCell, SumCell, MaxCell;
  }

  lemma ClockKept(st: State, a: Action)
    requires StartClock(st.now, st.start, st.pcs) && Enabled(st, a) && !a.EnterStore? && !a.ExitDelete?
    ensures StartClock(Apply(st, a).now, st.start, Apply(st, a).pcs)
  {
    hide AddTo, BucketCell, SumCell, MaxCell;
  }

  lemma StartAfterStore(st: State, t: Tid, allowed: bool, ok: bool)
    requires StartInv(st) && Enabled(st, EnterStore(t, allowed, ok))
    ensures StartInv(ApplyStore(st, t, allowed, ok))
  {
    AccountAfterStore(st, t, allowed, ok);
    ClockAfterStore(st, t, allowed, ok);
  }

  lemma AccountAfterStore(st: State, t: Tid, allowed: bool, ok: bool)
    requires StartAccount(st) && Enabled(st, EnterStore(t, allowed, ok))
    ensures StartAccount(ApplyStore(st, t, allowed, ok))
  {
    MapAdd(st.start, t, st.pcs[t].ts);
    WrapAdd(st.ledger.failed, 1);
  }

  lemma ClockAfterStore(st: State, t: Tid, allowed: bool, ok: bool)
    requires StartClock(st.now, st.start, st.pcs) && Enabled(st, EnterStore(t, allowed, ok))
    ensures var st' := ApplyStore(st, t, allowed, ok); StartClock(st'.now, st'.start, st'.pcs)
  {
  }

  lemma StartAfterDelete(st: State, t: Tid)
    requires StartInv(st) && Enabled(st, ExitDelete(t))
    ensures StartInv(Apply(st, ExitDelete(t)))
  {
    MapRemove(st.start, t);
  }

  lemma MapAdd(m: map<Tid, U64>, t: Tid, v: U64)
    ensures |m[t := v]| == |m| + (if t in m then 0 else 1)
  {
    assert m[t := v].Keys == m.Keys + {t};
  }

  lemma MapRemove(m: map<Tid, U64>, t: Tid)
    ensures |m - {t}| == |m| - (if t in m then 1 else 0)
  {
    assert (m - {t}).Keys == m.Keys - {t};
    if t in m {
      assert m.Keys == (m - {t}).Keys + {t};
    } else {
      assert m.Keys == (m - {t}).Keys;
    }
  }

  // ---- the maximum

  /** A maximum cell is 0 or a completed duration, and is not 0 once a completed duration was not. */
  ghost predicate Maxima(hist: seq<U64>, finished: seq<Sample>) {
    && |hist| == CELLS
    && (forall s: Syscall :: hist[MaxCell(s)] == 0 || Sample(s, hist[MaxCell(s)]) in finished)
    && (forall x :: x in finished && x.delta > 0 ==> hist[MaxCell(x.syscall)] > 0)
  }

  lemma MaximaSkip(hist: seq<U64>, finished: seq<Sample>, x: Sample)
    requires Maxima(hist, finished) && x.delta <= hist[MaxCell(x.syscall)]
    ensures Maxima(hist, finished + [x])
  {
  }

  lemma MaximaStore(hist: seq<U64>, finished: seq<Sample>, x: Sample)
    requires Maxima(hist, finished) && x.delta > 0
    ensures Maxima(hist[MaxCell(x.syscall) := x.delta], finished + [x])
  {
    var hist', finished' := hist[MaxCell(x.syscall) := x.delta], finished + [x];
    assert x in finished';
    forall s: Syscall
      ensures hist'[MaxCell(s)] == 0 || Sample(s, hist'[MaxCell(s)]) in finished'
    {
      if s == x.syscall {
        assert x == Sample(s, hist'[MaxCell(s)]);
      }
    }
  }

  ghost predicate MaxInv(st: State) {
    && Maxima(st.hist, st.samples.finished)
    && (forall t :: t in st.pcs && st.pcs[t].Compared? ==> st.pcs[t].sample.delta > 0)
  }

  lemma MaxStep(st: State, a: Action)
    requires MaxInv(st) && Enabled(st, a)
    ensures MaxInv(Apply(st, a))
  {
    MaximaKept(st, a);
    ComparedPositive(st, a);
  }

  lemma ComparedPositive(st: State, a: Action)
    requires forall t :: t in st.pcs && st.pcs[t].Compared? ==> st.pcs[t].sample.delta > 0
    requires Enabled(st, a)
    ensures forall t :: t in Apply(st, a).pcs && Apply(st, a).pcs[t].Compared? ==> Apply(st, a).pcs[t].sample.delta > 0
  {
    hide AddTo, BucketCell, SumCell, MaxCell;
  }

  lemma MaximaKept(st: State, a: Action)
    requires MaxInv(st) && Enabled(st, a)
    ensures Maxima(Apply(st, a).hist, Apply(st, a).samples.finished)
  {
    hide AddTo, BucketCell, SumCell, MaxCell;
    match a
    case LoadMax(t) =>
      if st.pcs[t].sample.delta <= st.hist[MaxCell(st.pcs[t].sample.syscall)] {
        MaximaSkip(st.hist, st.samples.finished, st.pcs[t].sample);
      }
    case StoreMax(t) => MaximaStore(st.hist, st.samples.finished, st.pcs[t].sample);
    case _ => MaximaUntouched(st, a);
  }

  /** Only the last two steps of an exit can change a maximum or complete a duration. */
  lemma MaximaUntouched(st: State, a: Action)
    requires |st.hist| == CELLS && Enabled(st, a) && !a.LoadMax? && !a.StoreMax?
    ensures var st' := Apply(st, a);
            && |st'.hist| == CELLS && (forall s: Syscall :: st'.hist[MaxCell(s)] == st.hist[MaxCell(s)])
            && st'.samples.finished == st.samples.finished
  {
    hide BucketCell, SumCell, MaxCell;
    match a
    case AddBucket(t) => CellsApart(st.pcs[t].sample);
    case AddSum(t) => CellsApart(st.pcs[t].sample);
    case _ => MaximaUnwritten(st, a);
  }

  lemma MaximaUnwritten(st: State, a: Action)
    requires Enabled(st, a) && !a.AddBucket? && !a.AddSum? && !a.LoadMax? && !a.StoreMax?
    ensures Apply(st, a).hist == st.hist && Apply(st, a).samples.finished == st.samples.finished
  {
    hide AddTo, BucketCell, SumCell, MaxCell;
  }

  lemma ComparedKept(st: State, a: Action)
    requires Enabled(st, a) && !a.LoadMax? && !a.StoreMax?
    ensures forall t :: t in Apply(st, a).pcs && Apply(st, a).pcs[t].Compared? ==> t in st.pcs && st.pcs[t] == Apply(st, a).pcs[t]
  {
    hide AddTo, BucketCell, SumCell, MaxCell;
  }

  lemma CellsApart(x: Sample)
    ensures forall s: Syscall :: MaxCell(s) != BucketCell(x) && MaxCell(s) != SumCell(x.syscall)
  {
    forall s: Syscall
      ensures MaxCell(s) != BucketCell(x) && MaxCell(s) != SumCell(x.syscall)
    {
      CellBijection(s, HIST_SLOTS + 1, x.syscall, Bucket(x.delta), 0);
      CellBijection(s, HIST_SLOTS + 1, x.syscall, HIST_SLOTS, 0);
    }
  }

  // ---- the scan

  /** Each value a scan has is the number of samples counted in that cell when it was read. */
  ghost predicate ReadsLog(log: seq<Sample>, values: seq<U64>, readAt: seq<nat>, from: nat, to: nat) {
    && |values| == |readAt| <= CELLS && from <= to <= |log|
    && (forall c :: 0 <= c < |readAt| ==> from <= readAt[c] <= to)
    && (forall c :: 0 <= c < |values| && IsBucketCell(c) ==> values[c] == CountCell(log[..readAt[c]], c) % TWO64)
  }

  ghost predicate ScanInv(st: State) {
    && (st.reader.Scanning? ==>
         && ReadsLog(st.samples.log, st.reader.values, st.reader.readAt, st.reader.from, |st.samples.log|)
         && |st.reader.values| < CELLS
         && forall i :: 0 <= i < |st.scans| ==> st.scans[i].to <= st.reader.from)
    && (forall i :: 0 <= i < |st.scans| ==>
         && ReadsLog(st.samples.log, st.scans[i].values, st.scans[i].readAt, st.scans[i].from, st.scans[i].to)
         && |st.scans[i].values| == CELLS)
    && (forall i, j :: 0 <= i < j < |st.scans| ==> st.scans[i].to <= st.scans[j].from)
  }

  lemma ReadsLongerLog(log: seq<Sample>, values: seq<U64>, readAt: seq<nat>, from: nat, to: nat, x: Sample)
    requires ReadsLog(log, values, readAt, from, to)
    ensures ReadsLog(log + [x], values, readAt, from, to)
  {
    forall c | 0 <= c < |values| && IsBucketCell(c)
      ensures values[c] == CountCell((log + [x])[..readAt[c]], c) % TWO64
    {
      assert (log + [x])[..readAt[c]] == log[..readAt[c]];
    }
  }

  lemma ReadsNextCell(st: State)
    requires ScanInv(st) && HistInv(st) && Enabled(st, ReadCell)
    ensures ReadsLog(st.samples.log, st.reader.values + [st.hist[|st.reader.values|]],
                     st.reader.readAt + [|st.samples.log|], st.reader.from, |st.samples.log|)
  {
    assert st.samples.log[..|st.samples.log|] == st.samples.log;
  }

  lemma ScanAfterRead(st: State)
    requires ScanInv(st) && HistInv(st) && Enabled(st, ReadCell)
    ensures ScanInv(ApplyRead(st))
  {
    ReadsNextCell(st);
  }

  lemma ScanAfterCount(st: State, t: Tid)
    requires ScanInv(st) && Enabled(st, AddBucket(t))
    ensures ScanInv(Apply(st, AddBucket(t)))
  {
    var x := st.pcs[t].sample;
    if st.reader.Scanning? {
      ReadsLongerLog(st.samples.log, st.reader.values, st.reader.readAt, st.reader.from, |st.samples.log|, x);
    }
    forall i | 0 <= i < |st.scans|
      ensures ReadsLog(st.samples.log + [x], st.scans[i].values, st.scans[i].readAt, st.scans[i].from, st.scans[i].to)
    {
      ReadsLongerLog(st.samples.log, st.scans[i].values, st.scans[i].readAt, st.scans[i].from, st.scans[i].to, x);
    }
  }

  lemma ScanUntouched(st: State, a: Action)
    requires Enabled(st, a) && !a.AddBucket? && !a.BeginScan? && !a.ReadCell?
    ensures var st' := Apply(st, a);
            st'.reader == st.reader && st'.scans == st.scans && st'.samples.log == st.samples.log
  {
    hide AddTo, BucketCell, SumCell, MaxCell;
  }

  lemma ScanStep(st: State, a: Action)
    requires ScanInv(st) && HistInv(st) && Enabled(st, a)
    ensures ScanInv(Apply(st, a))
  {
    match a
    case AddBucket(t) => ScanAfterCount(st, t);
    case ReadCell => ScanAfterRead(st);
    case BeginScan =>
    case _ => ScanUntouched(st, a);
  }

  // ---- all of them, over every run

  ghost predicate Inv(st: State) {
    HistInv(st) && FlowInv(st) && StartInv(st) && MaxInv(st) && ScanInv(st)
  }

  lemma InitInv(now: U64)
    ensures Inv(Init(now))
  {
    var st := Init(now);
    forall x
      ensures FlowAt(st, x)
    {
      assert forall pc :: At(st.pcs, pc) == {};
    }
  }

  lemma {:induction false} Invariant(now: U64, run: seq<Action>)
    requires Exec(now, run).Some?
    ensures Inv(Exec(now, run).value)
  {
    if |run| == 0 {
      InitInv(now);
    } else {
      Invariant(now, run[..|run| - 1]);
      var st, a := Exec(now, run[..|run| - 1]).value, run[|run| - 1];
      HistStep(st, a);
      FlowStep(st, a);
      StartStep(st, a);
      MaxStep(st, a);
      ScanStep(st, a);
    }
  }
}
