/**
 Where every event goes: kernel hooks that submit or drop, a consumer that prints, rejects or ignores,
 and the totals the summary reports. Hooks, consumer and stop signal interleave freely.
 */
module Loss {
  import opened Words
  import opened Layout
  import opened Decoders

  datatype Command = ExecCommand | OpenCommand | TcpCommand

  /** Whether the command's own decoder takes the record. */
  predicate Accepts(cmd: Command, data: Bytes) {
    match cmd
    case ExecCommand => DecodeExec(data).Some?
    case OpenCommand => DecodeOpen(data).Some?
    case TcpCommand => DecodeTcp(data).Some?
  }

  /** The two drop counters, as cells of a map or as last seen by userspace. */
  datatype Drops = Drops(ring: U64, latency: U64)

  /** What the callback has counted. */
  datatype Outcomes = Outcomes(printed: nat, rejects: nat)

  /** One callback: nothing after the stop signal, else a line or a reject. */
  function Callback(t: Outcomes, cmd: Command, running: bool, data: Bytes): Outcomes {
    if !running then t
    else if Accepts(cmd, data) then t.(printed := t.printed + 1)
    else t.(rejects := t.rejects + 1)
  }

  /** `warn_on_drops` once both counters are read. */
  function Raise(seen: Drops, ringbuf: U64, latency: U64): Drops {
    Drops(if ringbuf > seen.ring then ringbuf else seen.ring,
          if latency > seen.latency then latency else seen.latency)
  }

  // ---- the consumer's variables, updated in place

  class Consumer {
    const cmd: Command
    var printed: nat
    var decodeRejects: nat
    const dropsSeen: array<U64>

    ghost predicate Valid()
      reads this, dropsSeen
    {
      dropsSeen.Length == 2
    }

    ghost function Counted(): Outcomes reads this { Outcomes(printed, decodeRejects) }

    ghost function Seen(): Drops
      reads this, dropsSeen
      requires Valid()
    {
      Drops(dropsSeen[0], dropsSeen[1])
    }

    constructor (cmd: Command)
      ensures Valid() && fresh(dropsSeen) && this.cmd == cmd
      ensures Counted() == Outcomes(0, 0) && Seen() == Drops(0, 0)
    {
      this.cmd := cmd;
      printed, decodeRejects := 0, 0;
      dropsSeen := new U64[2](i => 0);
    }

    method OnRecord(running: bool, data: Bytes)
      requires Valid()
      modifies this`printed, this`decodeRejects
      ensures Valid() && Counted() == Callback(old(Counted()), cmd, running, data)
    {
      if !running {
        return;
      }
      if Accepts(cmd, data) {
        printed := printed + 1;
      } else {
        decodeRejects := decodeRejects + 1;
      }
    }

    method WarnOnDrops(ringbuf: U64, latency: U64)
      requires Valid()
      modifies dropsSeen
      ensures Valid() && Seen() == Raise(old(Seen()), ringbuf, latency)
    {
      if ringbuf > dropsSeen[0] {
        dropsSeen[0] := ringbuf;
      }
      if latency > dropsSeen[1] {
        dropsSeen[1] := latency;
      }
    }

    /** The two figures of the closing line. */
    method Summary() returns (printedTotal: nat, droppedTotal: nat)
      requires Valid()
      ensures printedTotal == Counted().printed
      ensures droppedTotal == Seen().ring + Seen().latency + Counted().rejects
    {
      printedTotal := printed;
      droppedTotal := dropsSeen[0] + dropsSeen[1] + decodeRejects;
    }
  }

  // ---- the whole system

  /** Where the consumer's loop is; `Warned` has read the ring counter and not yet the other. */
  datatype Phase = Checking | Polling | Warning | Warned(ringbuf: U64) | Stopped

  /** A record the consumer was handed, and whether it was still running. */
  datatype Handed = Handed(data: Bytes, running: bool)

  datatype State = State(
    ring: seq<Bytes>,
    drops: Drops,
    running: bool,
    phase: Phase,
    tally: Outcomes,
    seen: Drops,
    // history
    submitted: seq<Bytes>,
    handed: seq<Handed>,
    firings: nat,
    ringDrops: nat,
    latencyDrops: nat)

  datatype Action =
    | Submit(data: Bytes)
    | DropEvent
    | DropLatency
    | StopSignal
    | Check(stop: bool)
    | Consume
    | EndPoll
    | ReadRing
    | ReadLatency

  function Init(): State {
    State([], Drops(0, 0), true, Checking, Outcomes(0, 0), Drops(0, 0), [], [], 0, 0, 0)
  }

  /** A hook may find the ring full or not; the loop stops on the signal, and may stop on its limits. */
  predicate Enabled(st: State, a: Action) {
    match a
    case Check(stop) => st.phase.Checking? && (!st.running ==> stop)
    case Consume => st.phase.Polling? && |st.ring| > 0
    case EndPoll => st.phase.Polling?
    case ReadRing => st.phase.Warning?
    case ReadLatency => st.phase.Warned?
    case _ => true
  }

  function Apply(cmd: Command, st: State, a: Action): State
    requires Enabled(st, a)
  {
    match a
    case Submit(data) =>
      st.(ring := st.ring + [data], submitted := st.submitted + [data], firings := st.firings + 1)
    case DropEvent =>
      st.(drops := st.drops.(ring := (st.drops.ring + 1) % TWO64), ringDrops := st.ringDrops + 1,
          firings := st.firings + 1)
    case DropLatency =>
      st.(drops := st.drops.(latency := (st.drops.latency + 1) % TWO64), latencyDrops := st.latencyDrops + 1)
    case StopSignal => st.(running := false)
    case Check(stop) => st.(phase := if stop then Stopped else Polling)
    case Consume =>
      st.(ring := st.ring[1..], tally := Callback(st.tally, cmd, st.running, st.ring[0]),
          handed := st.handed + [Handed(st.ring[0], st.running)])
    case EndPoll => st.(phase := Warning)
    case ReadRing => st.(phase := Warned(st.drops.ring))
    case ReadLatency => st.(phase := Checking, seen := Raise(st.seen, st.phase.ringbuf, st.drops.latency))
  }

  function Exec(cmd: Command, run: seq<Action>): Option<State> {
    if |run| == 0 then Some(Init())
    else
      match Exec(cmd, run[..|run| - 1])
      case None => None
      case Some(st) => if Enabled(st, run[|run| - 1]) then Some(Apply(cmd, st, run[|run| - 1])) else None
  }

  /** What became of the records handed over. */
  datatype Fate = Printed | Rejected | Ignored

  function FateOf(cmd: Command, h: Handed): Fate {
    if !h.running then Ignored else if Accepts(cmd, h.data) then Printed else Rejected
  }

  function CountFate(cmd: Command, handed: seq<Handed>, f: Fate): nat {
    if |handed| == 0 then 0
    else CountFate(cmd, handed[..|handed| - 1], f) + (if FateOf(cmd, handed[|handed| - 1]) == f then 1 else 0)
  }

  function DataOf(handed: seq<Handed>): seq<Bytes> {
    seq(|handed|, i requires 0 <= i < |handed| => handed[i].data)
  }

  /** Every firing was dropped or submitted, and what was handed over was printed or rejected by its fate. */
  ghost predicate FiringsAccounted(cmd: Command, st: State) {
    && st.submitted == DataOf(st.handed) + st.ring
    && st.firings == st.ringDrops + |st.submitted|
    && st.tally.printed == CountFate(cmd, st.handed, Printed)
    && st.tally.rejects == CountFate(cmd, st.handed, Rejected)
  }

  /** The cells count the drops modulo 2^64, and no figure seen is ahead of them. */
  ghost predicate DropsAccounted(st: State) {
    && st.drops == Drops(st.ringDrops % TWO64, st.latencyDrops % TWO64)
    && (st.phase.Warned? ==> st.phase.ringbuf <= st.ringDrops)
    && st.seen.ring <= st.ringDrops && st.seen.latency <= st.latencyDrops
  }

  ghost predicate Accounted(cmd: Command, st: State) {
    FiringsAccounted(cmd, st) && DropsAccounted(st)
  }

  lemma CountFateAppend(cmd: Command, handed: seq<Handed>, h: Handed, f: Fate)
    ensures CountFate(cmd, handed + [h], f) == CountFate(cmd, handed, f) + (if FateOf(cmd, h) == f then 1 else 0)
  {
    assert (handed + [h])[..|handed|] == handed;
  }

  lemma ConsumeAccounted(cmd: Command, st: State)
    requires FiringsAccounted(cmd, st) && Enabled(st, Consume)
    ensures FiringsAccounted(cmd, Apply(cmd, st, Consume))
  {
    hide Accepts;
    var h := Handed(st.ring[0], st.running);
    CountFateAppend(cmd, st.handed, h, Printed);
    CountFateAppend(cmd, st.handed, h, Rejected);
    assert DataOf(st.handed + [h]) == DataOf(st.handed) + [h.data];
    assert st.ring == [st.ring[0]] + st.ring[1..];
  }

  lemma FiringsStep(cmd: Command, st: State, a: Action)
    requires FiringsAccounted(cmd, st) && Enabled(st, a)
    ensures FiringsAccounted(cmd, Apply(cmd, st, a))
  {
    hide Accepts, CountFate, DataOf, Raise;
    match a
    case Submit(data) => assert DataOf(st.handed) + (st.ring + [data]) == DataOf(st.handed) + st.ring + [data];
    case Consume => ConsumeAccounted(cmd, st);
    case _ =>
  }

  lemma DropsStep(cmd: Command, st: State, a: Action)
    requires DropsAccounted(st) && Enabled(st, a)
    ensures DropsAccounted(Apply(cmd, st, a))
  {
    hide Callback;
    WrapAdd(st.ringDrops, 1);
    WrapAdd(st.latencyDrops, 1);
  }

  lemma {:induction false} AccountedRun(cmd: Command, run: seq<Action>)
    requires Exec(cmd, run).Some?
    ensures Accounted(cmd, Exec(cmd, run).value)
  {
    if |run| > 0 {
      AccountedRun(cmd, run[..|run| - 1]);
      FiringsStep(cmd, Exec(cmd, run[..|run| - 1]).value, run[|run| - 1]);
      DropsStep(cmd, Exec(cmd, run[..|run| - 1]).value, run[|run| - 1]);
    }
  }

  lemma {:induction false} FatesAddUp(cmd: Command, handed: seq<Handed>)
    ensures CountFate(cmd, handed, Printed) + CountFate(cmd, handed, Rejected) + CountFate(cmd, handed, Ignored) == |handed|
  {
    if |handed| > 0 {
      FatesAddUp(cmd, handed[..|handed| - 1]);
    }
  }

  /**
   Loss accounting, over every interleaving: each allowed firing was dropped for want of ring space, is
   pending, was printed, was rejected by the decoder or was ignored after the stop signal; records come
   out in the order they went in.
   */
  lemma EveryFiringAccounted(cmd: Command, run: seq<Action>)
    requires Exec(cmd, run).Some?
    ensures var st := Exec(cmd, run).value;
            && st.firings == st.ringDrops + |st.ring| + st.tally.printed + st.tally.rejects
                             + CountFate(cmd, st.handed, Ignored)
            && st.submitted == DataOf(st.handed) + st.ring
  {
    AccountedRun(cmd, run);
    FatesAddUp(cmd, Exec(cmd, run).value.handed);
  }

  /**
   The summary never overstates: what it leaves out is exactly the pending records, the ignored ones and
   the drops counted since the last look at the counters.
   */
  lemma SummaryNeverOverstates(cmd: Command, run: seq<Action>)
    requires Exec(cmd, run).Some?
    ensures var st := Exec(cmd, run).value;
            var droppedTotal := st.seen.ring + st.seen.latency + st.tally.rejects;
            && st.seen.ring <= st.ringDrops && st.seen.latency <= st.latencyDrops
            && st.tally.printed + droppedTotal <= st.firings + st.latencyDrops
            && st.firings + st.latencyDrops - (st.tally.printed + droppedTotal)
               == |st.ring| + CountFate(cmd, st.handed, Ignored)
                  + (st.ringDrops - st.seen.ring) + (st.latencyDrops - st.seen.latency)
  {
    AccountedRun(cmd, run);
    EveryFiringAccounted(cmd, run);
  }

  /** `exec`, `open` and `tcp` attach no latency hook: then what is printed or reported never exceeds the allowed firings. */
  lemma SummaryWithoutLatency(cmd: Command, run: seq<Action>)
    requires Exec(cmd, run).Some? && DropLatency !in run
    ensures var st := Exec(cmd, run).value;
            var reported := st.tally.printed + st.seen.ring + st.seen.latency + st.tally.rejects;
            && st.latencyDrops == st.seen.latency == 0 && reported <= st.firings
            && st.firings - reported == |st.ring| + CountFate(cmd, st.handed, Ignored) + (st.ringDrops - st.seen.ring)
  {
    SummaryNeverOverstates(cmd, run);
    NoLatencyDrops(cmd, run);
  }

  lemma {:induction false} NoLatencyDrops(cmd: Command, run: seq<Action>)
    requires Exec(cmd, run).Some? && DropLatency !in run
    ensures Exec(cmd, run).value.latencyDrops == 0
  {
    hide Callback, Raise;
    if |run| > 0 {
      NoLatencyDrops(cmd, run[..|run| - 1]);
    }
  }

  /** No figure is lower, none differs once the loop has stopped, and no count once the signal has come. */
  ghost predicate Raised(st: State, st': State) {
    && st.seen.ring <= st'.seen.ring && st.seen.latency <= st'.seen.latency
    && st.tally.printed <= st'.tally.printed && st.tally.rejects <= st'.tally.rejects
    && (st.phase.Stopped? ==> st'.phase.Stopped? && st'.tally == st.tally && st'.seen == st.seen)
    && (!st.running ==> !st'.running && st'.tally == st.tally)
  }

  lemma StepRaises(cmd: Command, st: State, a: Action)
    requires Enabled(st, a)
    ensures Raised(st, Apply(cmd, st, a))
  {
    hide Accepts;
  }

  /** Every prefix of a run is a run, and from it on the figures of the summary only rise. */
  lemma {:induction false} FiguresOnlyRise(cmd: Command, run: seq<Action>, n: nat)
    requires Exec(cmd, run).Some? && n <= |run|
    ensures Exec(cmd, run[..n]).Some? && Raised(Exec(cmd, run[..n]).value, Exec(cmd, run).value)
  {
    hide Apply, Enabled;
    if n == |run| {
      assert run[..n] == run;
    } else {
      var before := run[..|run| - 1];
      FiguresOnlyRise(cmd, before, n);
      assert before[..n] == run[..n];
      StepRaises(cmd, Exec(cmd, before).value, run[|run| - 1]);
    }
  }

  /** After the signal no count changes and no further poll begins: a loop at its check then stops. */
  lemma NothingAfterSignal(cmd: Command, run: seq<Action>, n: nat, k: nat)
    requires Exec(cmd, run).Some? && n < k <= |run| && run[n] == StopSignal
    ensures Exec(cmd, run[..n]).Some? && Exec(cmd, run[..k]).Some?
    ensures Exec(cmd, run[..k]).value.tally == Exec(cmd, run[..n]).value.tally
    ensures k < |run| && run[k].Check? ==>
      run[k].stop && Exec(cmd, run[..k + 1]).Some? && Exec(cmd, run[..k + 1]).value.phase.Stopped?
  {
    PrefixStep(cmd, run, n);
    if k < |run| {
      PrefixStep(cmd, run, k);
    }
    FiguresOnlyRise(cmd, run, k);
    hide Exec, Callback, Raise;
    FiguresOnlyRise(cmd, run[..k], n + 1);
    assert run[..k][..n + 1] == run[..n + 1];
  }

  /** Until the second counter is read after a poll, the loop is still at its look. */
  lemma {:induction false} LookPending(cmd: Command, run: seq<Action>, n: nat)
    requires Exec(cmd, run).Some? && n < |run| && run[n] == EndPoll
    requires forall j :: n < j < |run| ==> run[j] != ReadLatency
    ensures var st := Exec(cmd, run).value;
            && (st.phase.Warning? || st.phase.Warned?)
            && (st.phase.Warned? ==> exists i :: n < i < |run| && run[i] == ReadRing)
  {
    hide Callback, Raise;
    if n < |run| - 1 {
      var before := run[..|run| - 1];
      LookPending(cmd, before, n);
      if i :| n < i < |before| && before[i] == ReadRing {
        assert run[i] == ReadRing;
      }
      if run[|run| - 1] == ReadRing {
        assert n < |run| - 1 < |run|;
      }
    }
  }

  lemma FirstLook(run: seq<Action>, n: nat, k: nat) returns (j: nat)
    requires n <= k <= |run|
    ensures n <= j <= k && (j < k ==> run[j] == ReadLatency)
    ensures forall m :: n <= m < j ==> run[m] != ReadLatency
  {
    j := n;
    while j < k && run[j] != ReadLatency
      invariant n <= j <= k && forall m :: n <= m < j ==> run[m] != ReadLatency
    {
      j := j + 1;
    }
  }

  /** Between a poll and the loop's next check both counters are looked at, the ring buffer's first. */
  lemma LookAfterPoll(cmd: Command, run: seq<Action>, n: nat, k: nat)
    requires Exec(cmd, run).Some? && n < k < |run| && run[n] == EndPoll && run[k].Check?
    ensures exists i, j :: n < i < j < k && run[i] == ReadRing && run[j] == ReadLatency
  {
    hide Exec, Apply, Callback;
    var j := FirstLook(run, n + 1, k);
    PrefixStep(cmd, run, j);
    LookPending(cmd, run[..j], n);
    assert run[j] == ReadLatency && Exec(cmd, run[..j]).value.phase.Warned?;
    var i :| n < i < |run[..j]| && run[..j][i] == ReadRing;
    assert run[i] == ReadRing;
  }

  lemma PrefixStep(cmd: Command, run: seq<Action>, k: nat)
    requires Exec(cmd, run).Some? && k < |run|
    ensures Exec(cmd, run[..k]).Some? && Enabled(Exec(cmd, run[..k]).value, run[k])
    ensures Exec(cmd, run[..k + 1]) == Some(Apply(cmd, Exec(cmd, run[..k]).value, run[k]))
  {
    hide Apply, Enabled;
    FiguresOnlyRise(cmd, run, k + 1);
    assert run[..k + 1][..k] == run[..k];
  }

  // ---- the consumer driven by a run

  /** What one action of the system has the consumer do. */
  method Drive(c: Consumer, st: State, a: Action)
    requires c.Valid() && Enabled(st, a) && c.Counted() == st.tally && c.Seen() == st.seen
    modifies c, c.dropsSeen
    ensures c.Valid() && c.Counted() == Apply(c.cmd, st, a).tally && c.Seen() == Apply(c.cmd, st, a).seen
  {
    match a {
      case Consume => c.OnRecord(st.running, st.ring[0]);
      case ReadLatency => c.WarnOnDrops(st.phase.ringbuf, st.drops.latency);
      case _ =>
    }
  }

  /**
   A consumer's variables along any run give the closing line: what it says was printed is the accepted
   records it was handed while running, and with what it says was lost it falls short of all that happened by
   exactly the pending, the ignored and the drops not yet looked at.
   */
  method RunAndSummarize(cmd: Command, run: seq<Action>) returns (printedTotal: nat, droppedTotal: nat)
    requires Exec(cmd, run).Some?
    ensures var st := Exec(cmd, run).value;
            && printedTotal == CountFate(cmd, st.handed, Printed)
            && printedTotal + droppedTotal + |st.ring| + CountFate(cmd, st.handed, Ignored)
               + (st.ringDrops - st.seen.ring) + (st.latencyDrops - st.seen.latency) == st.firings + st.latencyDrops
            && CountFate(cmd, st.handed, Rejected) <= droppedTotal
  {
    hide Apply, Enabled, CountFate;
    var c := new Consumer(cmd);
    var st := Init();
    for i := 0 to |run|
      invariant c.Valid() && fresh(c) && fresh(c.dropsSeen) && c.cmd == cmd
      invariant Exec(cmd, run[..i]) == Some(st)
      invariant c.Counted() == st.tally && c.Seen() == st.seen
    {
      PrefixStep(cmd, run, i);
      Drive(c, st, run[i]);
      st := Apply(cmd, st, run[i]);
    }
    assert run[..|run|] == run;
    AccountedRun(cmd, run);
    SummaryNeverOverstates(cmd, run);
    printedTotal, droppedTotal := c.Summary();
  }

  /** A look at the counters with no drop meanwhile leaves nothing unseen, as long as they have not wrapped. */
  lemma WarnSeesAll(cmd: Command, run: seq<Action>)
    requires Exec(cmd, run).Some? && Exec(cmd, run).value.phase.Warning?
    requires Exec(cmd, run).value.ringDrops < TWO64 && Exec(cmd, run).value.latencyDrops < TWO64
    ensures var st := Exec(cmd, run).value;
            var st' := Apply(cmd, Apply(cmd, st, ReadRing), ReadLatency);
            st'.seen == Drops(st.ringDrops, st.latencyDrops) && st'.phase.Checking?
  {
    hide Exec, CountFate, DataOf;
    AccountedRun(cmd, run);
    SmallMod(Exec(cmd, run).value.ringDrops);
    SmallMod(Exec(cmd, run).value.latencyDrops);
  }
}
