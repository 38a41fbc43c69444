/** The dashboard's dropped figure, one poll iteration of its collector after another. */
module CollectorDrops {
  import opened Words
  import opened Loss

  /** `Looked` has read the ring counter; `total` is the drops seen when the iteration began. */
  datatype Phase = Locking | Looking | Looked(ringbuf: U64)

  datatype Collector = Collector(drops: Drops, seen: Drops, dropped: nat, phase: Phase,
                                // history
                                ringTotal: nat, latencyTotal: nat)

  datatype Action =
    | KernelDrop(latency: bool)
    | Lock(ok: bool)
    | LookRing
    | LookFails
    | LookLatency

  function Init(): Collector { Collector(Drops(0, 0), Drops(0, 0), 0, Locking, 0, 0) }

  predicate Enabled(c: Collector, a: Action) {
    match a
    case KernelDrop(_) => true
    case Lock(_) => c.phase.Locking?
    case LookRing => c.phase.Looking?
    case LookFails => c.phase.Looking? || c.phase.Looked?
    case LookLatency => c.phase.Looked?
  }

  function Apply(c: Collector, a: Action): Collector
    requires Enabled(c, a)
  {
    match a
    case KernelDrop(latency) =>
      if latency then
        c.(drops := c.drops.(latency := (c.drops.latency + 1) % TWO64), latencyTotal := c.latencyTotal + 1)
      else
        c.(drops := c.drops.(ring := (c.drops.ring + 1) % TWO64), ringTotal := c.ringTotal + 1)
    case Lock(ok) =>
      var total := c.seen.ring + c.seen.latency;
      c.(dropped := if ok && total > c.dropped then total else c.dropped, phase := Looking)
    case LookRing => c.(phase := Looked(c.drops.ring))
    case LookFails => c.(phase := Locking)
    case LookLatency => c.(phase := Locking, seen := Raise(c.seen, c.phase.ringbuf, c.drops.latency))
  }

  function Exec(run: seq<Action>): Option<Collector> {
    if |run| == 0 then Some(Init())
    else
      match Exec(run[..|run| - 1])
      case None => None
      case Some(c) => if Enabled(c, run[|run| - 1]) then Some(Apply(c, run[|run| - 1])) else None
  }

  ghost predicate Lagging(c: Collector) {
    && c.dropped <= c.seen.ring + c.seen.latency
    && c.seen.ring <= c.ringTotal && c.seen.latency <= c.latencyTotal
    && c.drops == Drops(c.ringTotal % TWO64, c.latencyTotal % TWO64)
    && (c.phase.Looked? ==> c.phase.ringbuf <= c.ringTotal)
  }

  /**
   A sound lagging counter: over any run the figure shown never exceeds the kernel's total, and a
   successful lock makes it exactly the total seen at the end of the previous iteration.
   */
  lemma {:induction false} DroppedIsSound(run: seq<Action>)
    requires Exec(run).Some?
    ensures Lagging(Exec(run).value)
    ensures Exec(run).value.dropped <= Exec(run).value.ringTotal + Exec(run).value.latencyTotal
    ensures Exec(run).value.phase.Locking? ==> Apply(Exec(run).value, Lock(false)).dropped == Exec(run).value.dropped
    ensures Exec(run).value.phase.Locking? ==>
      Apply(Exec(run).value, Lock(true)).dropped == Exec(run).value.seen.ring + Exec(run).value.seen.latency
  {
    if |run| > 0 {
      DroppedIsSound(run[..|run| - 1]);
      LaggingStep(Exec(run[..|run| - 1]).value, run[|run| - 1]);
    }
  }

  lemma LaggingStep(c: Collector, a: Action)
    requires Lagging(c) && Enabled(c, a)
    ensures Lagging(Apply(c, a))
  {
    WrapAdd(c.ringTotal, 1);
    WrapAdd(c.latencyTotal, 1);
  }

  /** A look with no drop meanwhile, then a lock, shows the kernel's totals, as long as its counters have not wrapped. */
  lemma UndisturbedLookShowsAll(run: seq<Action>)
    requires Exec(run).Some? && Exec(run).value.phase.Looking?
    requires Exec(run).value.ringTotal < TWO64 && Exec(run).value.latencyTotal < TWO64
    ensures Exec(run + [LookRing, LookLatency, Lock(true)]).Some?
    ensures Exec(run + [LookRing, LookLatency, Lock(true)]).value.dropped
         == Exec(run).value.ringTotal + Exec(run).value.latencyTotal
  {
    DroppedIsSound(run);
    SmallMod(Exec(run).value.ringTotal);
    SmallMod(Exec(run).value.latencyTotal);
    Longer(run, LookRing);
    Longer(run + [LookRing], LookLatency);
    Longer(run + [LookRing] + [LookLatency], Lock(true));
    assert run + [LookRing] + [LookLatency] + [Lock(true)] == run + [LookRing, LookLatency, Lock(true)];
  }

  lemma Longer(run: seq<Action>, a: Action)
    requires Exec(run).Some? && Enabled(Exec(run).value, a)
    ensures Exec(run + [a]) == Some(Apply(Exec(run).value, a))
  {
    assert (run + [a])[..|run|] == run;
  }

  /** It never decreases. */
  lemma {:induction false} DroppedNeverDecreases(run: seq<Action>, n: nat)
    requires Exec(run).Some? && n <= |run|
    ensures Exec(run[..n]).Some? && Exec(run[..n]).value.dropped <= Exec(run).value.dropped
  {
    if n == |run| {
      assert run[..n] == run;
    } else {
      DroppedNeverDecreases(run[..|run| - 1], n);
      assert run[..|run| - 1][..n] == run[..n];
    }
  }
}
