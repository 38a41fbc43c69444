/** Whose entry an exit measures from: when every duration is that of the call that returned. */
module LatencyPairing {
  import opened Words
  import opened LatencyModel
  import opened LatencyInvariants

  /** The samples that the returned calls owe: one for each stored enter, none for the others. */
  function Owed(returned: seq<Call>): seq<Sample> {
    if |returned| == 0 then []
    else Owed(returned[..|returned| - 1]) + OwedBy(returned[|returned| - 1])
  }

  function OwedBy(call: Call): seq<Sample> {
    if call.stored && call.enteredAt <= call.measuredAt
    then [Sample(call.syscall, call.measuredAt - call.enteredAt)]
    else []
  }

  lemma OwedAppend(returned: seq<Call>, call: Call)
    ensures Owed(returned + [call]) == Owed(returned) + OwedBy(call)
  {
    assert (returned + [call])[..|returned|] == returned;
  }

  /** The durations measured are, one for one and in order, those of the calls that returned. */
  ghost predicate OwnDurations(st: State) {
    st.samples.taken == Owed(st.calls.returned)
  }

  /** Thread `t` is in a call of `s` whose enter was stored. */
  predicate InStoredCall(calls: Calls, t: Tid, s: Syscall) {
    t in calls.inside && calls.inside[t].stored && calls.inside[t].syscall == s
  }

  /** An exit finds an entry, but not one stored by the call it ends. */
  predicate StaleLookup(st: State, a: Action) {
    a.ExitLookup? && a.t in st.start && !InStoredCall(st.calls, a.t, a.s)
  }

  ghost predicate NeverStaleLookup(now: U64, run: seq<Action>)
    requires Exec(now, run).Some?
  {
    |run| > 0 ==>
      && !StaleLookup(Exec(now, run[..|run| - 1]).value, run[|run| - 1])
      && NeverStaleLookup(now, run[..|run| - 1])
  }

  /** No thread is between finding an entry and deleting it. */
  ghost predicate NoneMeasuring(st: State) {
    forall t :: t in st.pcs ==> !st.pcs[t].Found? && !st.pcs[t].Timed?
  }

  // ---- what holds in every run

  /** A call whose enter was stored still has its entry, and a thread about to store is in that call. */
  ghost predicate CallsInv(st: State) {
    && (forall t :: t in st.calls.inside && st.calls.inside[t].stored
          ==> t in st.start && st.start[t] == st.calls.inside[t].enteredAt)
    && (forall t :: t in st.pcs && st.pcs[t].Entering?
          ==> t in st.calls.inside && st.calls.inside[t] == Call(st.pcs[t].syscall, st.pcs[t].ts, false, 0))
    && |Owed(st.calls.returned)| <= |st.samples.taken|
  }

  /** The steps before an entry is deleted, and the one that deletes it. */
  predicate UpToDelete(a: Action) {
    a.EnterRead? || a.EnterStore? || a.ExitLookup? || a.ExitTime? || a.ExitDelete?
  }

  /** Any other step leaves calls, entries and the threads on the way to a delete as they are. */
  lemma OtherSteps(st: State, a: Action)
    requires Enabled(st, a) && !UpToDelete(a)
    ensures var st' := Apply(st, a);
            && st'.calls == st.calls && st'.start == st.start && st'.samples.taken == st.samples.taken
            && forall t :: t in st'.pcs && (st'.pcs[t].Entering? || st'.pcs[t].Found? || st'.pcs[t].Timed?)
                 ==> t in st.pcs && st'.pcs[t] == st.pcs[t]
    ensures forall t :: t in st.pcs && (st.pcs[t].Found? || st.pcs[t].Timed?)
              ==> t in Apply(st, a).pcs && Apply(st, a).pcs[t] == st.pcs[t]
  {
    hide AddTo, BucketCell, SumCell, MaxCell;
  }

  lemma CallsStep(st: State, a: Action)
    requires CallsInv(st) && Enabled(st, a)
    ensures CallsInv(Apply(st, a))
  {
    hide Apply, Enabled, CallsInv;
    match a
    case EnterRead(_, _) => CallsAfterEnter(st, a);
    case EnterStore(_, _, _) => CallsAfterStore(st, a);
    case ExitLookup(_, _) => CallsAfterExit(st, a);
    case ExitTime(_) => CallsAfterExit(st, a);
    case ExitDelete(_) => CallsAfterExit(st, a);
    case _ => CallsUntouched(st, a);
  }

  lemma CallsAfterEnter(st: State, a: Action)
    requires CallsInv(st) && Enabled(st, a) && a.EnterRead?
    ensures CallsInv(Apply(st, a))
  {
    hide AddTo, BucketCell, SumCell, MaxCell, Owed;
  }

  lemma CallsAfterStore(st: State, a: Action)
    requires CallsInv(st) && Enabled(st, a) && a.EnterStore?
    ensures CallsInv(Apply(st, a))
  {
    hide AddTo, BucketCell, SumCell, MaxCell, Owed;
  }

  lemma CallsAfterExit(st: State, a: Action)
    requires CallsInv(st) && Enabled(st, a) && (a.ExitLookup? || a.ExitTime? || a.ExitDelete?)
    ensures CallsInv(Apply(st, a))
  {
    hide AddTo, BucketCell, SumCell, MaxCell, Owed;
    if a.t in st.calls.inside {
      OwedAppend(st.calls.returned, st.calls.inside[a.t]);
    }
  }

  lemma CallsUntouched(st: State, a: Action)
    requires CallsInv(st) && Enabled(st, a) && !UpToDelete(a)
    ensures CallsInv(Apply(st, a))
  {
    hide Apply, Enabled, Owed;
    OtherSteps(st, a);
  }

  lemma {:induction false} CallsAlways(now: U64, run: seq<Action>)
    requires Exec(now, run).Some?
    ensures CallsInv(Exec(now, run).value)
  {
    if |run| > 0 {
      CallsAlways(now, run[..|run| - 1]);
      CallsStep(Exec(now, run[..|run| - 1]).value, run[|run| - 1]);
    }
  }

  // ---- runs without a stale lookup

  /** What the program counter of a thread in an exit says about the call it is in. */
  ghost predicate ExitMatchesCall(pc: Pc, calls: Calls, t: Tid) {
    match pc
    case Found(s) => InStoredCall(calls, t, s)
    case Timed(x) => t in calls.inside && OwedBy(calls.inside[t]) == [x]
    case _ => true
  }

  ghost predicate OwnInv(st: State) {
    && OwnDurations(st)
    && (forall t :: t in st.pcs ==> ExitMatchesCall(st.pcs[t], st.calls, t))
  }

  lemma OwnStep(st: State, a: Action)
    requires OwnInv(st) && CallsInv(st) && StartInv(st) && Enabled(st, a) && !StaleLookup(st, a)
    ensures OwnInv(Apply(st, a))
  {
    hide Apply, Enabled, OwnInv, CallsInv, StartInv;
    match a
    case EnterRead(_, _) => OwnAfterEnter(st, a);
    case EnterStore(_, _, _) => OwnAfterEnter(st, a);
    case ExitLookup(_, _) => OwnAfterLookup(st, a);
    case ExitTime(_) => OwnAfterTime(st, a);
    case ExitDelete(_) => OwnAfterDelete(st, a);
    case _ => OwnUntouched(st, a);
  }

  lemma OwnAfterEnter(st: State, a: Action)
    requires OwnInv(st) && Enabled(st, a) && (a.EnterRead? || a.EnterStore?)
    ensures OwnInv(Apply(st, a))
  {
    hide AddTo, BucketCell, SumCell, MaxCell, Owed;
  }

  lemma OwnAfterLookup(st: State, a: Action)
    requires OwnInv(st) && CallsInv(st) && Enabled(st, a) && a.ExitLookup? && !StaleLookup(st, a)
    ensures OwnInv(Apply(st, a))
  {
    hide AddTo, BucketCell, SumCell, MaxCell, Owed;
    if a.t in st.calls.inside {
      OwedAppend(st.calls.returned, st.calls.inside[a.t]);
    }
  }

  lemma OwnAfterTime(st: State, a: Action)
    requires OwnInv(st) && CallsInv(st) && StartInv(st) && Enabled(st, a) && a.ExitTime?
    ensures OwnInv(Apply(st, a))
  {
    hide AddTo, BucketCell, SumCell, MaxCell, Owed, StartAccount;
    assert ExitMatchesCall(st.pcs[a.t], st.calls, a.t);
  }

  lemma OwnAfterDelete(st: State, a: Action)
    requires OwnInv(st) && Enabled(st, a) && a.ExitDelete?
    ensures OwnInv(Apply(st, a))
  {
    hide AddTo, BucketCell, SumCell, MaxCell, Owed;
    assert ExitMatchesCall(st.pcs[a.t], st.calls, a.t);
    OwedAppend(st.calls.returned, st.calls.inside[a.t]);
  }

  lemma OwnUntouched(st: State, a: Action)
    requires OwnInv(st) && Enabled(st, a) && !UpToDelete(a)
    ensures OwnInv(Apply(st, a))
  {
    hide Apply, Enabled, Owed;
    OtherSteps(st, a);
  }

  lemma {:induction false} OwnAlways(now: U64, run: seq<Action>)
    requires Exec(now, run).Some? && NeverStaleLookup(now, run)
    ensures OwnInv(Exec(now, run).value)
  {
    if |run| > 0 {
      OwnAlways(now, run[..|run| - 1]);
      CallsAlways(now, run[..|run| - 1]);
      Invariant(now, run[..|run| - 1]);
      OwnStep(Exec(now, run[..|run| - 1]).value, run[|run| - 1]);
    }
  }

  // ---- runs with one

  /** Thread `t` found an entry that the call it ends did not store. */
  ghost predicate Mismatched(st: State, t: Tid) {
    && t in st.pcs
    && match st.pcs[t]
       case Found(s) => !InStoredCall(st.calls, t, s)
       case Timed(x) => !InStoredCall(st.calls, t, x.syscall)
       case _ => false
  }

  /** A mismatched thread stays so until it deletes the entry. */
  lemma MismatchStays(st: State, a: Action, t: Tid)
    requires Mismatched(st, t) && Enabled(st, a) && a != ExitDelete(t)
    ensures Mismatched(Apply(st, a), t)
  {
    hide Apply, Enabled;
    if UpToDelete(a) {
      MismatchKept(st, a, t);
    } else {
      OtherSteps(st, a);
    }
  }

  lemma MismatchKept(st: State, a: Action, t: Tid)
    requires Mismatched(st, t) && Enabled(st, a) && a != ExitDelete(t) && UpToDelete(a)
    ensures Mismatched(Apply(st, a), t)
  {
    hide AddTo, BucketCell, SumCell, MaxCell;
  }

  /** And then measures what no returned call owes. */
  lemma MismatchShows(st: State, t: Tid)
    requires Mismatched(st, t) && Enabled(st, ExitDelete(t)) && OwnDurations(st)
    ensures !OwnDurations(Apply(st, ExitDelete(t)))
  {
    hide AddTo, BucketCell, SumCell, MaxCell, Owed;
    var st' := Apply(st, ExitDelete(t));
    if t in st.calls.inside {
      OwedAppend(st.calls.returned, st.calls.inside[t]);
      assert st'.samples.taken[|st.samples.taken|..] == [st.pcs[t].sample];
      assert Owed(st'.calls.returned)[|Owed(st.calls.returned)|..] == OwedBy(st.calls.inside[t]);
    }
  }

  /** Durations that are wrong once are never right again. */
  lemma WrongStaysWrong(st: State, a: Action)
    requires CallsInv(st) && Enabled(st, a) && OwnDurations(Apply(st, a))
    ensures OwnDurations(st)
  {
    hide AddTo, BucketCell, SumCell, MaxCell, Owed;
    var st' := Apply(st, a);
    if a.ExitDelete? {
      var x := st.pcs[a.t].sample;
      if a.t in st.calls.inside {
        OwedAppend(st.calls.returned, st.calls.inside[a.t]);
      }
      assert st'.samples.taken[..|st.samples.taken|] == st.samples.taken;
      assert Owed(st'.calls.returned)[..|Owed(st.calls.returned)|] == Owed(st.calls.returned);
    } else if UpToDelete(a) {
      if a.t in st.calls.inside {
        OwedAppend(st.calls.returned, st.calls.inside[a.t]);
      }
    } else {
      OtherSteps(st, a);
    }
  }

  lemma {:induction false} StaleShows(now: U64, run: seq<Action>)
    requires Exec(now, run).Some? && OwnDurations(Exec(now, run).value)
    ensures NeverStaleLookup(now, run) || exists t :: Mismatched(Exec(now, run).value, t)
  {
    if |run| > 0 {
      var before, a := run[..|run| - 1], run[|run| - 1];
      var st := Exec(now, before).value;
      CallsAlways(now, before);
      WrongStaysWrong(st, a);
      StaleShows(now, before);
      if t :| Mismatched(st, t) {
        if a == ExitDelete(t) {
          MismatchShows(st, t);
          assert false;
        } else {
          MismatchStays(st, a, t);
        }
      } else if StaleLookup(st, a) {
        assert Mismatched(Apply(st, a), a.t);
      }
    }
  }

  /**
   For every run, however enters and exits are missed or dropped: the durations measured are, one for one
   and in order, exit time minus enter time of the returned calls whose enter was stored, each under its
   own syscall, if and only if no exit ever found an entry that its call had not stored.
   */
  lemma OwnDurationsUnlessStale(now: U64, run: seq<Action>)
    requires Exec(now, run).Some? && NoneMeasuring(Exec(now, run).value)
    ensures OwnDurations(Exec(now, run).value) <==> NeverStaleLookup(now, run)
  {
    if NeverStaleLookup(now, run) {
      OwnAlways(now, run);
    }
    if OwnDurations(Exec(now, run).value) {
      StaleShows(now, run);
    }
  }

  // ---- alternating enters and exits

  /**
   With both hooks of every traced syscall attached throughout, a thread enters a call only when it is
   in none and leaves the one it is in. A call that was under way when the hooks were attached shows
   as an exit with no call, which is allowed too.
   */
  predicate PairedStep(st: State, a: Action) {
    match a
    case EnterRead(t, s) => t !in st.calls.inside
    case ExitLookup(t, s) => t in st.calls.inside ==> st.calls.inside[t].syscall == s
    case _ => true
  }

  ghost predicate PairedRun(now: U64, run: seq<Action>)
    requires Exec(now, run).Some?
  {
    |run| > 0 ==>
      && PairedStep(Exec(now, run[..|run| - 1]).value, run[|run| - 1])
      && PairedRun(now, run[..|run| - 1])
  }

  /** A start entry exists exactly while its thread is in a call whose enter was stored, and holds that enter's time. */
  ghost predicate EntriesAreCalls(st: State) {
    && (forall t :: t in st.start <==> t in st.calls.inside && st.calls.inside[t].stored)
    && (forall t :: t in st.start ==> st.start[t] == st.calls.inside[t].enteredAt)
  }

  lemma EntriesStep(st: State, a: Action)
    requires EntriesAreCalls(st) && CallsInv(st) && Enabled(st, a) && PairedStep(st, a)
    ensures EntriesAreCalls(Apply(st, a)) && !StaleLookup(st, a)
  {
    hide Apply, Enabled, CallsInv, EntriesAreCalls;
    match a
    case EnterRead(_, _) => EntriesAfterEnter(st, a);
    case EnterStore(_, _, _) => EntriesAfterStore(st, a);
    case ExitLookup(_, _) => EntriesAfterExit(st, a);
    case ExitTime(_) => EntriesAfterExit(st, a);
    case ExitDelete(_) => EntriesAfterExit(st, a);
    case _ => EntriesUntouched(st, a);
  }

  lemma EntriesAfterEnter(st: State, a: Action)
    requires EntriesAreCalls(st) && Enabled(st, a) && PairedStep(st, a) && a.EnterRead?
    ensures EntriesAreCalls(Apply(st, a))
  {
    hide AddTo, BucketCell, SumCell, MaxCell, Owed;
  }

  lemma EntriesAfterStore(st: State, a: Action)
    requires EntriesAreCalls(st) && CallsInv(st) && Enabled(st, a) && a.EnterStore?
    ensures EntriesAreCalls(Apply(st, a))
  {
    hide AddTo, BucketCell, SumCell, MaxCell, Owed;
  }

  lemma EntriesAfterExit(st: State, a: Action)
    requires EntriesAreCalls(st) && Enabled(st, a) && PairedStep(st, a)
    requires a.ExitLookup? || a.ExitTime? || a.ExitDelete?
    ensures EntriesAreCalls(Apply(st, a)) && !StaleLookup(st, a)
  {
    hide AddTo, BucketCell, SumCell, MaxCell, Owed;
  }

  lemma EntriesUntouched(st: State, a: Action)
    requires EntriesAreCalls(st) && Enabled(st, a) && !UpToDelete(a)
    ensures EntriesAreCalls(Apply(st, a))
  {
    hide Apply, Enabled;
    OtherSteps(st, a);
  }

  /**
   Pairing: in every paired run a thread has a start entry exactly while it is in a call whose enter was
   allowed and stored, so no lookup is stale and every duration is its own call's. A rejected or dropped
   enter owes no sample and produces none.
   */
  lemma {:induction false} Pairing(now: U64, run: seq<Action>)
    requires Exec(now, run).Some? && PairedRun(now, run)
    ensures EntriesAreCalls(Exec(now, run).value) && NeverStaleLookup(now, run)
    ensures OwnDurations(Exec(now, run).value)
  {
    if |run| > 0 {
      Pairing(now, run[..|run| - 1]);
      CallsAlways(now, run[..|run| - 1]);
      EntriesStep(Exec(now, run[..|run| - 1]).value, run[|run| - 1]);
    }
    OwnAlways(now, run);
  }
}
