/** The dashboard's shared state, updated one event at a time, and the snapshot drawn from it. */
module Dashboard {
  import opened Words
  import opened Layout
  import opened Decoders
  import opened Hist
  import opened Ranking
  import LatencyModel
  import LatencyTheorems
  import KernelMaps

  const STREAM_MAX: nat := 512
  const TOP_MAX: nat := 10

  datatype StreamRow = StreamRow(wall: string, pid: U32, process: string, event: string, details: string)
  datatype TopRow = TopRow(process: string, pid: U32, count: nat)
  datatype Count = Count(name: string, count: nat)

  datatype Overview = Overview(rate: nat, processes: nat, tcpTotal: nat, fileTotal: nat, dropped: nat)
  datatype Snapshot = Snapshot(overview: Overview, stream: seq<StreamRow>, top: seq<TopRow>, distribution: seq<Count>,
                               latency: seq<(string, Stats)>)

  /** The names the latency rows carry, in the order of the vectors. */
  const SYSCALL_NAMES: seq<string> := ["read", "write", "openat"]

  /** One call of `push`. */
  datatype Pushed = Pushed(ev: DashboardEvent, wall: string)

  // ---- what the whole history says

  /** The process name shown: the task name up to its NUL, decoded by `from_utf8_lossy`. */
  function ProcessOf(ev: DashboardEvent, lossy: Bytes -> string): string { lossy(Cut(ev.comm)) }

  function DetailsOf(ev: DashboardEvent, lossy: Bytes -> string): string {
    match ev
    case File(_, _, _, _, path) => lossy(Cut(path))
    case Tcp(_, _, _, _, dest) => dest
  }

  function RowOf(p: Pushed, lossy: Bytes -> string): StreamRow {
    StreamRow(p.wall, p.ev.pid, ProcessOf(p.ev, lossy), EventName(p.ev), DetailsOf(p.ev, lossy))
  }

  function Rows(h: seq<Pushed>, lossy: Bytes -> string): seq<StreamRow> {
    seq(|h|, i requires 0 <= i < |h| => RowOf(h[i], lossy))
  }

  function Pids(h: seq<Pushed>): seq<U32> { seq(|h|, i requires 0 <= i < |h| => h[i].ev.pid) }

  function EventNames(h: seq<Pushed>): seq<string> { seq(|h|, i requires 0 <= i < |h| => EventName(h[i].ev)) }

  function TcpEvents(h: seq<Pushed>): nat {
    if |h| == 0 then 0 else TcpEvents(h[..|h| - 1]) + (if h[|h| - 1].ev.Tcp? then 1 else 0)
  }

  function FileEvents(h: seq<Pushed>): nat {
    if |h| == 0 then 0 else FileEvents(h[..|h| - 1]) + (if h[|h| - 1].ev.File? then 1 else 0)
  }

  /** The name in the latest event of a process. */
  function LatestName(h: seq<Pushed>, pid: U32, lossy: Bytes -> string): string {
    if |h| == 0 then ""
    else if h[|h| - 1].ev.pid == pid then ProcessOf(h[|h| - 1].ev, lossy)
    else LatestName(h[..|h| - 1], pid, lossy)
  }

  function CountsOf(processes: map<U32, (string, nat)>): map<U32, nat> {
    map pid | pid in processes :: processes[pid].1
  }

  function Last(rows: seq<StreamRow>, n: nat): seq<StreamRow> {
    if |rows| <= n then rows else rows[|rows| - n..]
  }

  /** Each process with its exact count and its latest name. */
  ghost predicate ProcessesMatch(processes: map<U32, (string, nat)>, h: seq<Pushed>, lossy: Bytes -> string) {
    && Tallies(CountsOf(processes), multiset(Pids(h)))
    && forall pid :: pid in processes ==> processes[pid].0 == LatestName(h, pid, lossy)
  }

  ghost predicate EventsMatch(byEvent: map<string, nat>, h: seq<Pushed>) {
    Tallies(byEvent, multiset(EventNames(h)))
  }

  ghost predicate RecentMatch(recent: seq<StreamRow>, h: seq<Pushed>, lossy: Bytes -> string) {
    recent == Last(Rows(h, lossy), STREAM_MAX)
  }

  /** One more event of process `pid`. */
  function Bumped(processes: map<U32, (string, nat)>, pid: U32, process: string): map<U32, (string, nat)> {
    processes[pid := (process, if pid in processes then processes[pid].1 + 1 else 1)]
  }

  function Incremented(byEvent: map<string, nat>, name: string): map<string, nat> {
    byEvent[name := (if name in byEvent then byEvent[name] else 0) + 1]
  }

  lemma ProcessesPush(processes: map<U32, (string, nat)>, h: seq<Pushed>, p: Pushed, lossy: Bytes -> string)
    requires ProcessesMatch(processes, h, lossy)
    ensures ProcessesMatch(Bumped(processes, p.ev.pid, ProcessOf(p.ev, lossy)), h + [p], lossy)
  {
    hide Tallies;
    var processes' := Bumped(processes, p.ev.pid, ProcessOf(p.ev, lossy));
    AppendNames(h, p, lossy);
    assert Pids(h + [p]) == Pids(h) + [p.ev.pid];
    TallyOne(CountsOf(processes), multiset(Pids(h)), p.ev.pid);
    var c := CountsOf(processes);
    assert CountsOf(processes') == c[p.ev.pid := (if p.ev.pid in c then c[p.ev.pid] else 0) + 1];
  }

  lemma KindsPush(h: seq<Pushed>, p: Pushed)
    ensures TcpEvents(h + [p]) == TcpEvents(h) + (if p.ev.Tcp? then 1 else 0)
    ensures FileEvents(h + [p]) == FileEvents(h) + (if p.ev.File? then 1 else 0)
  {
    assert (h + [p])[..|h|] == h;
  }

  lemma EventsPush(byEvent: map<string, nat>, h: seq<Pushed>, p: Pushed)
    requires EventsMatch(byEvent, h)
    ensures EventsMatch(Incremented(byEvent, EventName(p.ev)), h + [p])
  {
    hide EventName;
    assert EventNames(h + [p]) == EventNames(h) + [EventName(p.ev)];
    TallyOne(byEvent, multiset(EventNames(h)), EventName(p.ev));
  }

  lemma RecentPush(recent: seq<StreamRow>, h: seq<Pushed>, p: Pushed, lossy: Bytes -> string)
    requires RecentMatch(recent, h, lossy)
    ensures RecentMatch(Last(recent + [RowOf(p, lossy)], STREAM_MAX), h + [p], lossy)
  {
    hide RowOf;
    assert Rows(h + [p], lossy) == Rows(h, lossy) + [RowOf(p, lossy)];
    LastAppend(Rows(h, lossy), RowOf(p, lossy), STREAM_MAX);
  }

  class Shared {
    const lossy: Bytes -> string
    var total: nat
    var tcpTotal: nat
    var fileTotal: nat
    var dropped: nat
    var processes: map<U32, (string, nat)>
    var byEvent: map<string, nat>
    var recent: seq<StreamRow>
    var latency: seq<seq<U64>>
    ghost var history: seq<Pushed>

    /** Every field is the function of the history it is meant to be. */
    ghost predicate Valid()
      reads this
    {
      && total == |history| && tcpTotal == TcpEvents(history) && fileTotal == FileEvents(history)
      && ProcessesMatch(processes, history, lossy)
      && EventsMatch(byEvent, history)
      && RecentMatch(recent, history, lossy)
    }

    constructor (lossy: Bytes -> string)
      ensures Valid() && history == [] && dropped == 0 && latency == [] && this.lossy == lossy
    {
      this.lossy := lossy;
      total, tcpTotal, fileTotal, dropped := 0, 0, 0, 0;
      processes, byEvent, recent, latency, history := map[], map[], [], [], [];
    }

    method Push(ev: DashboardEvent, wall: string)
      requires Valid()
      modifies this
      ensures Valid() && history == old(history) + [Pushed(ev, wall)]
      ensures dropped == old(dropped) && latency == old(latency)
    {
      hide ProcessesMatch, EventsMatch, RecentMatch, Last, EventName, DetailsOf, Bumped, Incremented;
      hide TcpEvents, FileEvents, Cut;
      ghost var p := Pushed(ev, wall);
      ProcessesPush(processes, history, p, lossy);
      EventsPush(byEvent, history, p);
      RecentPush(recent, history, p, lossy);
      KindsPush(history, p);

      total := total + 1;
      var process := lossy(Cut(ev.comm));
      var details := DetailsOf(ev, lossy);
      var eventName := EventName(ev);
      var pid := ev.pid;
      match ev {
        case Tcp(_, _, _, _, _) => tcpTotal := tcpTotal + 1;
        case File(_, _, _, _, _) => fileTotal := fileTotal + 1;
      }
      Bump(pid, process);
      CountEvent(eventName);
      Remember(StreamRow(wall, pid, process, eventName, details));
      history := history + [p];
    }

    /** `entry(pid).or_insert((process, 0))`, then one more and the name if it changed. */
    method Bump(pid: U32, process: string)
      modifies `processes
      ensures processes == Bumped(old(processes), pid, process)
    {
      if pid !in processes {
        processes := processes[pid := (process, 0)];
      }
      processes := processes[pid := (processes[pid].0, processes[pid].1 + 1)];
      if processes[pid].0 != process {
        processes := processes[pid := (process, processes[pid].1)];
      }
    }

    /** `refresh_latency`, when the lock succeeds: the histograms read replace the last ones. */
    method RefreshLatency(maps: KernelMaps.LatencyMaps)
      requires Valid() && maps.Valid()
      modifies `latency
      ensures Valid()
      ensures |latency| == LatencyModel.SYSCALL_COUNT
      ensures forall s: LatencyModel.Syscall :: latency[s] == LatencyTheorems.Vector(maps.hist[..], s)
    {
      latency := maps.ReadHistogram();
    }

    /** `*entry(name).or_insert(0) += 1`. */
    method CountEvent(name: string)
      modifies `byEvent
      ensures byEvent == Incremented(old(byEvent), name)
    {
      if name !in byEvent {
        byEvent := byEvent[name := 0];
      }
      byEvent := byEvent[name := byEvent[name] + 1];
    }

    /** `push_back`, then `pop_front` while the stream is too long. */
    method Remember(row: StreamRow)
      modifies `recent
      ensures recent == Last(old(recent) + [row], STREAM_MAX)
    {
      recent := recent + [row];
      ghost var all := recent;
      while |recent| > STREAM_MAX
        invariant |recent| <= |all| && recent == all[|all| - |recent|..]
        invariant |recent| >= (if |all| <= STREAM_MAX then |all| else STREAM_MAX)
        decreases |recent|
      {
        recent := recent[1..];
      }
    }
  }

  lemma AppendNames(h: seq<Pushed>, p: Pushed, lossy: Bytes -> string)
    ensures forall pid :: LatestName(h + [p], pid, lossy)
                       == if pid == p.ev.pid then ProcessOf(p.ev, lossy) else LatestName(h, pid, lossy)
  {
    assert (h + [p])[..|h|] == h;
  }

  lemma TallyOne<K(!new)>(m: map<K, nat>, keys: multiset<K>, k: K)
    requires Tallies(m, keys)
    ensures Tallies(m[k := (if k in m then m[k] else 0) + 1], keys + multiset{k})
  {
  }

  lemma LastAppend(rows: seq<StreamRow>, row: StreamRow, n: nat)
    requires n > 0
    ensures Last(Last(rows, n) + [row], n) == Last(rows + [row], n)
  {
  }

  lemma {:induction false} KindsAddUp(h: seq<Pushed>)
    ensures TcpEvents(h) + FileEvents(h) == |h|
  {
    if |h| > 0 {
      KindsAddUp(h[..|h| - 1]);
    }
  }

  /**
   After any events: the total is the TCP and file events together, the sum over processes and the sum
   over event names; each process has its exact count and its latest name.
   */
  lemma TotalsAgree(s: Shared)
    requires s.Valid()
    ensures s.total == |s.history| == s.tcpTotal + s.fileTotal
    ensures s.total == SumValues(CountsOf(s.processes)) == SumValues(s.byEvent)
  {
    KindsAddUp(s.history);
    TalliesSum(CountsOf(s.processes), multiset(Pids(s.history)));
    TalliesSum(s.byEvent, multiset(EventNames(s.history)));
  }

  // ---- the snapshot

  predicate TopBefore(a: TopRow, b: TopRow) {
    a.count > b.count || (a.count == b.count && a.pid > b.pid)
  }

  predicate CountBefore(a: Count, b: Count) {
    a.count > b.count || (a.count == b.count && LexLess(a.name, b.name))
  }

  function TopRows(processes: map<U32, (string, nat)>): set<TopRow> {
    set pid | pid in processes :: TopRow(processes[pid].0, pid, processes[pid].1)
  }

  function EventCounts(byEvent: map<string, nat>): set<Count> {
    set name | name in byEvent :: Count(name, byEvent[name])
  }

  lemma TopBeforeTotal(processes: map<U32, (string, nat)>)
    ensures StrictTotalOn(TopRows(processes), TopBefore)
  {
  }

  lemma CountBeforeTotal(byEvent: map<string, nat>)
    ensures StrictTotalOn(EventCounts(byEvent), CountBefore)
  {
    var items := EventCounts(byEvent);
    forall x, y | x in items && y in items
      ensures !(CountBefore(x, y) && CountBefore(y, x)) && (x != y ==> CountBefore(x, y) || CountBefore(y, x))
    {
      LexTotal(x.name, y.name);
    }
    forall x, y, z | x in items && y in items && z in items && CountBefore(x, y) && CountBefore(y, z)
      ensures CountBefore(x, z)
    {
      if x.count == y.count == z.count {
        LexTransitive(x.name, y.name, z.name);
      }
    }
  }

  /** A sequence that lists each item of a set once. */
  ghost predicate Lists<T(!new)>(s: seq<T>, items: set<T>) {
    && |s| == |items|
    && (forall y :: y in s <==> y in items)
    && (forall i, j :: 0 <= i < j < |s| ==> s[i] != s[j])
  }

  /** Iterating over a hash map: its rows, each once, in any order. */
  method ListTop(processes: map<U32, (string, nat)>) returns (rows: seq<TopRow>)
    ensures Lists(rows, TopRows(processes))
  {
    rows := [];
    var left := processes.Keys;
    ghost var done: set<TopRow> := {};
    while left != {}
      invariant left <= processes.Keys
      invariant done == set pid | pid in processes.Keys - left :: TopRow(processes[pid].0, pid, processes[pid].1)
      invariant Lists(rows, done)
      decreases left
    {
      var pid :| pid in left;
      var row := TopRow(processes[pid].0, pid, processes[pid].1);
      assert row !in done;
      rows, left, done := rows + [row], left - {pid}, done + {row};
    }
    assert done == TopRows(processes);
  }

  method ListCounts(byEvent: map<string, nat>) returns (rows: seq<Count>)
    ensures Lists(rows, EventCounts(byEvent))
  {
    rows := [];
    var left := byEvent.Keys;
    ghost var done: set<Count> := {};
    while left != {}
      invariant left <= byEvent.Keys
      invariant done == set name | name in byEvent.Keys - left :: Count(name, byEvent[name])
      invariant Lists(rows, done)
      decreases left
    {
      var name :| name in left;
      var row := Count(name, byEvent[name]);
      assert row !in done;
      rows, left, done := rows + [row], left - {name}, done + {row};
    }
    assert done == EventCounts(byEvent);
  }

  function Reverse(rows: seq<StreamRow>): seq<StreamRow> {
    seq(|rows|, i requires 0 <= i < |rows| => rows[|rows| - 1 - i])
  }

  /** The vectors, as far as both lists go, each with its name and its summary. */
  function LatencyRows(latency: seq<seq<U64>>): (rows: seq<(string, Stats)>) {
    var n := if |latency| < |SYSCALL_NAMES| then |latency| else |SYSCALL_NAMES|;
    seq(n, i requires 0 <= i < n => (SYSCALL_NAMES[i], SummarizeOf(latency[i])))
  }

  method ListLatency(latency: seq<seq<U64>>) returns (rows: seq<(string, Stats)>)
    ensures rows == LatencyRows(latency)
  {
    rows := [];
    for i := 0 to |LatencyRows(latency)|
      invariant rows == LatencyRows(latency)[..i]
    {
      var stats := Summarize(latency[i]);
      rows := rows + [(SYSCALL_NAMES[i], stats)];
    }
  }

  // ---- what the two rankings are, written out

  /**
   The ten busiest processes: the highest count first, the highest pid first among equals, each with its name
   and its count; whoever is left out has a smaller count than every row, or the same and a smaller pid.
   */
  ghost predicate ShowsBusiest(processes: map<U32, (string, nat)>, top: seq<TopRow>) {
    && |top| == (if |processes| < 10 then |processes| else 10)
    && (forall i :: 0 <= i < |top| ==> top[i].pid in processes && processes[top[i].pid] == (top[i].process, top[i].count))
    && (forall i, j :: 0 <= i < j < |top| ==>
          top[i].count > top[j].count || (top[i].count == top[j].count && top[i].pid > top[j].pid))
    && (forall pid, i :: pid in processes && (forall k :: 0 <= k < |top| ==> top[k].pid != pid) && 0 <= i < |top| ==>
          top[i].count > processes[pid].1 || (top[i].count == processes[pid].1 && top[i].pid > pid))
  }

  /** All event names with their counts: the highest count first, and in the order of their bytes among equals. */
  ghost predicate ShowsDistribution(byEvent: map<string, nat>, d: seq<Count>) {
    && |d| == |byEvent|
    && (forall i :: 0 <= i < |d| ==> d[i].name in byEvent && byEvent[d[i].name] == d[i].count)
    && (forall i, j :: 0 <= i < j < |d| ==>
          || d[i].count > d[j].count
          || (d[i].count == d[j].count
              && exists k :: 0 <= k <= |d[i].name| && k < |d[j].name| && d[i].name[..k] == d[j].name[..k]
                             && (k == |d[i].name| || d[i].name[k] < d[j].name[k])))
  }

  lemma {:induction false} TopRowsSize(processes: map<U32, (string, nat)>)
    ensures |TopRows(processes)| == |processes|
    decreases |processes|
  {
    if processes == map[] {
      assert TopRows(processes) == {};
    } else {
      var pid :| pid in processes;
      var rest := processes - {pid};
      assert rest.Keys == processes.Keys - {pid};
      assert |rest| < |processes|;
      TopRowsSize(rest);
      TopRowsWithout(processes, pid);
    }
  }

  lemma TopRowsWithout(processes: map<U32, (string, nat)>, pid: U32)
    requires pid in processes
    ensures |TopRows(processes)| == |TopRows(processes - {pid})| + 1
  {
    hide TopRows;
    var row := TopRow(processes[pid].0, pid, processes[pid].1);
    var less := TopRows(processes - {pid});
    InTopRows(processes - {pid}, row);
    forall y
      ensures y in TopRows(processes) <==> y in less + {row}
    {
      InTopRows(processes, y);
      InTopRows(processes - {pid}, y);
    }
    assert TopRows(processes) == less + {row};
  }

  lemma {:induction false} EventCountsSize(byEvent: map<string, nat>)
    ensures |EventCounts(byEvent)| == |byEvent|
    decreases |byEvent|
  {
    if byEvent == map[] {
      assert EventCounts(byEvent) == {};
    } else {
      var name :| name in byEvent;
      var rest := byEvent - {name};
      assert rest.Keys == byEvent.Keys - {name};
      assert |rest| < |byEvent|;
      EventCountsSize(rest);
      EventCountsWithout(byEvent, name);
    }
  }

  lemma EventCountsWithout(byEvent: map<string, nat>, name: string)
    requires name in byEvent
    ensures |EventCounts(byEvent)| == |EventCounts(byEvent - {name})| + 1
  {
    hide EventCounts;
    var row := Count(name, byEvent[name]);
    var less := EventCounts(byEvent - {name});
    InCounts(byEvent - {name}, row);
    forall y
      ensures y in EventCounts(byEvent) <==> y in less + {row}
    {
      InCounts(byEvent, y);
      InCounts(byEvent - {name}, y);
    }
    assert EventCounts(byEvent) == less + {row};
  }

  lemma InTopRows(processes: map<U32, (string, nat)>, y: TopRow)
    ensures y in TopRows(processes) <==> y.pid in processes && processes[y.pid] == (y.process, y.count)
  {
    if y.pid in processes && processes[y.pid] == (y.process, y.count) {
      assert y == TopRow(processes[y.pid].0, y.pid, processes[y.pid].1);
    }
  }

  lemma BusiestIsRanking(processes: map<U32, (string, nat)>, top: seq<TopRow>)
    ensures ShowsBusiest(processes, top) <==> IsRanking(TopRows(processes), TopBefore, TOP_MAX, top)
  {
    hide TopRows;
    TopRowsSize(processes);
    forall i | 0 <= i < |top|
      ensures top[i] in TopRows(processes)
         <==> top[i].pid in processes && processes[top[i].pid] == (top[i].process, top[i].count)
    {
      InTopRows(processes, top[i]);
    }
    if IsRanking(TopRows(processes), TopBefore, TOP_MAX, top) {
      RankingShowsBusiest(processes, top);
    }
    if ShowsBusiest(processes, top) {
      forall x, i | x in TopRows(processes) && x !in top && 0 <= i < |top|
        ensures TopBefore(top[i], x)
      {
        InTopRows(processes, x);
        forall k | 0 <= k < |top|
          ensures top[k].pid != x.pid
        {
          assert top[k] in top;
        }
      }
    }
  }

  lemma RankingShowsBusiest(processes: map<U32, (string, nat)>, top: seq<TopRow>)
    requires IsRanking(TopRows(processes), TopBefore, TOP_MAX, top) && |TopRows(processes)| == |processes|
    ensures ShowsBusiest(processes, top)
  {
    hide TopRows;
    forall i | 0 <= i < |top|
      ensures top[i].pid in processes && processes[top[i].pid] == (top[i].process, top[i].count)
    {
      InTopRows(processes, top[i]);
    }
    forall i, j | 0 <= i < j < |top|
      ensures TopBefore(top[i], top[j])
    {
    }
    forall pid, i | pid in processes && (forall k :: 0 <= k < |top| ==> top[k].pid != pid) && 0 <= i < |top|
      ensures TopBefore(top[i], TopRow(processes[pid].0, pid, processes[pid].1))
    {
      LeftOutBelow(processes, top, pid, i);
    }
  }

  lemma LeftOutBelow(processes: map<U32, (string, nat)>, top: seq<TopRow>, pid: U32, i: nat)
    requires IsRanking(TopRows(processes), TopBefore, TOP_MAX, top) && i < |top|
    requires pid in processes && forall k :: 0 <= k < |top| ==> top[k].pid != pid
    ensures TopBefore(top[i], TopRow(processes[pid].0, pid, processes[pid].1))
  {
    hide TopRows, TopBefore;
    InTopRows(processes, TopRow(processes[pid].0, pid, processes[pid].1));
  }

  lemma DistributionIsRanking(byEvent: map<string, nat>, d: seq<Count>)
    ensures ShowsDistribution(byEvent, d) <==> IsRanking(EventCounts(byEvent), CountBefore, |EventCounts(byEvent)|, d)
  {
    hide LexLess, EventCounts;
    EventCountsSize(byEvent);
    forall i | 0 <= i < |d|
      ensures d[i] in EventCounts(byEvent) <==> d[i].name in byEvent && byEvent[d[i].name] == d[i].count
    {
      InCounts(byEvent, d[i]);
    }
    forall i, j | 0 <= i < j < |d|
      ensures CountBefore(d[i], d[j])
         <==> || d[i].count > d[j].count
              || (d[i].count == d[j].count
                  && exists k :: 0 <= k <= |d[i].name| && k < |d[j].name| && d[i].name[..k] == d[j].name[..k]
                                 && (k == |d[i].name| || d[i].name[k] < d[j].name[k]))
    {
      LexLessIs(d[i].name, d[j].name);
    }
    if ShowsDistribution(byEvent, d) {
      NoneLeftOut(byEvent, d);
    }
  }

  lemma NoneLeftOut(byEvent: map<string, nat>, d: seq<Count>)
    requires |d| == |EventCounts(byEvent)| && forall i :: 0 <= i < |d| ==> d[i] in EventCounts(byEvent)
    requires forall i, j :: 0 <= i < j < |d| ==> CountBefore(d[i], d[j])
    ensures forall x :: x in EventCounts(byEvent) ==> x in d
  {
    CountBeforeTotal(byEvent);
    forall i, j | 0 <= i < j < |d|
      ensures d[i] != d[j]
    {
      assert CountBefore(d[i], d[j]) && d[i] in EventCounts(byEvent);
    }
    DistinctSize(d);
    var shown := set y | y in d;
    SubsetFull(shown, EventCounts(byEvent));
  }

  method TopList(processes: map<U32, (string, nat)>) returns (top: seq<TopRow>)
    ensures ShowsBusiest(processes, top)
  {
    top := ListTop(processes);
    TopBeforeTotal(processes);
    SortTruncateRanks(TopRows(processes), top, TopBefore, TOP_MAX);
    top := SortBy(top, TopBefore);
    if |top| > TOP_MAX {
      top := top[..TOP_MAX];
    }
    BusiestIsRanking(processes, top);
  }

  method Distribution(byEvent: map<string, nat>) returns (distribution: seq<Count>)
    ensures ShowsDistribution(byEvent, distribution)
  {
    distribution := ListCounts(byEvent);
    CountBeforeTotal(byEvent);
    SortTruncateRanks(EventCounts(byEvent), distribution, CountBefore, |distribution|);
    SortBySorted(EventCounts(byEvent), distribution, CountBefore);
    SameMembers(SortBy(distribution, CountBefore), distribution);
    distribution := SortBy(distribution, CountBefore);
    DistributionIsRanking(byEvent, distribution);
  }

  /** Events per second, rounded down; the first second counts as a whole one. */
  function Rate(total: nat, secs: U64): (rate: nat)
    ensures secs > 0 ==> rate * secs <= total < (rate + 1) * secs
    ensures secs == 0 ==> rate == total
  {
    var whole := if secs == 0 then 1 else secs;
    QuotientBounds(total, whole);
    total / whole
  }

  /** `secs` is the whole seconds since the collector started, 0 before. */
  method Take(shared: Shared, secs: U64) returns (snap: Snapshot)
    requires shared.Valid()
    ensures snap.overview == Overview(Rate(|shared.history|, secs), |shared.processes|, shared.tcpTotal,
                                      shared.fileTotal, shared.dropped)
    ensures snap.stream == Reverse(shared.recent)
    ensures ShowsBusiest(shared.processes, snap.top)
    ensures ShowsDistribution(shared.byEvent, snap.distribution)
    ensures |snap.latency| == if |shared.latency| < 3 then |shared.latency| else 3
    ensures forall i :: 0 <= i < |snap.latency| ==>
              && snap.latency[i].0 == ["read", "write", "openat"][i]
              && snap.latency[i].1 == SummarizeOf(shared.latency[i])
  {
    hide ShowsBusiest, ShowsDistribution, Rate, SummarizeOf;
    var top := TopList(shared.processes);
    var distribution := Distribution(shared.byEvent);
    var latency := ListLatency(shared.latency);
    snap := Snapshot(Overview(Rate(shared.total, secs), |shared.processes|, shared.tcpTotal, shared.fileTotal,
                              shared.dropped),
                     Reverse(shared.recent), top, distribution, latency);
  }

  /** The snapshot is unique: no iteration order of the two hash maps can show anything else. */
  lemma SnapshotUnique(processes: map<U32, (string, nat)>, byEvent: map<string, nat>,
                       top: seq<TopRow>, top': seq<TopRow>, distribution: seq<Count>, distribution': seq<Count>)
    requires ShowsBusiest(processes, top) && ShowsBusiest(processes, top')
    requires ShowsDistribution(byEvent, distribution) && ShowsDistribution(byEvent, distribution')
    ensures top == top' && distribution == distribution'
  {
    hide ShowsBusiest, ShowsDistribution, IsRanking;
    BusiestIsRanking(processes, top);
    BusiestIsRanking(processes, top');
    DistributionIsRanking(byEvent, distribution);
    DistributionIsRanking(byEvent, distribution');
    TopBeforeTotal(processes);
    RankingUnique(TopRows(processes), TopBefore, TOP_MAX, top, top');
    CountBeforeTotal(byEvent);
    RankingUnique(EventCounts(byEvent), CountBefore, |EventCounts(byEvent)|, distribution, distribution');
  }

  function SumCounts(d: seq<Count>): nat {
    if |d| == 0 then 0 else SumCounts(d[..|d| - 1]) + d[|d| - 1].count
  }

  lemma NameCounted(byEvent: map<string, nat>, name: string)
    requires name in byEvent
    ensures EventCounts(byEvent) != {}
  {
    assert Count(name, byEvent[name]) in EventCounts(byEvent);
  }

  lemma {:induction false} ListedSum(byEvent: map<string, nat>, d: seq<Count>)
    requires forall y :: y in d <==> y in EventCounts(byEvent)
    requires forall i, j :: 0 <= i < j < |d| ==> d[i] != d[j]
    ensures SumCounts(d) == SumValues(byEvent)
  {
    if |d| == 0 {
      forall name
        ensures name !in byEvent
      {
        assert d == [] && EventCounts(byEvent) == {};
        if name in byEvent {
          NameCounted(byEvent, name);
        }
      }
      assert byEvent == map[];
    } else {
      var e, last := d[..|d| - 1], d[|d| - 1];
      assert last in d;
      SumValuesRemove(byEvent, last.name);
      var less := byEvent - {last.name};
      forall y
        ensures y in e <==> y in EventCounts(less)
      {
        ListedLess(byEvent, d, y);
      }
      ListedSum(less, e);
    }
  }

  lemma InCounts(m: map<string, nat>, y: Count)
    ensures y in EventCounts(m) <==> y.name in m && m[y.name] == y.count
  {
    if y.name in m && m[y.name] == y.count {
      assert y == Count(y.name, m[y.name]);
    }
  }

  lemma ListedLess(byEvent: map<string, nat>, d: seq<Count>, y: Count)
    requires |d| > 0 && forall y :: y in d <==> y in EventCounts(byEvent)
    requires forall i, j :: 0 <= i < j < |d| ==> d[i] != d[j]
    ensures y in d[..|d| - 1] <==> y in EventCounts(byEvent - {d[|d| - 1].name})
  {
    var e, last := d[..|d| - 1], d[|d| - 1];
    assert d == e + [last] && last in d && last !in e;
    InCounts(byEvent, y);
    InCounts(byEvent, last);
    InCounts(byEvent - {last.name}, y);
  }

  /** The distribution shown adds up to the number of events. */
  lemma DistributionAddsUp(s: Shared, distribution: seq<Count>)
    requires s.Valid() && ShowsDistribution(s.byEvent, distribution)
    ensures SumCounts(distribution) == |s.history| == s.tcpTotal + s.fileTotal
  {
    TotalsAgree(s);
    CountBeforeTotal(s.byEvent);
    DistributionIsRanking(s.byEvent, distribution);
    RankingListsAll(EventCounts(s.byEvent), CountBefore, distribution);
    ListedSum(s.byEvent, distribution);
  }

  /**
   The stream shown is the last 512 events at most, newest first, each with its time, pid, task name up to
   the NUL, event name, and path up to the NUL or destination.
   */
  lemma StreamIsNewestFirst(s: Shared)
    requires s.Valid()
    ensures var stream := Reverse(s.recent);
            && |stream| == (if |s.history| < 512 then |s.history| else 512)
            && forall i :: 0 <= i < |stream| ==>
                 var p := s.history[|s.history| - 1 - i];
                 && stream[i].wall == p.wall && stream[i].pid == p.ev.pid
                 && stream[i].process == s.lossy(Cut(p.ev.comm)) && stream[i].event == EventName(p.ev)
                 && stream[i].details == if p.ev.File? then s.lossy(Cut(p.ev.path)) else p.ev.dest
  {
    hide Cut, EventName, LatestName, ProcessesMatch, EventsMatch;
    var rows := Rows(s.history, s.lossy);
    assert s.recent == Last(rows, STREAM_MAX);
  }

  /** A process is shown under the name in its latest event, with the number of its events. */
  lemma LatestNameShown(s: Shared, n: nat)
    requires s.Valid() && n < |s.history|
    requires forall k :: n < k < |s.history| ==> s.history[k].ev.pid != s.history[n].ev.pid
    ensures var pid := s.history[n].ev.pid;
            pid in s.processes && s.processes[pid] == (s.lossy(Cut(s.history[n].ev.comm)), multiset(Pids(s.history))[pid])
  {
    hide Cut, RecentMatch, EventsMatch, TcpEvents, FileEvents;
    var pid := s.history[n].ev.pid;
    assert Pids(s.history)[n] == pid;
    assert pid in multiset(Pids(s.history));
    assert pid in CountsOf(s.processes);
    LatestNameIs(s.history, n, s.lossy);
  }

  lemma {:induction false} LatestNameIs(h: seq<Pushed>, n: nat, lossy: Bytes -> string)
    requires n < |h| && forall k :: n < k < |h| ==> h[k].ev.pid != h[n].ev.pid
    ensures LatestName(h, h[n].ev.pid, lossy) == lossy(Cut(h[n].ev.comm))
  {
    if n < |h| - 1 {
      LatestNameIs(h[..|h| - 1], n, lossy);
    }
  }
}
