/** Filter arguments, compiled by userspace into the fixed struct that every kernel hook interprets. */
module Filter {
  import opened Words
  import opened Layout

  const MAX_PIDS: nat := 16
  const COMM_MAX_LEN: nat := 15

  datatype FilterArgs = FilterArgs(pid: Option<seq<U32>>, ppid: Option<U32>, comm: Option<Bytes>)

  datatype FilterConfig = FilterConfig(
    eventMask: U32, pidCount: U32, pids: seq<U32>, ppid: U32, ppidEnabled: U32, commEnabled: U32, comm: Bytes)

  datatype Result<T> = Ok(value: T) | Err(message: string)

  /** The current task: thread group, parent's thread group, and name as `bpf_get_current_comm` gives it. */
  datatype Task = Task(pid: U32, ppid: U32, comm: Bytes)

  predicate WellFormed(cfg: FilterConfig) {
    |cfg.pids| == MAX_PIDS && |cfg.comm| == 16
  }

  // ---- compilation

  method CommBytes(comm: Bytes) returns (r: Result<Bytes>)
    ensures r.Ok? <==> 1 <= |comm| <= 15
    ensures r.Ok? ==> |r.value| == 16 && r.value[..|comm|] == comm && forall i :: |comm| <= i < 16 ==> r.value[i] == 0
  {
    if |comm| == 0 {
      return Err("comm filter must not be empty");
    }
    if |comm| > COMM_MAX_LEN {
      return Err("comm filter must be at most 15 bytes");
    }
    return Ok(comm + seq(16 - |comm|, i => 0));
  }

  /** What the struct holds for accepted arguments. */
  ghost predicate Compiled(args: FilterArgs, eventMask: U32, cfg: FilterConfig) {
    && WellFormed(cfg) && cfg.eventMask == eventMask
    && (match args.pid
        case None => cfg.pidCount == 0
        case Some(pids) => cfg.pidCount == |pids| <= MAX_PIDS && cfg.pids[..|pids|] == pids)
    && (match args.ppid
        case None => cfg.ppidEnabled == 0
        case Some(ppid) => cfg.ppidEnabled == 1 && cfg.ppid == ppid)
    && (match args.comm
        case None => cfg.commEnabled == 0
        case Some(comm) => cfg.commEnabled == 1 && |comm| <= COMM_MAX_LEN && cfg.comm[..|comm|] == comm
                           && forall i :: |comm| <= i < 16 ==> cfg.comm[i] == 0)
  }

  method Config(args: FilterArgs, eventMask: U32) returns (r: Result<FilterConfig>)
    ensures r.Ok? <==> (args.pid.Some? ==> |args.pid.value| <= 16) && (args.comm.Some? ==> 1 <= |args.comm.value| <= 15)
    ensures r.Ok? ==> Compiled(args, eventMask, r.value)
  {
    var cfg := FilterConfig(eventMask, 0, seq(MAX_PIDS, i => 0), 0, 0, 0, seq(16, i => 0));
    if args.pid.Some? {
      var pids := args.pid.value;
      if |pids| > MAX_PIDS {
        return Err("at most 16 PIDs supported");
      }
      cfg := cfg.(pidCount := |pids|);
      for i := 0 to |pids|
        invariant cfg == FilterConfig(eventMask, |pids|, cfg.pids, 0, 0, 0, seq(16, i => 0))
        invariant |cfg.pids| == MAX_PIDS && cfg.pids[..i] == pids[..i]
      {
        cfg := cfg.(pids := cfg.pids[i := pids[i]]);
      }
      assert pids[..|pids|] == pids;
    }
    if args.ppid.Some? {
      cfg := cfg.(ppid := args.ppid.value, ppidEnabled := 1);
    }
    if args.comm.Some? {
      var bytes := CommBytes(args.comm.value);
      if bytes.Err? {
        return Err(bytes.message);
      }
      cfg := cfg.(comm := bytes.value, commEnabled := 1);
    }
    return Ok(cfg);
  }

  // ---- interpretation

  /** What the hooks' loops decide, for any contents of the filter map. */
  ghost predicate Allows(filter: Option<FilterConfig>, task: Task)
    requires filter.Some? ==> WellFormed(filter.value)
    requires |task.comm| == 16
  {
    && filter.Some?
    && var f := filter.value;
    && (f.pidCount > 0 ==> exists i :: 0 <= i < f.pidCount && i < MAX_PIDS && f.pids[i] == task.pid)
    && (f.ppidEnabled != 0 ==> task.ppid == f.ppid)
    && (f.commEnabled != 0 ==> task.comm == f.comm)
  }

  method Allowed(filter: Option<FilterConfig>, task: Task) returns (ok: bool)
    requires filter.Some? ==> WellFormed(filter.value)
    requires |task.comm| == 16
    ensures ok <==> Allows(filter, task)
  {
    if filter.None? {
      return false;
    }
    var f := filter.value;
    if f.pidCount > 0 {
      var found := false;
      var count := f.pidCount;
      if count > MAX_PIDS {
        count := MAX_PIDS;
      }
      var i := 0;
      while i < MAX_PIDS && i < count
        invariant 0 <= i <= count
        invariant !found && forall j :: 0 <= j < i ==> f.pids[j] != task.pid
      {
        if f.pids[i] == task.pid {
          found := true;
          break;
        }
        i := i + 1;
      }
      if !found {
        return false;
      }
    }
    if f.ppidEnabled != 0 {
      if task.ppid != f.ppid {
        return false;
      }
    }
    if f.commEnabled != 0 {
      for i := 0 to 16
        invariant task.comm[..i] == f.comm[..i]
      {
        if task.comm[i] != f.comm[i] {
          assert task.comm != f.comm;
          return false;
        }
      }
      assert task.comm[..16] == task.comm && f.comm[..16] == f.comm;
    }
    return true;
  }

  // ---- meaning

  /** What the command line promises: pid listed, parent as given, name equal. */
  predicate Wanted(args: FilterArgs, task: Task) {
    && (args.pid.Some? && |args.pid.value| > 0 ==> task.pid in args.pid.value)
    && (args.ppid.Some? ==> task.ppid == args.ppid.value)
    && (args.comm.Some? ==> Cut(task.comm) == Cut(args.comm.value))
  }

  /** A name with nothing but NULs after its first NUL; on a command line it cannot contain one at all. */
  predicate PlainName(comm: Bytes) {
    forall i :: NulIndex(comm) <= i < |comm| ==> comm[i] == 0
  }

  lemma PaddedEqual(task: Bytes, field: Bytes, name: Bytes)
    requires NulPadded(task) && |name| <= 15 && |field| == 16
    requires field[..|name|] == name && forall i :: |name| <= i < 16 ==> field[i] == 0
    ensures task == field <==> Cut(task) == Cut(name) && PlainName(name)
  {
    var n := NulIndex(name);
    assert forall i :: 0 <= i < |name| ==> field[i] == name[i] by {
      forall i | 0 <= i < |name| ensures field[i] == name[i] { assert field[..|name|][i] == name[i]; }
    }
    CutIs(field, n);
    assert Cut(field) == Cut(name);
    if Cut(task) == Cut(name) && PlainName(name) {
      assert NulIndex(task) == |Cut(task)| == n;
      forall i | 0 <= i < 16
        ensures task[i] == field[i]
      {
        if i < n {
          assert task[i] == Cut(task)[i] == Cut(name)[i] == name[i];
        }
      }
    }
    if task == field {
      assert NulIndex(task) == n;
    }
  }

  /**
   Compilation preserves meaning: for every task, `allowed` over the compiled struct is true exactly when
   the task is wanted, provided the name has nothing after a NUL; a name that has matches no task at all.
   */
  lemma CompiledMeaning(args: FilterArgs, eventMask: U32, cfg: FilterConfig, task: Task)
    requires Compiled(args, eventMask, cfg) && NulPadded(task.comm)
    ensures Allows(Some(cfg), task)
       <==> Wanted(args, task) && (args.comm.Some? ==> PlainName(args.comm.value))
  {
    if args.pid.Some? {
      var pids := args.pid.value;
      forall i | 0 <= i < |pids|
        ensures cfg.pids[i] == pids[i]
      {
        assert cfg.pids[..|pids|][i] == pids[i];
      }
    }
    if args.comm.Some? {
      PaddedEqual(task.comm, cfg.comm, args.comm.value);
    }
  }

  /** Exactly when the compiled filter means what was asked, for every task: when the name is plain. */
  lemma MeaningKeptIffPlain(args: FilterArgs, eventMask: U32, cfg: FilterConfig)
    requires Compiled(args, eventMask, cfg)
    ensures (forall task: Task :: NulPadded(task.comm) ==> (Allows(Some(cfg), task) <==> Wanted(args, task)))
       <==> (args.comm.Some? ==> PlainName(args.comm.value))
  {
    if args.comm.None? || PlainName(args.comm.value) {
      forall task: Task | NulPadded(task.comm)
        ensures Allows(Some(cfg), task) <==> Wanted(args, task)
      {
        CompiledMeaning(args, eventMask, cfg, task);
      }
    } else {
      var task := TaskNamed(args);
      CompiledMeaning(args, eventMask, cfg, task);
    }
  }

  /** A task the arguments ask for. */
  lemma TaskNamed(args: FilterArgs) returns (task: Task)
    requires args.comm.Some? && |args.comm.value| < 16
    ensures NulPadded(task.comm) && Wanted(args, task)
  {
    var cut := Cut(args.comm.value);
    var name := cut + seq(16 - |cut|, i => 0);
    CutIs(name, |cut|);
    assert NulIndex(name) == |Cut(name)| == |cut|;
    var pid := if args.pid.Some? && |args.pid.value| > 0 then args.pid.value[0] else 0;
    task := Task(pid, if args.ppid.Some? then args.ppid.value else 0, name);
  }
}
