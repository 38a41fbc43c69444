# tracelet in Dafny

tracelet traces a Linux system with eBPF: C hooks in the kernel aggregate or emit events, and Rust code
in userspace reads them, prints them and draws a dashboard. This project models that data path and
states what it promises over whole runs. `dafny verify dfyconfig.toml` checks it.

## How it is laid out

| files | what they model |
|---|---|
| `Words`, `Buckets`, `Hist`, `NearestRank` | log2 buckets, percentiles, and what the counters say about the durations behind them |
| `LatencyModel`, `LatencyInvariants`, `LatencyTheorems`, `LatencyPairing`, `TornScan`, `ScanCells`, `LatencyWitnesses` | the in-kernel latency pipeline as a state machine: any number of threads inside `syscall_enter` / `syscall_exit`, one step at a time, and a userspace scan that reads one cell at a time |
| `KernelMaps` | the same hooks as methods that update the maps in place, and the histogram reader |
| `Layout`, `Records`, `Decoders` | ring-buffer records: the C writers filling a dirty slot, and the two decoders |
| `Filter` | filter arguments, the struct they compile to, and the hooks' `allowed` |
| `JsonLines`, `JsonParse`, `JsonTheorems` | the JSON line writers, an independent reader after section 7 of RFC 8259, and the proof that it undoes them |
| `Ranking`, `Dashboard`, `CollectorDrops` | the dashboard's shared state, its snapshot, and its dropped figure |
| `Loss` | where every event goes between a hook and the closing summary |
| `EndToEnd` | what fired, the records submitted for it, and the JSON text printed, joined |

Machine words are bounded integers and every wrap-around of a kernel cell is written out. The state
machines keep histories next to the state; no step looks at them. A theorem about runs quantifies over
every sequence of steps, so over every interleaving. Whether the filter lets a hook through, whether a map
update fails and whether a ring-buffer reserve fails are free choices of the run.

Assumptions, each stated where it is used: the clock does not go backwards (`Tick` only adds); a thread
runs one hook at a time; `p * total` does not wrap where a percentile is claimed (99 times the samples
is below 2^64), and `RankIsNearestUnlessWrapped` says that this is exactly when the rank is right; a
task name is 16 bytes, NUL-terminated and NUL-padded; integers are little-endian on both sides; a string
read cut short by its NUL leaves the rest of the field as it was, and one that faults clears it; `u64`
arithmetic in `src/hist.rs` wraps, as it does in a release build; address families are below 256.

Where the code and its documentation differ, the code is modelled: the latency array has 102 cells, not
96 (README.md:227); the last bucket starts at 2^31 ns and 2.1 s is reported as 2^31 ns (README.md:252-256,
`LastBucketStart`); an enter that does not fit in the start map is counted as a drop, not lost silently
(README.md:261, `StartMapConservation`).

Three things the code does that a reader may not expect have a concrete run or record beside the theorem
that says exactly when they happen: overlapping exits can lower the maximum (`OverlapLosesMaximum`, and
`MaxHoldsUnlessStale`); a duration can be measured from another call's entry when exits are missed, against
README.md:261-262 (`UnpairedExitMisattributes`, and `OwnDurationsUnlessStale`); old bytes in a ring-buffer
slot can make every decoder reject a good record (`DirtySlotRejects`, and `ExecRoundTrip`).

## Model

| member | source | states |
|---|---|---|
| Buckets.Log2Slot | src/bpf/tracelet.bpf.c:240-267 | the six-stage halving gives 0 for 0 and otherwise the r with 2^r <= v < 2^(r+1), for every u64 |
| Buckets.BucketsPartition | src/bpf/tracelet.bpf.c:293-295 | with the clamp, the 32 buckets partition all of u64: a value counts in a bucket exactly when it lies in its range |
| Buckets.PrintedBound | src/hist.rs:11-17 | the bound printed for a duration exceeds it exactly when it is under 2^32 ns, and is at most twice it (or 2 ns) |
| Buckets.LastBucketStart | README.md:252-256 | the last bucket is exactly the durations from 2^31 ns on, and 2.1 s prints as 2^31 ns |
| Hist.RankIsNearestUnlessWrapped | src/hist.rs:55 | the computed rank is ceil(p*total/100) exactly when p*total does not wrap |
| Hist.Percentile | src/hist.rs:51-64 | for any counts and total the prefix-sum loop returns the bound of the first slot whose running total, modulo 2^64, reaches the rank, or of the last slot if none does |
| Hist.PercentileCases | src/hist.rs:51-64 | the first slot whose wrapped running total reaches the rank decides, the last slot when none does |
| Hist.Summarize | src/hist.rs:19-37 | count modulo 2^64, sum, max and the three percentiles of any vector of any length |
| NearestRank.PercentileIsNearestRank | src/hist.rs:51-64 | for any n >= 1 durations the percentile is the printed bound of the ceil(p*n/100)-th smallest one, and the fallback after the loop is not reached |
| NearestRank.PercentileBrackets | src/hist.rs:11-64 | that percentile is above the duration it stands for exactly when it is under 2^32 ns, and always at most twice it (or 2 ns) |
| NearestRank.BucketsBracketSum | src/bpf/tracelet.bpf.c:293-304 | the sum of the durations lies between the counts weighted with lower edges and, for durations under 2^32 ns, with printed bounds |
| NearestRank.SummaryCoherent | src/latency.rs:111-112 | count, sum and maximum are those of the durations, the mean m satisfies m*count <= sum < (m+1)*count, highest non-empty bucket is the maximum's, mean <= max, p50 <= p95 <= p99 <= 2*max(max, 1) |
| LatencyInvariants.CellBijection | src/bpf/tracelet.bpf.c:296-306 | syscall * 34 + slot is a bijection from 3 x 34 onto 0..101 |
| LatencyInvariants.Invariant | src/bpf/tracelet.bpf.c:269-312 | every run keeps: cells tally the logs, samples in flight account for the differences between stages, start map accounting, maximum cells, scans |
| LatencyTheorems.QuiescentHistogram | src/bpf/tracelet.bpf.c:281-312 | after any interleaving, with no exit in progress, buckets count exactly the completed durations, the sum is their total mod 2^64, the max is one of them |
| LatencyTheorems.StartMapConservation | src/bpf/tracelet.bpf.c:226-291 | allowed enters = measured + counted drops + overwritten + live entries in every run, never more than 10240 entries; measured = recorded once no exit is in progress |
| LatencyTheorems.ExitsNeverStuck | src/bpf/tracelet.bpf.c:281-312 | in every reachable state each thread inside a hook can take its next step, and up to the delete its start entry is still there and not in the future |
| LatencyTheorems.MaxHoldsUnlessStale | src/bpf/tracelet.bpf.c:306-309 | the maximum is at least every completed duration throughout a run if and only if no exit stores over a larger value than it compared with |
| LatencyTheorems.SeparateExitsKeepMax | src/bpf/tracelet.bpf.c:306-309 | when no two exits of a syscall overlap between compare and store, the cell is exactly the maximum |
| LatencyTheorems.SummaryOfRun | src/latency.rs:110-124 | after any run whose exits are over and none of whose stores put back a smaller maximum, the summary cut from the cells is coherent with the durations measured: their count, their sum, the mean rounded down, their maximum, ascending percentiles |
| LatencyTheorems.SummaryOfSeparateExits | src/latency.rs:110-124 | in particular when no two exits of a syscall overlapped there |
| LatencyPairing.OwnDurationsUnlessStale | README.md:261-262 | for every run, however enters and exits are missed or dropped: the durations measured are, in order, exit minus enter time of the returned calls with a stored enter, each under its own syscall, if and only if no exit found an entry its own call had not stored |
| LatencyPairing.Pairing | src/bpf/tracelet.bpf.c:269-291 | with alternating enters and exits an entry exists exactly inside a call whose enter was stored and holds its time, so no lookup is stale and every duration is its own call's |
| LatencyWitnesses.OverlapLosesMaximum | src/bpf/tracelet.bpf.c:306-309 | a run of two overlapping reads of 5 and 2 ns that ends with maximum 2 |
| LatencyWitnesses.UnpairedExitMisattributes | src/bpf/tracelet.bpf.c:283-291 | a run in which the exit of a write, entered before its hook was attached, is measured from the entry of a read whose exit was not seen; the read's call owed 7 ns of `read`, and 7 ns of `write` were counted |
| ScanCells.EveryScanTaken | src/latency.rs:46-63 | in every run each of a finished scan's 102 values is what that cell held at one step of the run, the steps in order between the scan's start and its end |
| ScanCells.QuietScanIsExact | src/latency.rs:46-63 | a scan with no write between its start and its last read equals the whole array of that time |
| ScanCells.ScannedSum | src/latency.rs:46-63 | with exits running, each sum cell is the total modulo 2^64 of the durations summed up to one moment between the scan's start and end |
| ScanCells.ScannedMaximum | src/latency.rs:46-63 | and each maximum cell is 0 or a duration of that syscall completed before the scan's end, and not 0 once one above 0 had completed before its start |
| ScanCells.ScannedMaximumBounds | src/latency.rs:46-63 | unless a store put back a smaller maximum, it is at least every duration completed before the scan began |
| ScanCells.QuietScanSummary | src/latency.rs:99-128 | the row printed from a quiet scan has the count, sum, mean, maximum and percentiles of the durations measured |
| TornScan.TornCounts | src/latency.rs:46-63 | a scan among running exits counts exactly one multiset of samples between those at its start and those at its end |
| TornScan.TornPercentiles | src/hist.rs:19-64 | every percentile from such a scan is the exact nearest-rank bound of that multiset, and its count the multiset's size |
| TornScan.ScansNeverGoBack | src/latency.rs:46-63 | no bucket of a later scan is below an earlier scan's |
| KernelMaps.LatencyMaps.CountDrop | src/bpf/tracelet.bpf.c:34-40 | adds one to an existing cell, modulo 2^64, and nothing else |
| KernelMaps.LatencyMaps.ReadDrops | src/stats.rs:18-19 | userspace takes the ring-buffer figure from key 0 and the latency figure from key 1 |
| KernelMaps.LatencyMaps.SyscallEnter | src/bpf/tracelet.bpf.c:269-279 | stores the time, counts a drop under key 1 when the update fails, or leaves everything as it was |
| KernelMaps.LatencyMaps.SyscallExit | src/bpf/tracelet.bpf.c:281-312 | removes the entry and records its duration in bucket, sum and maximum, or changes nothing when there is no entry |
| KernelMaps.LatencyMaps.ReadHistogram | src/latency.rs:46-63 | from an unchanging array the reader recovers exactly the three per-syscall vectors |
| KernelMaps.ExitKeepsOtherVectors | src/bpf/tracelet.bpf.c:296-309 | an exit of one syscall changes no cell of another |
| KernelMaps.ExitUpdatesOwnVector | src/bpf/tracelet.bpf.c:296-309 | and in its own vector only its bucket, the sum and the maximum |
| KernelMaps.UninterruptedExit | src/bpf/tracelet.bpf.c:281-312 | the state machine's steps, uninterrupted, have the effect of the method |
| Records.TraceExec | src/bpf/tracelet.bpf.c:98-119 | each field of an exec record at its offset; padding and the path field after its NUL keep their old bytes |
| Records.SubmitOpen | src/bpf/tracelet.bpf.c:123-149 | the same for an open record |
| Records.SubmitTcp | src/bpf/tracelet.bpf.c:169-201 | the same for a TCP record; for IPv4 only 4 of 16 address bytes are written |
| Records.ExecRoundTrip | tracelet-common/src/stream.rs:116-140 | over any old bytes: what is read back is the whole path up to 127 bytes and the first 127 bytes of a longer one, the bytes after its NUL are the old ones, and the record is accepted exactly when name, kept path and those old bytes are printable, with every other field as fired |
| Records.OpenRoundTrip | tracelet-common/src/stream.rs:141-153 | the same for open records |
| Records.TcpRoundTrip | tracelet-common/src/stream.rs:102-114 | accepted exactly when name, family and type are valid; pid, ports and addresses come back and stale address bytes never show |
| Records.DirtySlotRejects | src/bpf/tracelet.bpf.c:115-116 | an exec of `/bin/x` in a slot with an old unprintable byte in its path field is rejected by both decoders |
| Decoders.DecodersAgree | tracelet-common/src/stream.rs:116-165 | on every byte string the dashboard decoder accepts exactly when the decoder chosen by the kind does, with equal fields |
| Decoders.ExecAccepted | src/events.rs:56-63 | accepted exactly when 176 bytes long, with version bytes 1 0 0 0 and bytes 28 to 171 NUL or 0x20 to 0x7e |
| Decoders.OpenAccepted | src/events.rs:65-72 | the same for 168 bytes and bytes 24 to 167 |
| Decoders.TcpAccepted | src/events.rs:74-87 | for 80 bytes, bytes 20 to 35, type byte 36 from 1 to 3 and family byte 37 either 2 or 10 |
| Decoders.ExecFields | src/events.rs:38-63 | pid, ppid, name and path of an accepted record are those little-endian words and bytes of it |
| Decoders.OpenFields | src/events.rs:38-72 | the same for open records |
| Decoders.TcpFields | src/events.rs:38-87 | the same for TCP records, with ports and addresses |
| Decoders.NamesShown | tracelet-common/src/stream.rs:36-165 | the event name shown is EXEC, OPEN, CONNECT, ACCEPT or CLOSE according to the record's kind and type bytes |
| Decoders.AtMostOneDecoder | src/events.rs:56-87 | at most one dedicated decoder accepts a record |
| Decoders.CollectorTimeIsKtime | src/collector.rs:96-103 | bytes 8..16 of an accepted record are its `ktime_ns` |
| Filter.CommBytes | src/filter.rs:127-142 | accepts exactly 1 to 15 bytes and pads them with NULs |
| Filter.Config | src/filter.rs:76-101 | accepts exactly at most 16 PIDs and a valid name, and fills the struct with them |
| Filter.Allowed | src/bpf/tracelet.bpf.c:42-86 | for any struct contents, decides pid membership among the first min(count, 16) entries, parent and name |
| Filter.CompiledMeaning | src/bpf/tracelet.bpf.c:42-86 | over the compiled struct, allowed exactly the tasks the arguments ask for, when the name has nothing after a NUL; otherwise none |
| Filter.MeaningKeptIffPlain | src/filter.rs:94-97 | compilation preserves the meaning for all tasks if and only if the name has nothing after its first NUL |
| JsonLines.JsonEscapeString | src/output.rs:3-20 | appends the quoted, escaped string |
| JsonLines.EscapesAre | src/output.rs:5-17 | the escape of each byte: five short ones, 0x20 to 0x7e as they are, any other as \u00 and two lower-case hexadecimal digits |
| JsonLines.ExecJsonLine | src/output.rs:22-41 | appends the line of an exec record |
| JsonLines.ExecLineText | src/output.rs:22-41 | that line, character by character: its literal pieces around the escaped and decimal arguments |
| JsonLines.OpenJsonLine | src/output.rs:43-53 | appends the line of an open record |
| JsonLines.OpenLineText | src/output.rs:43-53 | that line, character by character: its literal pieces around the escaped and decimal arguments |
| JsonLines.TcpJsonLine | src/output.rs:55-77 | appends the line of a TCP record |
| JsonLines.TcpLineText | src/output.rs:55-77 | that line, character by character: its literal pieces around the escaped and decimal arguments |
| JsonLines.LatencyJsonLine | src/output.rs:80-108 | appends the line of a latency record |
| JsonLines.LatencyLineText | src/output.rs:80-108 | that line, character by character: its literal pieces around the escaped and decimal arguments |
| JsonTheorems.EscapeRoundTrip | src/output.rs:3-20 | an RFC 8259 string reader undoes the escaping of every byte string, whatever follows |
| JsonTheorems.LineRoundTrip | src/output.rs:22-108 | every line is one JSON object with exactly the record's members in order |
| JsonTheorems.ExecLineReads | src/output.rs:22-41 | the exec line is the object with members event "exec", time, pid, ppid, comm, filename, in that order with the arguments as values |
| JsonTheorems.OpenLineReads | src/output.rs:43-53 | the open line: event "open", time, pid, comm, filename |
| JsonTheorems.TcpLineReads | src/output.rs:55-77 | the TCP line: event "tcp", time, pid, comm, tcp_event, source, destination |
| JsonTheorems.LatencyLineReads | src/output.rs:80-108 | the latency line: event "latency", time, syscall, count, p50, p95, p99, mean, max |
| JsonTheorems.LogRoundTrip | src/output.rs:22-114 | any concatenation of lines splits at newlines into the same records, every field recovered |
| Dashboard.Shared.Push | src/collector.rs:65-93 | after any pushes each field is its function of the whole history |
| Dashboard.TotalsAgree | src/collector.rs:65-93 | total = TCP + file = sum over processes = sum over event names = number of events |
| Dashboard.Shared.RefreshLatency | src/collector.rs:180-207 | the latency vectors become the slices of the kernel's cells, and nothing else changes |
| Dashboard.Take | src/collector.rs:219-261 | overview with its rate rounded down, newest-first stream; the ten busiest processes, highest count first and highest pid among equals, nobody left out who ranks higher; all event names with their counts, highest first and by bytes among equals; `read`, `write` and `openat` each with the summary of its own vector |
| Dashboard.SnapshotUnique | src/collector.rs:226-242 | there is only one top list and one distribution that fit, whatever order the maps iterate in |
| Dashboard.DistributionAddsUp | src/collector.rs:237-242 | the distribution sums to the number of events |
| Dashboard.StreamIsNewestFirst | src/collector.rs:256 | the stream is the last min(n, 512) events, newest first, each with its time, pid, name, event and path or destination |
| Dashboard.LatestNameShown | src/collector.rs:76-80 | a process has the name in its latest event and the number of its events |
| Loss.Consumer.OnRecord | src/exec.rs:51-77 | one record is printed, rejected or, after the stop signal, ignored |
| Loss.Consumer.WarnOnDrops | src/stats.rs:17-29 | each seen counter rises to the kernel's and never falls |
| Loss.RunAndSummarize | src/exec.rs:51-86 | the consumer's variables driven along any run: the closing line prints exactly the accepted records handed over while running, and with the reported losses falls short of all that happened by the pending, the ignored and the drops not yet looked at |
| Loss.EveryFiringAccounted | src/exec.rs:44-83 | in every interleaving: allowed firings = ring drops + pending + printed + rejected + ignored, and records come out in order |
| Loss.SummaryNeverOverstates | src/exec.rs:85-86 | printed + dropped never exceeds what happened, and falls short by exactly the pending, the ignored and the drops not yet looked at |
| Loss.SummaryWithoutLatency | src/exec.rs:37-86 | with no latency hook attached, printed + dropped never exceeds the allowed firings, with the exact shortfall |
| Loss.FiguresOnlyRise | src/stats.rs:17-29 | from any prefix of a run on, no figure falls, none changes once the loop has stopped, and no count once the signal has come |
| Loss.NothingAfterSignal | src/exec.rs:51-83 | once the signal has come no count changes, and the next check stops the loop |
| Loss.LookAfterPoll | src/exec.rs:80-83 | between a poll and the next check both drop counters are looked at, the ring buffer's first |
| Loss.WarnSeesAll | src/stats.rs:17-29 | a look with no drop meanwhile leaves nothing unseen |
| EndToEnd.PrintAll | src/exec.rs:51-77 | the callbacks' JSON text is the concatenation of the lines of the accepted records |
| EndToEnd.RecordTells | src/exec.rs:55-71 | a hook's record is accepted exactly when it is readable, and its line then tells the firing's own time, pid, name, whole path up to 127 bytes or its first 127, or its event and both endpoints |
| EndToEnd.TextTellsTheRun | src/exec.rs:44-83 | in every interleaving the text of an exec, open or tcp run, read back, is in order exactly the allowed firings not dropped, pending, ignored or unreadable, each with its own fields, and as many as the summary counts |
| CollectorDrops.DroppedIsSound | src/collector.rs:165-176 | the dropped figure never exceeds the kernel's total, and a successful lock makes it the total seen in the iteration before |
| CollectorDrops.UndisturbedLookShowsAll | src/collector.rs:165-176 | a look with no drop meanwhile and then a lock show exactly the kernel's totals |
| CollectorDrops.DroppedNeverDecreases | src/collector.rs:165-176 | it never decreases over a run |

## Left out

- Loading, attaching, map system calls and ring-buffer memory: foreign calls. Maps are finite maps or arrays, and a reserve may fail at any time.
- `src/dashboard.rs`, the command line, signals, kernel checks and error texts: user interface and plumbing.
- `--count` and `--duration`: limits are looked at only between polls, so the model lets the loop stop at any check.
- Poll, lookup and lock errors end `run` with an error and no summary; the model has no such ending. A failed lookup of the collector is `LookFails`.
- `boot_time_ns`, wall-clock formatting and `format_ns`: they depend on the real clock or on floating-point text. Elapsed whole seconds are a parameter of `Take`.
- A failed lock or map lookup in `refresh_latency` keeps the old vectors or reads a cell as 0; the model reads every cell.
- Address text and `from_utf8_lossy` are arbitrary functions of the bytes; `str_of` is the bytes up to the NUL, which is what it yields for the printable bytes a decoder accepts.
- The standard library's sort is an insertion sort; for distinct rows any sort by the comparison gives the same list, which is what `SnapshotUnique` uses.
- `trace_tcp`'s choice of event type and the event mask: settled by reading its three branches.
- The `open` and `tcp` loops: they are the `exec` loop with another decoder, which is a parameter here.
- The dashboard's counters and the callback's counters are unbounded; 2^64 events are out of reach.
- A debug build stops at an overflow in `src/hist.rs` where the model, like a release build, wraps.
- KernelMaps.LatencyMaps.SyscallExit: is one exit at a time; interleaving is the state machine's matter, and `UninterruptedExit` joins the two.
- LatencyTheorems.QuiescentHistogram: claims unwrapped counts only while fewer than 2^64 samples were counted; the wrap itself is in `Invariant`.
- A scan's sum, maximum and buckets belong to different moments when exits run meanwhile: each is tied to its own moment, and no relation between them is claimed.
