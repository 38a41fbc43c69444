/** The JSON line writers, appending to a text buffer in place. Strings come in as their bytes. */
module JsonLines {
  import opened Words
  import opened Layout

  /** A `String` being appended to. */
  class Text {
    var text: string

    constructor ()
      ensures text == ""
    {
      text := "";
    }

    method PushStr(s: string)
      modifies this
      ensures text == old(text) + s
    {
      text := text + s;
    }
  }

  function HexDigit(n: nat): char
    requires n < 16
  {
    if n < 10 then '0' + n as char else 'a' + (n - 10) as char
  }

  /** One byte inside a JSON string. */
  function EscapeByte(b: Byte): string {
    if b == 0x5c then "\\\\"
    else if b == 0x22 then "\\\""
    else if b == 0x0a then "\\n"
    else if b == 0x0d then "\\r"
    else if b == 0x09 then "\\t"
    else if 0x20 <= b <= 0x7e then [b as char]
    else ['\\', 'u', '0', '0', HexDigit(b / 16), HexDigit(b % 16)]
  }

  /** The escapes, written out: five short ones, printable characters as they are, anything else in lower-case hex. */
  lemma EscapesAre(b: Byte)
    ensures EscapeByte(0x5c) == "\\\\" && EscapeByte(0x22) == "\\\""
    ensures EscapeByte(0x0a) == "\\n" && EscapeByte(0x0d) == "\\r" && EscapeByte(0x09) == "\\t"
    ensures 0x20 <= b <= 0x7e && b != 0x5c && b != 0x22 ==> EscapeByte(b) == [b as char]
    ensures !(0x20 <= b <= 0x7e) && b != 0x0a && b != 0x0d && b != 0x09 ==>
      EscapeByte(b) == "\\u00" + ["0123456789abcdef"[b / 16], "0123456789abcdef"[b % 16]]
  {
  }

  function Escape(s: Bytes): string {
    if |s| == 0 then "" else EscapeByte(s[0]) + Escape(s[1..])
  }

  function Quoted(s: Bytes): string { "\"" + (Escape(s) + "\"") }

  /** One `push_str`; `rest` is what is still to come of `goal`. */
  method Push(out: Text, s: string, ghost rest: string, ghost goal: string)
    requires out.text + (s + rest) == goal
    modifies out
    ensures out.text == old(out.text) + s && out.text + rest == goal
  {
    out.PushStr(s);
    assert out.text + rest == old(out.text) + (s + rest);
  }

  lemma EscapeFrom(s: Bytes, i: nat)
    requires i < |s|
    ensures Escape(s[i..]) + "\"" == EscapeByte(s[i]) + (Escape(s[i + 1..]) + "\"")
  {
    hide EscapeByte;
    assert s[i..][1..] == s[i + 1..];
  }

  lemma EscapeEnds(s: Bytes)
    ensures Escape(s[0..]) == Escape(s) && Escape(s[|s|..]) + "\"" == "\"" + ""
  {
    assert s[0..] == s;
  }

  method JsonEscapeString(out: Text, s: Bytes)
    modifies out
    ensures out.text == old(out.text) + Quoted(s)
  {
    hide Escape, EscapeByte;
    ghost var goal := out.text + Quoted(s);
    Push(out, "\"", Escape(s) + "\"", goal);
    EscapeEnds(s);
    for i := 0 to |s|
      invariant out.text + (Escape(s[i..]) + "\"") == goal
    {
      EscapeFrom(s, i);
      Push(out, EscapeByte(s[i]), Escape(s[i + 1..]) + "\"", goal);
    }
    Push(out, "\"", "", goal);
    assert out.text + "" == out.text;
  }

  method PushQuoted(out: Text, s: Bytes, ghost rest: string, ghost goal: string)
    requires out.text + (Quoted(s) + rest) == goal
    modifies out
    ensures out.text + rest == goal
  {
    JsonEscapeString(out, s);
    assert out.text + rest == old(out.text) + (Quoted(s) + rest);
  }

  // ---- lines

  datatype Value = Str(bytes: Bytes) | Num(n: nat)
  datatype Key =
    | Pid | Ppid | Comm | Filename | TcpEventKey | SourceKey | DestinationKey
    | SyscallKey | Count | P50 | P95 | P99 | MeanKey | MaxKey

  datatype Field = Field(key: Key, value: Value)

  /** What one line reports. Durations in a latency line are already formatted. */
  datatype Record =
    | Exec(time: Bytes, pid: U32, ppid: U32, comm: Bytes, filename: Bytes)
    | Open(time: Bytes, pid: U32, comm: Bytes, filename: Bytes)
    | Tcp(time: Bytes, pid: U32, comm: Bytes, event: Bytes, source: Bytes, destination: Bytes)
    | Latency(time: Bytes, syscall: Bytes, count: U64, p50: Bytes, p95: Bytes, p99: Bytes, mean: Bytes, max: Bytes)

  datatype Kind = ExecLine | OpenLine | TcpLine | LatencyLine

  function KindOf(r: Record): Kind {
    match r
    case Exec(_, _, _, _, _) => ExecLine
    case Open(_, _, _, _) => OpenLine
    case Tcp(_, _, _, _, _, _) => TcpLine
    case Latency(_, _, _, _, _, _, _, _) => LatencyLine
  }

  function KindName(kind: Kind): string {
    match kind
    case ExecLine => "exec"
    case OpenLine => "open"
    case TcpLine => "tcp"
    case LatencyLine => "latency"
  }

  /** The members after `event` and `time`. */
  function Details(r: Record): seq<Field> {
    match r
    case Exec(_, pid, ppid, comm, filename) =>
      [Field(Pid, Num(pid)), Field(Ppid, Num(ppid)), Field(Comm, Str(comm)), Field(Filename, Str(filename))]
    case Open(_, pid, comm, filename) =>
      [Field(Pid, Num(pid)), Field(Comm, Str(comm)), Field(Filename, Str(filename))]
    case Tcp(_, pid, comm, event, source, destination) =>
      [Field(Pid, Num(pid)), Field(Comm, Str(comm)), Field(TcpEventKey, Str(event)),
       Field(SourceKey, Str(source)), Field(DestinationKey, Str(destination))]
    case Latency(_, syscall, count, p50, p95, p99, mean, max) =>
      [Field(SyscallKey, Str(syscall)), Field(Count, Num(count)), Field(P50, Str(p50)), Field(P95, Str(p95)),
       Field(P99, Str(p99)), Field(MeanKey, Str(mean)), Field(MaxKey, Str(max))]
  }

  function Render(v: Value): string {
    match v
    case Str(b) => Quoted(b)
    case Num(n) => Decimal(n)
  }

  function KeyName(key: Key): string {
    match key
    case Pid => "pid"
    case Ppid => "ppid"
    case Comm => "comm"
    case Filename => "filename"
    case TcpEventKey => "tcp_event"
    case SourceKey => "source"
    case DestinationKey => "destination"
    case SyscallKey => "syscall"
    case Count => "count"
    case P50 => "p50"
    case P95 => "p95"
    case P99 => "p99"
    case MeanKey => "mean"
    case MaxKey => "max"
  }

  /** How each further member follows the one before it. */
  function Separator(key: Key): string { ",\"" + (KeyName(key) + "\":") }

  /** The members from the `i`-th on, and the end of the line. */
  function Rest(fields: seq<Field>, i: nat): string
    decreases |fields| - i
  {
    if i >= |fields| then "}\n"
    else Separator(fields[i].key) + (Render(fields[i].value) + Rest(fields, i + 1))
  }

  function Opening(kind: Kind): string {
    "{\"event\":\"" + (KindName(kind) + "\",\"time\":")
  }

  /** The line of a record: one JSON object and a newline. */
  function Line(r: Record): string {
    Opening(KindOf(r)) + (Quoted(r.time) + Rest(Details(r), 0))
  }

  // ---- the four lines as text

  lemma RestIs(d: seq<Field>, i: nat, key: Key, v: Value)
    requires i < |d| && d[i] == Field(key, v)
    ensures Rest(d, i) == Separator(key) + ((match v case Str(b) => Quoted(b) case Num(n) => Decimal(n)) + Rest(d, i + 1))
  {
  }

  lemma RestEnds(d: seq<Field>)
    ensures Rest(d, |d|) == "}\n"
  {
  }

  lemma SeparatorsAre()
    ensures Separator(Pid) == ",\"pid\":" && Separator(Ppid) == ",\"ppid\":" && Separator(Comm) == ",\"comm\":"
    ensures Separator(Filename) == ",\"filename\":" && Separator(TcpEventKey) == ",\"tcp_event\":"
    ensures Separator(SourceKey) == ",\"source\":" && Separator(DestinationKey) == ",\"destination\":"
    ensures Separator(SyscallKey) == ",\"syscall\":" && Separator(Count) == ",\"count\":"
    ensures Separator(P50) == ",\"p50\":" && Separator(P95) == ",\"p95\":" && Separator(P99) == ",\"p99\":"
    ensures Separator(MeanKey) == ",\"mean\":" && Separator(MaxKey) == ",\"max\":"
  {
  }

  lemma OpeningsAre()
    ensures Opening(ExecLine) == "{\"event\":\"exec\",\"time\":"
    ensures Opening(OpenLine) == "{\"event\":\"open\",\"time\":"
    ensures Opening(TcpLine) == "{\"event\":\"tcp\",\"time\":"
    ensures Opening(LatencyLine) == "{\"event\":\"latency\",\"time\":"
  {
  }

  lemma ExecLineText(time: Bytes, pid: U32, ppid: U32, comm: Bytes, filename: Bytes)
    ensures Line(Exec(time, pid, ppid, comm, filename))
         == "{\"event\":\"exec\",\"time\":" + (Quoted(time) + (",\"pid\":" + (Decimal(pid) + (
             ",\"ppid\":" + (Decimal(ppid) + (",\"comm\":" + (Quoted(comm) + (
             ",\"filename\":" + (Quoted(filename) + "}\n")))))))))
  {
    hide Rest, Quoted, Decimal, Separator, Opening, Render;
    var d := Details(Exec(time, pid, ppid, comm, filename));
    SeparatorsAre();
    OpeningsAre();
    RestIs(d, 0, Pid, Num(pid));
    RestIs(d, 1, Ppid, Num(ppid));
    RestIs(d, 2, Comm, Str(comm));
    RestIs(d, 3, Filename, Str(filename));
    RestEnds(d);
  }

  lemma OpenLineText(time: Bytes, pid: U32, comm: Bytes, filename: Bytes)
    ensures Line(Open(time, pid, comm, filename))
         == "{\"event\":\"open\",\"time\":" + (Quoted(time) + (",\"pid\":" + (Decimal(pid) + (
             ",\"comm\":" + (Quoted(comm) + (",\"filename\":" + (Quoted(filename) + (
             "}\n"))))))))
  {
    hide Rest, Quoted, Decimal, Separator, Opening, Render;
    var d := Details(Open(time, pid, comm, filename));
    SeparatorsAre();
    OpeningsAre();
    RestIs(d, 0, Pid, Num(pid));
    RestIs(d, 1, Comm, Str(comm));
    RestIs(d, 2, Filename, Str(filename));
    RestEnds(d);
  }

  lemma TcpLineText(time: Bytes, pid: U32, comm: Bytes, event: Bytes, source: Bytes, destination: Bytes)
    ensures Line(Tcp(time, pid, comm, event, source, destination))
         == "{\"event\":\"tcp\",\"time\":" + (Quoted(time) + (",\"pid\":" + (Decimal(pid) + (
             ",\"comm\":" + (Quoted(comm) + (",\"tcp_event\":" + (Quoted(event) + (
             ",\"source\":" + (Quoted(source) + (",\"destination\":" + (Quoted(destination) + (
             "}\n"))))))))))))
  {
    hide Rest, Quoted, Decimal, Separator, Opening, Render;
    var d := Details(Tcp(time, pid, comm, event, source, destination));
    SeparatorsAre();
    OpeningsAre();
    RestIs(d, 0, Pid, Num(pid));
    RestIs(d, 1, Comm, Str(comm));
    RestIs(d, 2, TcpEventKey, Str(event));
    RestIs(d, 3, SourceKey, Str(source));
    RestIs(d, 4, DestinationKey, Str(destination));
    RestEnds(d);
  }

  lemma LatencyLineText(time: Bytes, syscall: Bytes, count: U64,
                        p50: Bytes, p95: Bytes, p99: Bytes, mean: Bytes, max: Bytes)
    ensures Line(Latency(time, syscall, count, p50, p95, p99, mean, max))
         == "{\"event\":\"latency\",\"time\":" + (Quoted(time) + (",\"syscall\":" + (Quoted(syscall) + (
             ",\"count\":" + (Decimal(count) + (",\"p50\":" + (Quoted(p50) + (
             ",\"p95\":" + (Quoted(p95) + (",\"p99\":" + (Quoted(p99) + (
             ",\"mean\":" + (Quoted(mean) + (",\"max\":" + (Quoted(max) + (
             "}\n"))))))))))))))))
  {
    hide Rest, Quoted, Decimal, Separator, Opening, Render;
    var d := Details(Latency(time, syscall, count, p50, p95, p99, mean, max));
    SeparatorsAre();
    OpeningsAre();
    RestIs(d, 0, SyscallKey, Str(syscall));
    RestIs(d, 1, Count, Num(count));
    RestIs(d, 2, P50, Str(p50));
    RestIs(d, 3, P95, Str(p95));
    RestIs(d, 4, P99, Str(p99));
    RestIs(d, 5, MeanKey, Str(mean));
    RestIs(d, 6, MaxKey, Str(max));
    RestEnds(d);
  }

  /** `push_str` of the opening and of the escaped time. */
  method PushOpening(out: Text, kind: Kind, time: Bytes, ghost r: Record, ghost goal: string)
    requires kind == KindOf(r) && time == r.time && goal == out.text + Line(r)
    modifies out
    ensures out.text + Rest(Details(r), 0) == goal
  {
    Push(out, Opening(kind), Quoted(time) + Rest(Details(r), 0), goal);
    PushQuoted(out, time, Rest(Details(r), 0), goal);
  }

  /** `push_str` of a separator and of a number: the `i`-th member. */
  method PushNumber(out: Text, key: Key, n: nat, ghost d: seq<Field>, ghost i: nat, ghost goal: string)
    requires i < |d| && d[i].value == Num(n) && key == d[i].key
    requires out.text + Rest(d, i) == goal
    modifies out
    ensures out.text + Rest(d, i + 1) == goal
  {
    Push(out, Separator(key), Decimal(n) + Rest(d, i + 1), goal);
    Push(out, Decimal(n), Rest(d, i + 1), goal);
  }

  /** `push_str` of a separator and the escaping of a string: the `i`-th member. */
  method PushString(out: Text, key: Key, s: Bytes, ghost d: seq<Field>, ghost i: nat, ghost goal: string)
    requires i < |d| && d[i].value == Str(s) && key == d[i].key
    requires out.text + Rest(d, i) == goal
    modifies out
    ensures out.text + Rest(d, i + 1) == goal
  {
    Push(out, Separator(key), Quoted(s) + Rest(d, i + 1), goal);
    PushQuoted(out, s, Rest(d, i + 1), goal);
  }

  method PushEnd(out: Text, ghost d: seq<Field>, ghost goal: string)
    requires out.text + Rest(d, |d|) == goal
    modifies out
    ensures out.text == goal
  {
    assert "}\n" + "" == "}\n";
    Push(out, "}\n", "", goal);
    assert out.text + "" == out.text;
  }

  method ExecJsonLine(out: Text, time: Bytes, pid: U32, ppid: U32, comm: Bytes, filename: Bytes)
    modifies out
    ensures out.text == old(out.text) + Line(Exec(time, pid, ppid, comm, filename))
  {
    hide Rest, Line;
    ghost var r := Exec(time, pid, ppid, comm, filename);
    ghost var d, goal := Details(r), out.text + Line(r);
    PushOpening(out, ExecLine, time, r, goal);
    PushNumber(out, Pid, pid, d, 0, goal);
    PushNumber(out, Ppid, ppid, d, 1, goal);
    PushString(out, Comm, comm, d, 2, goal);
    PushString(out, Filename, filename, d, 3, goal);
    PushEnd(out, d, goal);
  }

  method OpenJsonLine(out: Text, time: Bytes, pid: U32, comm: Bytes, filename: Bytes)
    modifies out
    ensures out.text == old(out.text) + Line(Open(time, pid, comm, filename))
  {
    hide Rest, Line;
    ghost var r := Open(time, pid, comm, filename);
    ghost var d, goal := Details(r), out.text + Line(r);
    PushOpening(out, OpenLine, time, r, goal);
    PushNumber(out, Pid, pid, d, 0, goal);
    PushString(out, Comm, comm, d, 1, goal);
    PushString(out, Filename, filename, d, 2, goal);
    PushEnd(out, d, goal);
  }

  method TcpJsonLine(out: Text, time: Bytes, pid: U32, comm: Bytes, event: Bytes, source: Bytes, destination: Bytes)
    modifies out
    ensures out.text == old(out.text) + Line(Tcp(time, pid, comm, event, source, destination))
  {
    hide Rest, Line;
    ghost var r := Tcp(time, pid, comm, event, source, destination);
    ghost var d, goal := Details(r), out.text + Line(r);
    PushOpening(out, TcpLine, time, r, goal);
    PushNumber(out, Pid, pid, d, 0, goal);
    PushString(out, Comm, comm, d, 1, goal);
    PushString(out, TcpEventKey, event, d, 2, goal);
    PushString(out, SourceKey, source, d, 3, goal);
    PushString(out, DestinationKey, destination, d, 4, goal);
    PushEnd(out, d, goal);
  }

  method PushPercentiles(out: Text, p50: Bytes, p95: Bytes, p99: Bytes, ghost d: seq<Field>, ghost goal: string)
    requires |d| == 7 && d[2] == Field(P50, Str(p50)) && d[3] == Field(P95, Str(p95)) && d[4] == Field(P99, Str(p99))
    requires out.text + Rest(d, 2) == goal
    modifies out
    ensures out.text + Rest(d, 5) == goal
  {
    hide Rest;
    PushString(out, P50, p50, d, 2, goal);
    PushString(out, P95, p95, d, 3, goal);
    PushString(out, P99, p99, d, 4, goal);
  }

  method LatencyJsonLine(out: Text, time: Bytes, syscall: Bytes, count: U64,
                         p50: Bytes, p95: Bytes, p99: Bytes, mean: Bytes, max: Bytes)
    modifies out
    ensures out.text == old(out.text) + Line(Latency(time, syscall, count, p50, p95, p99, mean, max))
  {
    hide Rest, Line;
    ghost var r := Latency(time, syscall, count, p50, p95, p99, mean, max);
    ghost var d, goal := Details(r), out.text + Line(r);
    PushOpening(out, LatencyLine, time, r, goal);
    PushString(out, SyscallKey, syscall, d, 0, goal);
    PushNumber(out, Count, count, d, 1, goal);
    PushPercentiles(out, p50, p95, p99, d, goal);
    PushString(out, MeanKey, mean, d, 5, goal);
    PushString(out, MaxKey, max, d, 6, goal);
    PushEnd(out, d, goal);
  }
}
