/** The reference reader undoes the JSON line writers. */
module JsonTheorems {
  import opened Words
  import opened Layout
  import opened JsonLines
  import opened JsonParse

  // ---- strings

  lemma UnitOfEscape(b: Byte, t: string)
    ensures var e := EscapeByte(b);
            |e| > 0 && e[0] != '"' && Unit(e + t) == Some((b, |e|)) && (e + t)[|e|..] == t
  {
    var s := EscapeByte(b) + t;
    if |EscapeByte(b)| == 6 {
      assert s[2..6] == ['0', '0', HexDigit(b / 16), HexDigit(b % 16)];
      HexDigitValue(b / 16);
      HexDigitValue(b % 16);
    }
  }

  lemma HexDigitValue(n: nat)
    requires n < 16
    ensures HexValue(HexDigit(n)) == Some(n)
  {
  }

  /** Reading undoes escaping, for every byte string and whatever follows the closing quote. */
  lemma {:induction false} EscapeRoundTrip(s: Bytes, rest: string)
    ensures ParseBody(Escape(s) + "\"" + rest) == Got(s, rest)
  {
    if |s| == 0 {
      assert Escape(s) + "\"" + rest == "\"" + rest;
    } else {
      var t := Escape(s[1..]) + "\"" + rest;
      assert Escape(s) + "\"" + rest == EscapeByte(s[0]) + t;
      UnitOfEscape(s[0], t);
      EscapeRoundTrip(s[1..], rest);
      assert [s[0]] + s[1..] == s;
    }
  }

  /** A name as a byte string. */
  function Ascii(s: string): Bytes {
    seq(|s|, i requires 0 <= i < |s| => s[i] as int % 256)
  }

  predicate Plain(s: string) {
    forall i :: 0 <= i < |s| ==> ' ' <= s[i] <= '~' && s[i] != '"' && s[i] != '\\'
  }

  lemma {:induction false} PlainRoundTrip(s: string, rest: string)
    requires Plain(s)
    ensures ParseBody(s + "\"" + rest) == Got(Ascii(s), rest)
  {
    var text := s + "\"" + rest;
    if |s| == 0 {
      assert text == "\"" + rest;
      assert Ascii(s) == [];
    } else {
      assert text[1..] == s[1..] + "\"" + rest;
      PlainRoundTrip(s[1..], rest);
      assert Unit(text) == Some((s[0] as int, 1));
      assert [s[0] as int] + Ascii(s[1..]) == Ascii(s);
    }
  }

  // ---- numbers

  lemma {:induction false} DecimalValue(n: nat)
    ensures DigitsValue(Decimal(n)) == n
    ensures Decimal(n)[0] == '0' ==> n == 0
    ensures n < 10 ==> |Decimal(n)| == 1
  {
    if n >= 10 {
      DecimalValue(n / 10);
      var d := Decimal(n / 10);
      assert Decimal(n)[..|d|] == d;
      assert Decimal(n)[0] == d[0];
    } else {
      assert DigitsValue(Decimal(n)[..0]) == 0;
    }
  }

  lemma {:induction false} DigitRunIs(s: string, rest: string)
    requires forall i :: 0 <= i < |s| ==> IsDigit(s[i])
    requires |rest| > 0 && !IsDigit(rest[0])
    ensures DigitRun(s + rest) == |s|
  {
    if |s| == 0 {
      assert s + rest == rest;
    } else {
      assert (s + rest)[1..] == s[1..] + rest;
      DigitRunIs(s[1..], rest);
    }
  }

  lemma NumberRoundTrip(n: nat, rest: string)
    requires |rest| > 0 && !IsDigit(rest[0])
    ensures ParseNumber(Decimal(n) + rest) == Got(n, rest)
  {
    var d := Decimal(n);
    DecimalValue(n);
    DigitRunIs(d, rest);
    assert (d + rest)[..|d|] == d && (d + rest)[|d|..] == rest;
  }

  // ---- members and lines

  function JsonOf(v: Value): Json {
    match v
    case Str(b) => JStr(b)
    case Num(n) => JNum(n)
  }

  lemma ValueRoundTrip(v: Value, rest: string)
    requires |rest| > 0 && !IsDigit(rest[0])
    ensures ParseValue(Render(v) + rest) == Got(JsonOf(v), rest)
    ensures |Render(v)| > 0 && Render(v)[0] > ' '
  {
    hide Escape, Decimal, ParseBody, ParseNumber;
    match v
    case Str(b) =>
      assert (Render(v) + rest)[1..] == Escape(b) + "\"" + rest;
      EscapeRoundTrip(b, rest);
    case Num(n) =>
      NumberRoundTrip(n, rest);
      assert (Render(v) + rest)[0] == Decimal(n)[0];
  }

  lemma NoSkip(s: string)
    requires |s| > 0 ==> s[0] > ' '
    ensures SkipSpace(s) == s
  {
  }

  /** One member written compactly, with something after it that is not a space or a digit. */
  lemma MemberRoundTrip(name: string, v: Value, rest: string)
    requires Plain(name) && |rest| > 0 && !IsDigit(rest[0]) && rest[0] > ' '
    ensures ParseMember("\"" + name + "\":" + (Render(v) + rest)) == Got(Member(Ascii(name), JsonOf(v)), rest)
  {
    hide Ascii, Render, Plain, ParseBody, ParseValue;
    var value := Render(v) + rest;
    var s := "\"" + name + "\":" + value;
    NoSkip(s);
    var tail := ":" + value;
    assert s[1..] == name + "\"" + tail;
    PlainRoundTrip(name, tail);
    NoSkip(tail);
    assert tail[1..] == value;
    ValueRoundTrip(v, rest);
    NoSkip(value);
    NoSkip(rest);
  }

  lemma NamesArePlain(key: Key)
    ensures Plain(KeyName(key))
  {
  }

  lemma KindsArePlain(kind: Kind)
    ensures Plain(KindName(kind))
  {
  }

  /** One member, named. */
  function MemberOf(f: Field): Member {
    NamesArePlain(f.key);
    Member(Ascii(KeyName(f.key)), JsonOf(f.value))
  }

  function MembersFrom(d: seq<Field>, i: nat): seq<Member>
    decreases |d| - i
  {
    if i >= |d| then [] else [MemberOf(d[i])] + MembersFrom(d, i + 1)
  }

  /** The object a record's line is, member by member. */
  function ObjectOf(r: Record): seq<Member> {
    KindsArePlain(KindOf(r));
    [Member(Ascii("event"), JStr(Ascii(KindName(KindOf(r))))), Member(Ascii("time"), JStr(r.time))]
      + MembersFrom(Details(r), 0)
  }

  /** What is left of a line after the first `i` further members. */
  lemma RestStarts(d: seq<Field>, i: nat)
    ensures |Rest(d, i)| > 0 && Rest(d, i)[0] == if i >= |d| then '}' else ','
  {
  }

  lemma LastMember(s: string, m: Member, rest: string)
    requires ParseMember(s) == Got(m, "}" + rest)
    ensures ParseMembers(s) == Got([m], rest)
  {
    assert ("}" + rest)[1..] == rest;
  }

  lemma NextMember(s: string, m: Member, more: string, ms: seq<Member>, rest: string)
    requires ParseMember(s) == Got(m, "," + more) && ParseMembers(more) == Got(ms, rest)
    ensures ParseMembers(s) == Got([m] + ms, rest)
  {
    assert ("," + more)[1..] == more;
  }

  function MemberText(name: string, v: Value, rest: string): string {
    "\"" + name + "\":" + (Render(v) + rest)
  }

  lemma RestContinues(d: seq<Field>, i: nat)
    ensures Rest(d, i) == if i >= |d| then "}" + "\n"
                          else "," + MemberText(KeyName(d[i].key), d[i].value, Rest(d, i + 1))
  {
    hide KeyName, Render;
  }

  /** A member and everything after it in the line. */
  lemma {:induction false} RestRoundTrip(d: seq<Field>, i: nat, name: string, v: Value)
    requires Plain(name)
    ensures ParseMembers(MemberText(name, v, Rest(d, i)))
         == Got([Member(Ascii(name), JsonOf(v))] + MembersFrom(d, i), "\n")
    decreases |d| - i
  {
    hide KeyName, Render, Rest, ParseMembers, ParseMember;
    var m := Member(Ascii(name), JsonOf(v));
    RestStarts(d, i);
    RestContinues(d, i);
    MemberRoundTrip(name, v, Rest(d, i));
    if i >= |d| {
      LastMember(MemberText(name, v, Rest(d, i)), m, "\n");
      assert [m] + MembersFrom(d, i) == [m];
    } else {
      NamesArePlain(d[i].key);
      RestRoundTrip(d, i + 1, KeyName(d[i].key), d[i].value);
      var more := MemberText(KeyName(d[i].key), d[i].value, Rest(d, i + 1));
      NextMember(MemberText(name, v, Rest(d, i)), m, more, MembersFrom(d, i), "\n");
    }
  }

  lemma ObjectFromMembers(body: string, ms: seq<Member>)
    requires |body| > 0 && body[0] == '"' && ParseMembers(body) == Got(ms, "\n")
    ensures ParseObject("{" + body) == Some(ms)
  {
    hide ParseMembers;
    NoSkip("{" + body);
    assert ("{" + body)[1..] == body;
    NoSkip(body);
    assert SkipSpace("\n") == "";
  }

  lemma LineShape(r: Record)
    ensures Line(r) == "{" + ("\"event\":\"" + KindName(KindOf(r)) + "\"" + ("," + MemberText("time", Str(r.time), Rest(Details(r), 0))))
  {
    hide KindName, Rest, Quoted;
    assert Render(Str(r.time)) == Quoted(r.time);
    var tail := Quoted(r.time) + Rest(Details(r), 0);
    assert Opening(KindOf(r)) == "{" + ("\"event\":\"" + KindName(KindOf(r)) + "\"" + ("," + ("\"" + "time" + "\":")));
  }

  /** The whole line of a record reads back as the object it reports. */
  lemma LineRoundTrip(r: Record)
    ensures ParseObject(Line(r)) == Some(ObjectOf(r))
  {
    hide KeyName, KindName, Rest, Render, Line, ParseMembers, ParseMember, ParseObject;
    var kind, time := KindName(KindOf(r)), MemberText("time", Str(r.time), Rest(Details(r), 0));
    KindsArePlain(KindOf(r));
    RestRoundTrip(Details(r), 0, "time", Str(r.time));
    EventFirst(kind, time);
    var body := "\"event\":\"" + kind + "\"" + ("," + time);
    var first, second := Member(Ascii("event"), JStr(Ascii(kind))), Member(Ascii("time"), JStr(r.time));
    NextMember(body, first, time, [second] + MembersFrom(Details(r), 0), "\n");
    ObjectFromMembers(body, [first] + ([second] + MembersFrom(Details(r), 0)));
    LineShape(r);
    assert [first] + ([second] + MembersFrom(Details(r), 0)) == ObjectOf(r);
  }

  lemma EventFirst(kind: string, time: string)
    requires Plain(kind)
    ensures ParseMember("\"event\":\"" + kind + "\"" + ("," + time))
         == Got(Member(Ascii("event"), JStr(Ascii(kind))), "," + time)
  {
    hide ParseBody, ParseNumber, Unit;
    var rest := "," + time;
    var s := "\"event\":\"" + kind + "\"" + rest;
    var value := "\"" + kind + "\"" + rest;
    NoSkip(s);
    assert s[1..] == "event" + "\"" + (":" + value);
    PlainRoundTrip("event", ":" + value);
    NoSkip(":" + value);
    assert (":" + value)[1..] == value;
    NoSkip(value);
    assert value[1..] == kind + "\"" + rest;
    PlainRoundTrip(kind, rest);
    NoSkip(rest);
  }

  // ---- the four lines, member by member

  function StrMember(name: string, b: Bytes): Member { Member(Ascii(name), JStr(b)) }

  function NumMember(name: string, n: nat): Member { Member(Ascii(name), JNum(n)) }

  lemma Named(key: Key, v: Value)
    ensures MemberOf(Field(key, v)) == Member(Ascii(KeyName(key)), JsonOf(v))
  {
  }

  /** The members a list of fields becomes, one by one. */
  lemma MembersListed(d: seq<Field>)
    ensures |MembersFrom(d, 0)| == |d| && forall k :: 0 <= k < |d| ==> MembersFrom(d, 0)[k] == MemberOf(d[k])
  {
    hide MemberOf;
    if |d| > 0 {
      MembersFromAt(d, 0, 0);
      forall k | 0 <= k < |d|
        ensures MembersFrom(d, 0)[k] == MemberOf(d[k])
      {
        MembersFromAt(d, 0, k);
      }
    }
  }

  lemma ExecLineReads(time: Bytes, pid: U32, ppid: U32, comm: Bytes, filename: Bytes)
    ensures ParseObject(Line(Exec(time, pid, ppid, comm, filename)))
         == Some([StrMember("event", Ascii("exec")), StrMember("time", time), NumMember("pid", pid),
                  NumMember("ppid", ppid), StrMember("comm", comm), StrMember("filename", filename)])
  {
    hide Line, ParseObject, MembersFrom, MemberOf, Ascii;
    var r := Exec(time, pid, ppid, comm, filename);
    LineRoundTrip(r);
    MembersListed(Details(r));
    Named(Pid, Num(pid));
    Named(Ppid, Num(ppid));
    Named(Comm, Str(comm));
    Named(Filename, Str(filename));
    assert ObjectOf(r) == [StrMember("event", Ascii("exec")), StrMember("time", time), NumMember("pid", pid),
                  NumMember("ppid", ppid), StrMember("comm", comm), StrMember("filename", filename)];
  }

  lemma OpenLineReads(time: Bytes, pid: U32, comm: Bytes, filename: Bytes)
    ensures ParseObject(Line(Open(time, pid, comm, filename)))
         == Some([StrMember("event", Ascii("open")), StrMember("time", time), NumMember("pid", pid),
                  StrMember("comm", comm), StrMember("filename", filename)])
  {
    hide Line, ParseObject, MembersFrom, MemberOf, Ascii;
    var r := Open(time, pid, comm, filename);
    LineRoundTrip(r);
    MembersListed(Details(r));
    Named(Pid, Num(pid));
    Named(Comm, Str(comm));
    Named(Filename, Str(filename));
    assert ObjectOf(r) == [StrMember("event", Ascii("open")), StrMember("time", time), NumMember("pid", pid),
                  StrMember("comm", comm), StrMember("filename", filename)];
  }

  lemma TcpLineReads(time: Bytes, pid: U32, comm: Bytes, event: Bytes, source: Bytes, destination: Bytes)
    ensures ParseObject(Line(Tcp(time, pid, comm, event, source, destination)))
         == Some([StrMember("event", Ascii("tcp")), StrMember("time", time), NumMember("pid", pid),
                  StrMember("comm", comm), StrMember("tcp_event", event), StrMember("source", source),
                  StrMember("destination", destination)])
  {
    hide Line, ParseObject, MembersFrom, MemberOf, Ascii;
    var r := Tcp(time, pid, comm, event, source, destination);
    LineRoundTrip(r);
    MembersListed(Details(r));
    Named(Pid, Num(pid));
    Named(Comm, Str(comm));
    Named(TcpEventKey, Str(event));
    Named(SourceKey, Str(source));
    Named(DestinationKey, Str(destination));
    assert ObjectOf(r) == [StrMember("event", Ascii("tcp")), StrMember("time", time), NumMember("pid", pid),
                  StrMember("comm", comm), StrMember("tcp_event", event), StrMember("source", source),
                  StrMember("destination", destination)];
  }

  lemma LatencyLineReads(time: Bytes, syscall: Bytes, count: U64,
                          p50: Bytes, p95: Bytes, p99: Bytes, mean: Bytes, max: Bytes)
    ensures ParseObject(Line(Latency(time, syscall, count, p50, p95, p99, mean, max)))
         == Some([StrMember("event", Ascii("latency")), StrMember("time", time),
                  StrMember("syscall", syscall), NumMember("count", count), StrMember("p50", p50),
                  StrMember("p95", p95), StrMember("p99", p99), StrMember("mean", mean),
                  StrMember("max", max)])
  {
    hide Line, ParseObject, MembersFrom, MemberOf, Ascii, Details;
    var r := Latency(time, syscall, count, p50, p95, p99, mean, max);
    LineRoundTrip(r);
    LatencyMembers(r);
    assert ObjectOf(r) == [StrMember("event", Ascii("latency")), StrMember("time", time),
                  StrMember("syscall", syscall), NumMember("count", count), StrMember("p50", p50),
                  StrMember("p95", p95), StrMember("p99", p99), StrMember("mean", mean),
                  StrMember("max", max)];
  }

  lemma LatencyMembers(r: Record)
    requires r.Latency?
    ensures |MembersFrom(Details(r), 0)| == 7
    ensures var ms := MembersFrom(Details(r), 0);
            && ms[0] == StrMember("syscall", r.syscall) && ms[1] == NumMember("count", r.count)
            && ms[2] == StrMember("p50", r.p50) && ms[3] == StrMember("p95", r.p95) && ms[4] == StrMember("p99", r.p99)
            && ms[5] == StrMember("mean", r.mean) && ms[6] == StrMember("max", r.max)
  {
    hide MembersFrom, MemberOf, Ascii;
    MembersListed(Details(r));
    Named(SyscallKey, Str(r.syscall));
    Named(Count, Num(r.count));
    Named(P50, Str(r.p50));
    Named(P95, Str(r.p95));
    Named(P99, Str(r.p99));
    Named(MeanKey, Str(r.mean));
    Named(MaxKey, Str(r.max));
  }

  // ---- fields

  lemma {:induction false} MembersFromAt(d: seq<Field>, i: nat, k: nat)
    requires i + k < |d|
    ensures |MembersFrom(d, i)| == |d| - i && MembersFrom(d, i)[k] == MemberOf(d[i + k])
    decreases |d| - i
  {
    hide MemberOf;
    if i + 1 < |d| {
      MembersFromAt(d, i + 1, if k == 0 then 0 else k - 1);
    } else {
      assert MembersFrom(d, i + 1) == [];
    }
  }

  function StrOf(ms: seq<Member>, i: nat): Bytes {
    if i < |ms| && ms[i].value.JStr? then ms[i].value.bytes else []
  }

  function NumOf(ms: seq<Member>, i: nat): nat {
    if i < |ms| && ms[i].value.JNum? then ms[i].value.n else 0
  }

  function U32Of(ms: seq<Member>, i: nat): U32 {
    if NumOf(ms, i) < 0x1_0000_0000 then NumOf(ms, i) else 0
  }

  /** The record a list of members has the length of, its fields taken by position. */
  function Positional(ms: seq<Member>): Option<Record> {
    if |ms| == 6 then Some(Exec(StrOf(ms, 1), U32Of(ms, 2), U32Of(ms, 3), StrOf(ms, 4), StrOf(ms, 5)))
    else if |ms| == 5 then Some(Open(StrOf(ms, 1), U32Of(ms, 2), StrOf(ms, 3), StrOf(ms, 4)))
    else if |ms| == 7 then
      Some(Tcp(StrOf(ms, 1), U32Of(ms, 2), StrOf(ms, 3), StrOf(ms, 4), StrOf(ms, 5), StrOf(ms, 6)))
    else if |ms| == 9 && NumOf(ms, 3) < TWO64 then
      Some(Latency(StrOf(ms, 1), StrOf(ms, 2), NumOf(ms, 3), StrOf(ms, 4), StrOf(ms, 5), StrOf(ms, 6), StrOf(ms, 7), StrOf(ms, 8)))
    else None
  }

  /** The record an object reports, when its member names and order are a writer's. */
  function RecordOf(ms: seq<Member>): Option<Record> {
    match Positional(ms)
    case None => None
    case Some(r) => if ObjectOf(r) == ms then Some(r) else None
  }

  lemma ObjectAt(r: Record, i: nat)
    requires i < |Details(r)|
    ensures |ObjectOf(r)| == |Details(r)| + 2
    ensures ObjectOf(r)[1].value == JStr(r.time)
    ensures ObjectOf(r)[i + 2].value == JsonOf(Details(r)[i].value)
  {
    hide KeyName, KindName;
    MembersFromAt(Details(r), 0, i);
  }

  lemma RecordOfObject(r: Record)
    ensures RecordOf(ObjectOf(r)) == Some(r)
  {
    hide KeyName, KindName, ObjectOf;
    ObjectAt(r, 0);
    ObjectAt(r, 1);
    ObjectAt(r, 2);
    if !r.Open? {
      ObjectAt(r, 3);
    }
    if r.Tcp? || r.Latency? {
      ObjectAt(r, 4);
    }
    if r.Latency? {
      ObjectAt(r, 5);
      ObjectAt(r, 6);
    }
  }

  // ---- logs

  predicate OneLine(s: string) {
    |s| > 0 && NewlineIndex(s) == |s| - 1
  }

  predicate NoNewline(s: string) {
    forall i :: 0 <= i < |s| ==> s[i] != '\n'
  }

  lemma OneLineAppend(a: string, b: string)
    requires NoNewline(a) && OneLine(b)
    ensures OneLine(a + b)
  {
    var s := a + b;
    forall i | 0 <= i < |s| - 1
      ensures s[i] != '\n'
    {
      if i >= |a| {
        assert s[i] == b[i - |a|];
      }
    }
    assert s[|s| - 1] == b[|b| - 1];
  }

  lemma {:induction false} EscapeNoNewline(s: Bytes)
    ensures NoNewline(Escape(s))
  {
    if |s| > 0 {
      EscapeNoNewline(s[1..]);
    }
  }

  lemma RenderNoNewline(v: Value)
    ensures NoNewline(Render(v))
  {
    match v
    case Str(b) => EscapeNoNewline(b);
    case Num(n) =>
  }

  lemma {:induction false} RestOneLine(d: seq<Field>, i: nat)
    ensures OneLine(Rest(d, i))
    decreases |d| - i
  {
    hide KeyName, Render;
    if i < |d| {
      NamesArePlain(d[i].key);
      RestOneLine(d, i + 1);
      RenderNoNewline(d[i].value);
      OneLineAppend(Render(d[i].value), Rest(d, i + 1));
      OneLineAppend(Separator(d[i].key), Render(d[i].value) + Rest(d, i + 1));
    } else {
      assert Rest(d, i)[1..] == "\n";
      assert NewlineIndex("\n") == 0;
    }
  }

  lemma LineIsOneLine(r: Record)
    ensures OneLine(Line(r))
  {
    hide KindName, Rest, Quoted;
    RestOneLine(Details(r), 0);
    RenderNoNewline(Str(r.time));
    assert Quoted(r.time) == Render(Str(r.time));
    OneLineAppend(Quoted(r.time), Rest(Details(r), 0));
    KindsArePlain(KindOf(r));
    OneLineAppend(Opening(KindOf(r)), Quoted(r.time) + Rest(Details(r), 0));
  }

  /** What a run prints: one line after another. */
  function Log(rs: seq<Record>): string {
    if |rs| == 0 then "" else Line(rs[0]) + Log(rs[1..])
  }

  /** Read a log back: split it at newlines and read each line. */
  function ReadLog(lines: seq<string>): Option<seq<Record>> {
    if |lines| == 0 then Some([])
    else
      match (ParseObject(lines[0]), ReadLog(lines[1..]))
      case (Some(ms), Some(rs)) =>
        (match RecordOf(ms)
         case Some(r) => Some([r] + rs)
         case None => None)
      case _ => None
  }

  lemma SplitFirst(line: string, more: string)
    requires OneLine(line)
    ensures SplitLines(line + more) == [line] + SplitLines(more)
  {
    var s := line + more;
    var n := |line| - 1;
    assert s[n] == '\n';
    forall i | 0 <= i < n
      ensures s[i] != '\n'
    {
      assert s[i] == line[i];
    }
    assert NewlineIndex(s) == n;
    assert s[..n + 1] == line && s[n + 1..] == more;
  }

  /**
   Any concatenation of exec, open, tcp and latency lines splits at newlines into the records that were
   written, with every field recovered, whatever bytes the fields hold.
   */
  lemma {:induction false} LogRoundTrip(rs: seq<Record>)
    ensures ReadLog(SplitLines(Log(rs))) == Some(rs)
  {
    hide Line, ParseObject, RecordOf, ObjectOf;
    if |rs| > 0 {
      LineIsOneLine(rs[0]);
      SplitFirst(Line(rs[0]), Log(rs[1..]));
      LogRoundTrip(rs[1..]);
      LineRoundTrip(rs[0]);
      RecordOfObject(rs[0]);
      var lines := SplitLines(Log(rs));
      assert lines[0] == Line(rs[0]) && lines[1..] == SplitLines(Log(rs[1..]));
      assert [rs[0]] + rs[1..] == rs;
    }
  }
}
