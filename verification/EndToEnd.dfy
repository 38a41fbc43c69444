/** From the hooks to the JSON text: what a run of `exec`, `open` or `tcp` prints, read back. */
module EndToEnd {
  import opened Words
  import opened Layout
  import opened Decoders
  import opened Loss
  import opened JsonParse
  import opened JsonTheorems
  import J = JsonLines
  import R = Records

  /** How times, addresses and texts are printed; any functions. */
  datatype Display = Display(clock: U64 -> Bytes, addr: AddrText, encode: string -> Bytes)

  // ---- what the callback prints

  function ExecLine(ev: ExecEvent, d: Display): J.Record {
    J.Exec(d.clock(ev.ktimeNs), ev.pid, ev.ppid, Cut(ev.comm), Cut(ev.filename))
  }

  function OpenLine(ev: OpenEvent, d: Display): J.Record {
    J.Open(d.clock(ev.ktimeNs), ev.pid, Cut(ev.comm), Cut(ev.filename))
  }

  function TcpLine(ev: TcpEvent, d: Display): J.Record
    requires |ev.saddr| == |ev.daddr| == 16
  {
    J.Tcp(d.clock(ev.ktimeNs), ev.pid, Cut(ev.comm), d.encode(TcpEventName(ev.eventType)),
          d.encode(Source(ev, d.addr)), d.encode(Destination(ev, d.addr)))
  }

  /** The line for a record that the command's decoder accepts. */
  function LineOf(cmd: Command, data: Bytes, d: Display): J.Record
    requires Accepts(cmd, data)
  {
    match cmd
    case ExecCommand => ExecLine(DecodeExec(data).value, d)
    case OpenCommand => OpenLine(DecodeOpen(data).value, d)
    case TcpCommand => TcpLine(DecodeTcp(data).value, d)
  }

  /** The lines for all the records handed over. */
  function PrintedLines(cmd: Command, handed: seq<Handed>, d: Display): seq<J.Record> {
    if |handed| == 0 then []
    else
      var last := handed[|handed| - 1];
      PrintedLines(cmd, handed[..|handed| - 1], d)
      + (if FateOf(cmd, last) == Printed then [LineOf(cmd, last.data, d)] else [])
  }

  /** The JSON branch of the three callbacks. */
  method PrintRecord(out: J.Text, cmd: Command, h: Handed, d: Display)
    modifies out
    ensures out.text == old(out.text) + Log(PrintedLines(cmd, [h], d))
  {
    hide Printable, J.Line;
    LogOfOne(cmd, h, d);
    if !h.running || !Accepts(cmd, h.data) {
      assert out.text + "" == out.text;
      return;
    }
    match cmd {
      case ExecCommand =>
        var ev := DecodeExec(h.data).value;
        J.ExecJsonLine(out, d.clock(ev.ktimeNs), ev.pid, ev.ppid, Cut(ev.comm), Cut(ev.filename));
      case OpenCommand =>
        var ev := DecodeOpen(h.data).value;
        J.OpenJsonLine(out, d.clock(ev.ktimeNs), ev.pid, Cut(ev.comm), Cut(ev.filename));
      case TcpCommand =>
        var ev := DecodeTcp(h.data).value;
        J.TcpJsonLine(out, d.clock(ev.ktimeNs), ev.pid, Cut(ev.comm), d.encode(TcpEventName(ev.eventType)),
                      d.encode(Source(ev, d.addr)), d.encode(Destination(ev, d.addr)));
    }
  }

  lemma LogOfOne(cmd: Command, h: Handed, d: Display)
    ensures Log(PrintedLines(cmd, [h], d))
         == if FateOf(cmd, h) == Printed then J.Line(LineOf(cmd, h.data, d)) else ""
  {
    hide Accepts, LineOf, J.Line;
    assert [h][..0] == [];
    if FateOf(cmd, h) == Printed {
      var line := LineOf(cmd, h.data, d);
      assert PrintedLines(cmd, [h], d) == [line];
      assert Log([line]) == J.Line(line) + Log([]);
    }
  }

  lemma {:induction false} LogConcat(a: seq<J.Record>, b: seq<J.Record>)
    ensures Log(a + b) == Log(a) + Log(b)
  {
    hide J.Line;
    if |a| == 0 {
      assert a + b == b;
    } else {
      LogConcat(a[1..], b);
      assert (a + b)[0] == a[0] && (a + b)[1..] == a[1..] + b;
      Regroup(J.Line(a[0]), Log(a[1..]), Log(b));
    }
  }

  lemma Regroup(a: string, b: string, c: string)
    ensures (a + b) + c == a + (b + c)
  {
  }

  /** Everything a run prints. */
  method PrintAll(cmd: Command, handed: seq<Handed>, d: Display) returns (text: string)
    ensures text == Log(PrintedLines(cmd, handed, d))
  {
    hide FateOf, LineOf, Log, PrintedLines;
    var out := new J.Text();
    PrintedNone(cmd, d);
    for i := 0 to |handed|
      invariant out.text == Log(PrintedLines(cmd, handed[..i], d))
    {
      PrintRecord(out, cmd, handed[i], d);
      PrintedSnoc(cmd, handed[..i], handed[i], d);
      assert handed[..i + 1] == handed[..i] + [handed[i]];
    }
    assert handed[..|handed|] == handed;
    text := out.text;
  }

  lemma PrintedNone(cmd: Command, d: Display)
    ensures Log(PrintedLines(cmd, [], d)) == ""
  {
  }

  lemma PrintedSnoc(cmd: Command, handed: seq<Handed>, h: Handed, d: Display)
    ensures Log(PrintedLines(cmd, handed + [h], d)) == Log(PrintedLines(cmd, handed, d)) + Log(PrintedLines(cmd, [h], d))
  {
    hide FateOf, LineOf, Log;
    assert (handed + [h])[..|handed|] == handed;
    assert [h][..0] == [];
    assert PrintedLines(cmd, handed + [h], d) == PrintedLines(cmd, handed, d) + PrintedLines(cmd, [h], d);
    LogConcat(PrintedLines(cmd, handed, d), PrintedLines(cmd, [h], d));
  }

  // ---- what the hooks saw

  datatype Firing = ExecOf(file: R.FileFiring) | OpenOf(file: R.FileFiring) | TcpOf(tcp: R.TcpFiring)

  /** A firing and the bytes its slot held before. */
  datatype Origin = Origin(firing: Firing, prior: Bytes)

  /** `b` is the record the hook of `cmd` submits for it. Address families are below 256. */
  ghost predicate SubmittedFor(cmd: Command, b: Bytes, o: Origin) {
    match o.firing
    case ExecOf(f) => cmd == ExecCommand && R.ExecWritten(b, o.prior, f) && NulPadded(f.comm) && R.ValidPath(f.path)
    case OpenOf(f) => cmd == OpenCommand && R.OpenWritten(b, o.prior, f) && NulPadded(f.comm) && R.ValidPath(f.path)
    case TcpOf(f) => cmd == TcpCommand && R.ValidTcp(f) && R.TcpWritten(b, o.prior, f) && f.family < 256
  }

  /** Whether userspace will take it: all that was written, or left over in a path field, is printable. */
  ghost predicate Readable(o: Origin) {
    match o.firing
    case ExecOf(f) => Printable(f.comm) && PathReadable(o.prior, 44, f.path)
    case OpenOf(f) => Printable(f.comm) && PathReadable(o.prior, 40, f.path)
    case TcpOf(f) => Printable(f.comm) && (f.family == AF_INET || f.family == AF_INET6) && 1 <= f.eventType <= 3
  }

  /** The path as far as it fits and, after its NUL, the bytes an earlier record left in the field at `at`. */
  ghost predicate PathReadable(prior: Bytes, at: nat, path: Option<Bytes>) {
    |prior| >= at + 128
    && match path
       case None => true
       case Some(p) =>
         if |p| <= 127 then Printable(p) && Printable(prior[at + 1 + |p|..at + 128]) else Printable(p[..127])
  }

  function PathTold(path: Option<Bytes>): Bytes {
    match path
    case None => []
    case Some(p) => if |p| <= 127 then p else p[..127]
  }

  /** The line that tells what fired. */
  function Telling(f: Firing, d: Display): J.Record {
    match f
    case ExecOf(f) => J.Exec(d.clock(f.ktime), f.pid, f.ppid, Cut(f.comm), PathTold(f.path))
    case OpenOf(f) => J.Open(d.clock(f.ktime), f.pid, Cut(f.comm), PathTold(f.path))
    case TcpOf(f) =>
      J.Tcp(d.clock(f.ktime), f.pid, Cut(f.comm), d.encode(TcpEventName(f.eventType)),
            d.encode(Endpoint(f, f.saddr, f.saddr6, f.sport, d)), d.encode(Endpoint(f, f.daddr, f.daddr6, f.dport, d)))
  }

  function Endpoint(f: R.TcpFiring, v4: Bytes, v6: Bytes, port: U16, d: Display): string {
    if f.family == AF_INET then d.addr.v4(v4) + ":" + Decimal(port) else "[" + d.addr.v6(v6) + "]:" + Decimal(port)
  }

  lemma TellingIs(f: Firing, d: Display)
    ensures f.ExecOf? ==> Telling(f, d).Exec? && Telling(f, d).filename == PathTold(f.file.path)
    ensures f.OpenOf? ==> Telling(f, d).Open? && Telling(f, d).filename == PathTold(f.file.path)
    ensures f.TcpOf? ==> Telling(f, d).Tcp? && Telling(f, d).event == d.encode(TcpEventName(f.tcp.eventType))
    ensures TcpEventName(1) == "CONNECT" && TcpEventName(2) == "ACCEPT" && TcpEventName(3) == "CLOSE"
  {
  }

  /** One record, from hook to line. */
  lemma RecordTells(cmd: Command, b: Bytes, o: Origin, d: Display)
    requires SubmittedFor(cmd, b, o)
    ensures Accepts(cmd, b) <==> Readable(o)
    ensures Accepts(cmd, b) ==> LineOf(cmd, b, d) == Telling(o.firing, d)
    ensures Accepts(cmd, b) && !o.firing.TcpOf? && o.firing.file.path.Some? ==>
      var p, line := o.firing.file.path.value, LineOf(cmd, b, d);
      && (line.Exec? || line.Open?) && |line.filename| <= 127
      && line.filename == if |p| <= 127 then p else p[..127]
    ensures Accepts(cmd, b) && o.firing.TcpOf? ==>
      var t, line := o.firing.tcp.eventType, LineOf(cmd, b, d);
      && line.Tcp? && 1 <= t <= 3
      && line.event == d.encode(if t == 1 then "CONNECT" else if t == 2 then "ACCEPT" else "CLOSE")
  {
    TellingIs(o.firing, d);
    hide Readable, Telling, DecodeExec, DecodeOpen, DecodeTcp, ExecLine, OpenLine, TcpLine;
    match o.firing
    case ExecOf(f) => ExecTells(b, o.prior, f, d);
    case OpenOf(f) => OpenTells(b, o.prior, f, d);
    case TcpOf(f) =>
      TcpTells(b, o.prior, f, d);
      assert Readable(o) ==> 1 <= f.eventType <= 3 by { TypeReadable(o, f); }
  }

  lemma TypeReadable(o: Origin, f: R.TcpFiring)
    requires o.firing == TcpOf(f)
    ensures Readable(o) ==> 1 <= f.eventType <= 3
  {
  }

  lemma ExecTells(b: Bytes, prior: Bytes, f: R.FileFiring, d: Display)
    requires R.ExecWritten(b, prior, f) && NulPadded(f.comm) && R.ValidPath(f.path)
    ensures DecodeExec(b).Some? <==> Readable(Origin(ExecOf(f), prior))
    ensures DecodeExec(b).Some? ==> ExecLine(DecodeExec(b).value, d) == Telling(ExecOf(f), d)
  {
    hide ToLe, FromLe, Printable, Cut, R.StrWritten, NulPadded;
    R.ExecRoundTrip(b, prior, f, d.addr);
    DecodersAgree(b, d.addr);
    LeWords();
  }

  lemma OpenTells(b: Bytes, prior: Bytes, f: R.FileFiring, d: Display)
    requires R.OpenWritten(b, prior, f) && NulPadded(f.comm) && R.ValidPath(f.path)
    ensures DecodeOpen(b).Some? <==> Readable(Origin(OpenOf(f), prior))
    ensures DecodeOpen(b).Some? ==> OpenLine(DecodeOpen(b).value, d) == Telling(OpenOf(f), d)
  {
    hide ToLe, FromLe, Printable, Cut, R.StrWritten, NulPadded;
    R.OpenRoundTrip(b, prior, f, d.addr);
    DecodersAgree(b, d.addr);
    LeWords();
  }

  lemma TcpTells(b: Bytes, prior: Bytes, f: R.TcpFiring, d: Display)
    requires R.ValidTcp(f) && R.TcpWritten(b, prior, f) && f.family < 256
    ensures DecodeTcp(b).Some? <==> Readable(Origin(TcpOf(f), prior))
    ensures DecodeTcp(b).Some? ==> TcpLine(DecodeTcp(b).value, d) == Telling(TcpOf(f), d)
  {
    hide DecodeTcp, DecodeStream, Printable, Cut, NulPadded, R.TcpWritten, Decimal, TcpEventName;
    R.TcpRoundTrip(b, prior, f, d.addr);
  }

  // ---- a whole run

  /** Each submitted record is one hook's, in order. */
  ghost predicate FromHooks(cmd: Command, submitted: seq<Bytes>, origins: seq<Origin>) {
    && |submitted| == |origins|
    && forall i :: 0 <= i < |submitted| ==> SubmittedFor(cmd, submitted[i], origins[i])
  }

  /** What was handed over before the stop signal and is readable, in order. */
  ghost function Told(handed: seq<Handed>, origins: seq<Origin>, d: Display): seq<J.Record>
    requires |handed| <= |origins|
  {
    if |handed| == 0 then []
    else
      var n := |handed| - 1;
      Told(handed[..n], origins, d)
      + (if handed[n].running && Readable(origins[n]) then [Telling(origins[n].firing, d)] else [])
  }

  lemma {:induction false} LinesTell(cmd: Command, handed: seq<Handed>, origins: seq<Origin>, d: Display)
    requires |handed| <= |origins|
    requires forall i :: 0 <= i < |handed| ==> SubmittedFor(cmd, handed[i].data, origins[i])
    ensures PrintedLines(cmd, handed, d) == Told(handed, origins, d)
    ensures |PrintedLines(cmd, handed, d)| == CountFate(cmd, handed, Printed)
  {
    hide SubmittedFor, Accepts, LineOf, Readable, Telling;
    if |handed| > 0 {
      var n := |handed| - 1;
      LinesTell(cmd, handed[..n], origins, d);
      RecordTells(cmd, handed[n].data, origins[n], d);
    }
  }

  /**
   End to end, over every interleaving: the JSON text a run prints, split at its newlines and read back, is
   the list of exactly those allowed firings that were neither dropped nor pending, were handed over before
   the stop signal and are readable, in the order they fired, each with its time, pid, parent, name, path up
   to 127 bytes or both endpoints. As many as the summary says were printed.
   */
  lemma TextTellsTheRun(cmd: Command, run: seq<Action>, origins: seq<Origin>, d: Display, text: string)
    requires Exec(cmd, run).Some?
    requires FromHooks(cmd, Exec(cmd, run).value.submitted, origins)
    requires text == Log(PrintedLines(cmd, Exec(cmd, run).value.handed, d))
    ensures var st := Exec(cmd, run).value;
            && st.firings == st.ringDrops + |origins| && |origins| == |st.handed| + |st.ring|
            && ReadLog(SplitLines(text)) == Some(Told(st.handed, origins, d))
            && |Told(st.handed, origins, d)| == st.tally.printed
  {
    hide SubmittedFor, Accepts, LineOf, Readable, Telling, Log, ReadLog, SplitLines;
    AccountedRun(cmd, run);
    var st := Exec(cmd, run).value;
    assert forall i :: 0 <= i < |st.handed| ==> st.handed[i].data == st.submitted[i];
    LinesTell(cmd, st.handed, origins, d);
    LogRoundTrip(PrintedLines(cmd, st.handed, d));
  }
}
