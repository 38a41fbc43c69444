/**
 The C record writers, filling a reserved ring-buffer slot in place, and what the decoders make of it.
 A reserved slot starts with whatever bytes an earlier record left there.
 */
module Records {
  import opened Words
  import opened Layout
  import opened Decoders

  /** What a hook knows when it fires. `path` is None when reading the string faults. */
  datatype FileFiring = FileFiring(ktime: U64, pid: U32, ppid: U32, comm: Bytes, path: Option<Bytes>)

  /** The tracepoint's 16-bit family and ports, and its two address fields for each family. */
  datatype TcpFiring = TcpFiring(ktime: U64, pid: U32, comm: Bytes, eventType: Byte, family: U16,
                                 sport: U16, dport: U16, saddr: Bytes, daddr: Bytes,
                                 saddr6: Bytes, daddr6: Bytes)

  predicate ValidPath(path: Option<Bytes>) {
    path.Some? ==> forall i :: 0 <= i < |path.value| ==> path.value[i] != 0
  }

  predicate ValidTcp(f: TcpFiring) {
    NulPadded(f.comm) && |f.saddr| == |f.daddr| == 4 && |f.saddr6| == |f.daddr6| == 16
  }

  /**
   `bpf_probe_read_*_str` into a field: the string, cut to fit, and its NUL; the rest of the field keeps
   its old bytes. A fault clears the field.
   */
  ghost predicate StrWritten(field: Bytes, prior: Bytes, path: Option<Bytes>) {
    && |field| == |prior| > 0
    && match path
       case None => forall i :: 0 <= i < |field| ==> field[i] == 0
       case Some(p) =>
         if |p| < |field| then field[..|p|] == p && field[|p|] == 0 && field[|p| + 1..] == prior[|p| + 1..]
         else field[..|field| - 1] == p[..|field| - 1] && field[|field| - 1] == 0
  }

  ghost predicate ExecHead(b: Bytes, f: FileFiring)
    requires |b| == HEADER + EXEC_EVENT_SIZE
  {
    && b[0..4] == ToLe(EVENT_KIND_EXEC, 4) && b[4..8] == ToLe(RECORD_VERSION, 4)
    && b[8..16] == ToLe(f.ktime, 8) && b[16..20] == ToLe(EVENT_KIND_EXEC, 4)
    && b[20..24] == ToLe(f.pid, 4) && b[24..28] == ToLe(f.ppid, 4)
  }

  ghost predicate ExecWritten(b: Bytes, prior: Bytes, f: FileFiring) {
    && |b| == |prior| == HEADER + EXEC_EVENT_SIZE && ExecHead(b, f)
    && b[28..44] == f.comm && StrWritten(b[44..172], prior[44..172], f.path)
    && b[172..176] == prior[172..176]
  }

  ghost predicate OpenHead(b: Bytes, f: FileFiring)
    requires |b| == HEADER + OPEN_EVENT_SIZE
  {
    && b[0..4] == ToLe(EVENT_KIND_OPEN, 4) && b[4..8] == ToLe(RECORD_VERSION, 4)
    && b[8..16] == ToLe(f.ktime, 8) && b[16..20] == ToLe(EVENT_KIND_OPEN, 4)
    && b[20..24] == ToLe(f.pid, 4)
  }

  ghost predicate OpenWritten(b: Bytes, prior: Bytes, f: FileFiring) {
    && |b| == |prior| == HEADER + OPEN_EVENT_SIZE && OpenHead(b, f)
    && b[24..40] == f.comm && StrWritten(b[40..168], prior[40..168], f.path)
  }

  ghost predicate TcpTask(b: Bytes, f: TcpFiring)
    requires ValidTcp(f) && |b| == HEADER + TCP_EVENT_SIZE
  {
    && b[0..4] == ToLe(0, 4) && b[4..8] == ToLe(RECORD_VERSION, 4)
    && b[8..16] == ToLe(f.ktime, 8) && b[16..20] == ToLe(f.pid, 4) && b[20..36] == f.comm
  }

  ghost predicate TcpHead(b: Bytes, f: TcpFiring)
    requires ValidTcp(f) && |b| == HEADER + TCP_EVENT_SIZE
  {
    && TcpTask(b, f)
    && b[36..38] == [f.eventType, f.family % 256]
    && b[38..40] == ToLe(f.sport, 2) && b[40..42] == ToLe(f.dport, 2)
  }

  ghost predicate TcpWritten(b: Bytes, prior: Bytes, f: TcpFiring)
    requires ValidTcp(f)
  {
    && |b| == |prior| == HEADER + TCP_EVENT_SIZE && TcpHead(b, f)
    && (if f.family == AF_INET
        then b[42..46] == f.saddr && b[46..58] == prior[46..58] && b[58..62] == f.daddr && b[62..74] == prior[62..74]
        else b[42..58] == f.saddr6 && b[58..74] == f.daddr6)
    && b[74..80] == prior[74..80]
  }

  /** Only the `size` bytes from `at` differ. */
  ghost predicate OnlyAt(b: Bytes, prior: Bytes, at: nat, size: nat) {
    && |b| == |prior|
    && forall i, j {:trigger b[i..j]} ::
         0 <= i <= j <= |b| && (j <= at || at + size <= i) ==> b[i..j] == prior[i..j]
  }

  /** One store into the slot. */
  method Put(slot: array<Byte>, at: nat, bytes: Bytes)
    requires at + |bytes| <= slot.Length
    modifies slot
    ensures OnlyAt(slot[..], old(slot[..]), at, |bytes|)
    ensures slot[..][at..at + |bytes|] == bytes
  {
    for i := 0 to |bytes|
      invariant forall j :: 0 <= j < i ==> slot[at + j] == bytes[j]
      invariant forall j :: 0 <= j < slot.Length && !(at <= j < at + i) ==> slot[j] == old(slot[j])
    {
      slot[at + i] := bytes[i];
    }
  }

  method PutStr(slot: array<Byte>, at: nat, size: nat, path: Option<Bytes>)
    requires at + size <= slot.Length && size > 0
    modifies slot
    ensures OnlyAt(slot[..], old(slot[..]), at, size)
    ensures StrWritten(slot[..][at..at + size], old(slot[..])[at..at + size], path)
  {
    match path
    case None => Put(slot, at, seq(size, i => 0));
    case Some(p) =>
      var n := if |p| < size then |p| else size - 1;
      Put(slot, at, p[..n] + [0]);
      var field := slot[..][at..at + size];
      assert field[..n + 1] == slot[..][at..at + n + 1];
      assert field[..n] == field[..n + 1][..n] == p[..n];
      assert field[n] == field[..n + 1][n];
      assert field[n + 1..] == slot[..][at + n + 1..at + size];
      assert old(slot[..])[at..at + size][n + 1..] == old(slot[..])[at + n + 1..at + size];
  }

  method PutExecHead(slot: array<Byte>, f: FileFiring)
    requires slot.Length == HEADER + EXEC_EVENT_SIZE
    modifies slot
    ensures ExecHead(slot[..], f) && OnlyAt(slot[..], old(slot[..]), 0, 28)
  {
    hide ToLe;
    Put(slot, 0, ToLe(EVENT_KIND_EXEC, 4));
    Put(slot, 4, ToLe(RECORD_VERSION, 4));
    Put(slot, 8, ToLe(f.ktime, 8));
    Put(slot, 16, ToLe(EVENT_KIND_EXEC, 4));
    Put(slot, 20, ToLe(f.pid, 4));
    Put(slot, 24, ToLe(f.ppid, 4));
  }

  method TraceExec(slot: array<Byte>, f: FileFiring)
    requires slot.Length == HEADER + EXEC_EVENT_SIZE && NulPadded(f.comm)
    modifies slot
    ensures ExecWritten(slot[..], old(slot[..]), f)
  {
    hide ToLe, StrWritten;
    PutExecHead(slot, f);
    Put(slot, 28, f.comm);
    PutStr(slot, 44, 128, f.path);
  }

  method PutOpenHead(slot: array<Byte>, f: FileFiring)
    requires slot.Length == HEADER + OPEN_EVENT_SIZE
    modifies slot
    ensures OpenHead(slot[..], f) && OnlyAt(slot[..], old(slot[..]), 0, 24)
  {
    hide ToLe;
    Put(slot, 0, ToLe(EVENT_KIND_OPEN, 4));
    Put(slot, 4, ToLe(RECORD_VERSION, 4));
    Put(slot, 8, ToLe(f.ktime, 8));
    Put(slot, 16, ToLe(EVENT_KIND_OPEN, 4));
    Put(slot, 20, ToLe(f.pid, 4));
  }

  method SubmitOpen(slot: array<Byte>, f: FileFiring)
    requires slot.Length == HEADER + OPEN_EVENT_SIZE && NulPadded(f.comm)
    modifies slot
    ensures OpenWritten(slot[..], old(slot[..]), f)
  {
    hide ToLe, StrWritten;
    PutOpenHead(slot, f);
    Put(slot, 24, f.comm);
    PutStr(slot, 40, 128, f.path);
  }

  method PutTcpTask(slot: array<Byte>, f: TcpFiring)
    requires slot.Length == HEADER + TCP_EVENT_SIZE && ValidTcp(f)
    modifies slot
    ensures TcpTask(slot[..], f) && OnlyAt(slot[..], old(slot[..]), 0, 36)
  {
    hide ToLe;
    Put(slot, 0, ToLe(0, 4));
    Put(slot, 4, ToLe(RECORD_VERSION, 4));
    Put(slot, 8, ToLe(f.ktime, 8));
    Put(slot, 16, ToLe(f.pid, 4));
    Put(slot, 20, f.comm);
  }

  method PutTcpHead(slot: array<Byte>, f: TcpFiring)
    requires slot.Length == HEADER + TCP_EVENT_SIZE && ValidTcp(f)
    modifies slot
    ensures TcpHead(slot[..], f) && OnlyAt(slot[..], old(slot[..]), 0, 42)
  {
    hide ToLe;
    PutTcpTask(slot, f);
    Put(slot, 36, [f.eventType, f.family % 256]);
    Put(slot, 38, ToLe(f.sport, 2));
    Put(slot, 40, ToLe(f.dport, 2));
  }

  method SubmitTcp(slot: array<Byte>, f: TcpFiring)
    requires slot.Length == HEADER + TCP_EVENT_SIZE && ValidTcp(f)
    modifies slot
    ensures TcpWritten(slot[..], old(slot[..]), f)
  {
    PutTcpHead(slot, f);
    if f.family == AF_INET {
      Put(slot, 42, f.saddr);
      Put(slot, 58, f.daddr);
    } else {
      Put(slot, 42, f.saddr6);
      Put(slot, 58, f.daddr6);
    }
  }

  // ---- what the decoders make of it

  /** A 128-byte field reads back as the whole string up to 127 bytes, else as its first 127 bytes. */
  lemma StrReadBack(field: Bytes, prior: Bytes, path: Option<Bytes>)
    requires StrWritten(field, prior, path) && ValidPath(path) && |prior| == 128
    ensures match path
            case None => Cut(field) == [] && Printable(field)
            case Some(p) =>
              if |p| <= 127 then Cut(field) == p && (Printable(field) <==> Printable(p) && Printable(prior[|p| + 1..]))
              else Cut(field) == p[..127] && (Printable(field) <==> Printable(p[..127]))
  {
    match path
    case None => CutIs(field, 0);
    case Some(p) =>
      var n := if |p| <= 127 then |p| else 127;
      assert field[..n] == p[..n];
      forall i | 0 <= i < n
        ensures field[i] == p[i]
      {
        assert field[..n][i] == p[..n][i];
      }
      CutIs(field, n);
      assert p[..|p|] == p;
      assert field == field[..n] + [0] + field[n + 1..];
      PrintableSplit(field[..n], field[n + 1..]);
  }

  lemma PrintableSplit(a: Bytes, b: Bytes)
    ensures Printable(a + [0] + b) <==> Printable(a) && Printable(b)
  {
    var c := a + [0] + b;
    if Printable(c) {
      forall i | 0 <= i < |a| ensures PrintableByte(a[i]) { assert c[i] == a[i]; }
      forall i | 0 <= i < |b| ensures PrintableByte(b[i]) { assert c[|a| + 1 + i] == b[i]; }
    }
  }

  /** The payload starts after the 8-byte header. */
  lemma PayloadSlice(b: Bytes, i: nat, j: nat)
    requires i <= j && HEADER + j <= |b|
    ensures b[HEADER..][i..j] == b[HEADER + i..HEADER + j]
  {
  }

  /** Where the unwritten rest of a string field lies in the slot, up to `end`. */
  lemma StaleSlice(b: Bytes, prior: Bytes, at: nat, to: nat, end: nat, path: Option<Bytes>)
    requires |b| == |prior| == end && at + 128 == to <= end && b[to..end] == prior[to..end]
    requires StrWritten(b[at..to], prior[at..to], path)
    ensures path.Some? && |path.value| <= 127 ==>
      var k := at + 1 + |path.value|;
      prior[at..to][|path.value| + 1..] == prior[k..to] && b[k..end] == prior[k..end]
  {
    if path.Some? && |path.value| <= 127 {
      var k := at + 1 + |path.value|;
      assert b[at..to][|path.value| + 1..] == b[k..to] && prior[at..to][|path.value| + 1..] == prior[k..to];
      assert b[k..end] == b[k..to] + b[to..end] && prior[k..end] == prior[k..to] + prior[to..end];
    }
  }

  /**
   Round trip of an exec record over a dirty slot. It is accepted exactly when its name, its path as far
   as it fits and the stale rest of the path field are all printable; then every field comes back.
   */
  lemma ExecRoundTrip(b: Bytes, prior: Bytes, f: FileFiring, text: AddrText)
    requires ExecWritten(b, prior, f) && NulPadded(f.comm) && ValidPath(f.path)
    ensures DecodeStream(b, text).Some?
       <==> Printable(f.comm)
            && match f.path
               case None => true
               case Some(p) =>
                 if |p| <= 127 then Printable(p) && Printable(prior[45 + |p|..172]) else Printable(p[..127])
    ensures DecodeStream(b, text).Some? ==>
      DecodeStream(b, text).value == File(f.pid, f.ppid, FILE_EVENT_EXEC, f.comm, b[44..172])
    ensures match f.path
            case None => Cut(b[44..172]) == []
            case Some(p) =>
              if |p| <= 127 then Cut(b[44..172]) == p && b[45 + |p|..176] == prior[45 + |p|..176]
              else Cut(b[44..172]) == p[..127] && b[172..176] == prior[172..176]
    ensures DecodeExec(b).Some? <==> DecodeStream(b, text).Some?
    ensures DecodeExec(b).Some? ==> DecodeExec(b).value.ktimeNs == f.ktime
  {
    hide StrWritten, Cut, Printable, FromLe, ToLe;
    LeWords();
    StrReadBack(b[44..172], prior[44..172], f.path);
    StaleSlice(b, prior, 44, 172, 176, f.path);
    PayloadSlice(b, 0, 8);
    PayloadSlice(b, 12, 16);
    PayloadSlice(b, 16, 20);
    PayloadSlice(b, 20, 36);
    PayloadSlice(b, 36, 164);
  }

  lemma OpenRoundTrip(b: Bytes, prior: Bytes, f: FileFiring, text: AddrText)
    requires OpenWritten(b, prior, f) && NulPadded(f.comm) && ValidPath(f.path)
    ensures DecodeStream(b, text).Some?
       <==> Printable(f.comm)
            && match f.path
               case None => true
               case Some(p) =>
                 if |p| <= 127 then Printable(p) && Printable(prior[41 + |p|..168]) else Printable(p[..127])
    ensures DecodeStream(b, text).Some? ==>
      DecodeStream(b, text).value == File(f.pid, 0, FILE_EVENT_OPEN, f.comm, b[40..168])
    ensures match f.path
            case None => Cut(b[40..168]) == []
            case Some(p) =>
              if |p| <= 127 then Cut(b[40..168]) == p && b[41 + |p|..168] == prior[41 + |p|..168]
              else Cut(b[40..168]) == p[..127]
    ensures DecodeOpen(b).Some? <==> DecodeStream(b, text).Some?
    ensures DecodeOpen(b).Some? ==> DecodeOpen(b).value.ktimeNs == f.ktime
  {
    hide StrWritten, Cut, Printable, FromLe, ToLe;
    LeWords();
    StrReadBack(b[40..168], prior[40..168], f.path);
    StaleSlice(b, prior, 40, 168, 168, f.path);
    PayloadSlice(b, 0, 8);
    PayloadSlice(b, 12, 16);
    PayloadSlice(b, 16, 32);
    PayloadSlice(b, 32, 160);
  }

  /**
   Round trip of a TCP record: accepted exactly when the name is printable, the family (cut to a byte)
   is one of the two known and the type one of the three; the 12 address bytes an IPv4 record leaves
   unwritten never show.
   */
  lemma TcpRoundTrip(b: Bytes, prior: Bytes, f: TcpFiring, text: AddrText)
    requires ValidTcp(f) && TcpWritten(b, prior, f)
    ensures DecodeStream(b, text).Some?
       <==> Printable(f.comm) && (f.family % 256 == AF_INET || f.family % 256 == AF_INET6) && 1 <= f.eventType <= 3
    ensures DecodeTcp(b).Some? <==> DecodeStream(b, text).Some?
    ensures DecodeTcp(b).Some? ==>
      var ev := DecodeTcp(b).value;
      && ev.ktimeNs == f.ktime && ev.pid == f.pid && ev.comm == f.comm && ev.eventType == f.eventType
      && ev.sport == f.sport && ev.dport == f.dport
      && (f.family == AF_INET ==>
           && Source(ev, text) == text.v4(f.saddr) + ":" + Decimal(f.sport)
           && Destination(ev, text) == text.v4(f.daddr) + ":" + Decimal(f.dport))
      && (f.family == AF_INET6 as int ==>
           && Source(ev, text) == "[" + text.v6(f.saddr6) + "]:" + Decimal(f.sport)
           && Destination(ev, text) == "[" + text.v6(f.daddr6) + "]:" + Decimal(f.dport))
      && DecodeStream(b, text).value == Tcp(f.pid, f.eventType, f.family % 256, f.comm, Destination(ev, text))
  {
    hide FromLe, ToLe, Printable, TcpTask;
    TcpPayload(b, f);
    if f.family == AF_INET {
      assert b[42..58][..4] == b[42..46] && b[58..74][..4] == b[58..62];
    }
    if f.family == AF_INET6 {
      assert "]" + ":" == "]:";
      forall a: string, p: string
        ensures ("[" + a + "]") + ":" + p == "[" + a + "]:" + p
      {
      }
    }
  }

  lemma TcpPayload(b: Bytes, f: TcpFiring)
    requires ValidTcp(f) && |b| == HEADER + TCP_EVENT_SIZE && TcpHead(b, f)
    ensures ReadTcp(b[8..]) == Some(TcpEvent(f.ktime, f.pid, f.comm, f.eventType, f.family % 256,
                                             f.sport, f.dport, b[42..58], b[58..74]))
    ensures U32At(b, 0) == 0 && U32At(b, 4) == RECORD_VERSION
  {
    hide FromLe, ToLe;
    LeWords();
    PayloadSlice(b, 0, 8);
    PayloadSlice(b, 8, 12);
    PayloadSlice(b, 12, 28);
    assert b[8..][28] == b[36..38][0] && b[8..][29] == b[36..38][1];
    PayloadSlice(b, 30, 32);
    PayloadSlice(b, 32, 34);
    PayloadSlice(b, 34, 50);
    PayloadSlice(b, 50, 66);
  }

  /**
   A slot's old bytes can cost a good event: an exec of `/bin/x` is rejected by every decoder when the
   slot last held a byte outside the printable range further on in the path field.
   */
  lemma DirtySlotRejects(b: Bytes, prior: Bytes, f: FileFiring, text: AddrText)
    requires ExecWritten(b, prior, f) && NulPadded(f.comm) && ValidPath(f.path)
    requires f.path == Some([0x2f, 0x62, 0x69, 0x6e, 0x2f, 0x78]) && prior[60] == 0x80
    ensures DecodeExec(b).None? && DecodeStream(b, text).None?
  {
    ExecRoundTrip(b, prior, f, text);
    assert prior[51..172][9] == prior[60];
  }
}
