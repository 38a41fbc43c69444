/** The byte layout of ring-buffer records, shared by the C writers and the Rust readers. Integers are little-endian. */
module Layout {
  import opened Words

  type Bytes = seq<Byte>

  const HEADER: nat := 8
  const RECORD_VERSION: U32 := 1
  const EVENT_KIND_EXEC: U32 := 1
  const EVENT_KIND_OPEN: U32 := 2
  const EXEC_EVENT_SIZE: nat := 168
  const OPEN_EVENT_SIZE: nat := 160
  const TCP_EVENT_SIZE: nat := 72
  const AF_INET: Byte := 2
  const AF_INET6: Byte := 10
  const TCP_EVENT_CONNECT: Byte := 1
  const TCP_EVENT_ACCEPT: Byte := 2
  const TCP_EVENT_CLOSE: Byte := 3

  // ---- integers

  function Pow256(n: nat): (p: nat)
    ensures p > 0
  {
    if n == 0 then 1 else 256 * Pow256(n - 1)
  }

  function ToLe(v: nat, n: nat): (b: Bytes)
    ensures |b| == n
  {
    if n == 0 then [] else [v % 256] + ToLe(v / 256, n - 1)
  }

  function FromLe(b: Bytes): nat {
    if |b| == 0 then 0 else b[0] + 256 * FromLe(b[1..])
  }

  lemma {:induction false} FromLeBound(b: Bytes)
    ensures FromLe(b) < Pow256(|b|)
  {
    if |b| > 0 {
      FromLeBound(b[1..]);
    }
  }

  lemma {:induction false} LeRoundTrip(v: nat, n: nat)
    requires v < Pow256(n)
    ensures FromLe(ToLe(v, n)) == v
  {
    if n > 0 {
      LeRoundTrip(v / 256, n - 1);
      assert ToLe(v, n)[1..] == ToLe(v / 256, n - 1);
    }
  }

  lemma LeWords()
    ensures forall v: U16 :: FromLe(ToLe(v, 2)) == v
    ensures forall v: U32 :: FromLe(ToLe(v, 4)) == v
    ensures forall v: U64 :: FromLe(ToLe(v, 8)) == v
  {
    Pow256Words();
    forall v: U16 ensures FromLe(ToLe(v, 2)) == v { LeRoundTrip(v, 2); }
    forall v: U32 ensures FromLe(ToLe(v, 4)) == v { LeRoundTrip(v, 4); }
    forall v: U64 ensures FromLe(ToLe(v, 8)) == v { LeRoundTrip(v, 8); }
  }

  lemma Pow256Words()
    ensures Pow256(2) == 0x1_0000 && Pow256(4) == 0x1_0000_0000 && Pow256(8) == TWO64
  {
    assert Pow256(4) == 0x1_0000_0000;
    assert Pow256(8) == 256 * (256 * (256 * (256 * Pow256(4))));
  }

  /** `from_ne_bytes` on the bytes of a slice. */
  function U16At(b: Bytes, i: nat): U16
    requires i + 2 <= |b|
  {
    FromLeBound(b[i..i + 2]);
    Pow256Words();
    FromLe(b[i..i + 2])
  }

  function U32At(b: Bytes, i: nat): U32
    requires i + 4 <= |b|
  {
    FromLeBound(b[i..i + 4]);
    Pow256Words();
    FromLe(b[i..i + 4])
  }

  function U64At(b: Bytes, i: nat): U64
    requires i + 8 <= |b|
  {
    FromLeBound(b[i..i + 8]);
    Pow256Words();
    FromLe(b[i..i + 8])
  }

  function Word2(low: nat, high: nat): nat {
    low + 0x100 * high
  }

  function Word4(b0: nat, b1: nat, b2: nat, b3: nat): nat {
    b0 + 0x100 * b1 + 0x1_0000 * b2 + 0x100_0000 * b3
  }

  /** What the words are, byte by byte: the first byte counts least. */
  lemma LittleEndian(b: Bytes, i: nat)
    ensures i + 2 <= |b| ==> U16At(b, i) == Word2(b[i], b[i + 1])
    ensures i + 4 <= |b| ==> U32At(b, i) == Word4(b[i], b[i + 1], b[i + 2], b[i + 3])
  {
    if i + 2 <= |b| {
      FromLePair(b[i..i + 2]);
    }
    if i + 4 <= |b| {
      var w := b[i..i + 4];
      FromLePair(w[2..]);
      assert w[1..][1..] == w[2..];
      assert FromLe(w) == Word2(w[0], Word2(w[1], FromLe(w[2..])));
    }
  }

  lemma FromLePair(w: Bytes)
    requires |w| == 2
    ensures FromLe(w) == Word2(w[0], w[1])
  {
    assert FromLe(w[1..][1..]) == 0;
  }

  // ---- strings

  predicate PrintableByte(b: Byte) { b == 0 || 0x20 <= b < 0x7f }

  /** `printable`: every byte of the field, also after a NUL. */
  predicate Printable(b: Bytes) {
    forall i :: 0 <= i < |b| ==> PrintableByte(b[i])
  }

  /** The index of the first NUL, or the length. */
  function NulIndex(b: Bytes): (n: nat)
    ensures n <= |b| && (n < |b| ==> b[n] == 0)
    ensures forall i :: 0 <= i < n ==> b[i] != 0
  {
    if |b| == 0 || b[0] == 0 then 0 else 1 + NulIndex(b[1..])
  }

  /** The bytes up to the first NUL. */
  function Cut(b: Bytes): Bytes { b[..NulIndex(b)] }

  lemma CutIs(b: Bytes, n: nat)
    requires n < |b| && b[n] == 0 && forall i :: 0 <= i < n ==> b[i] != 0
    ensures Cut(b) == b[..n]
  {
  }

  /** A task name as the kernel hands it out: 16 bytes, NUL-terminated and padded with NULs. */
  predicate NulPadded(comm: Bytes) {
    |comm| == 16 && NulIndex(comm) < 16 && forall i :: NulIndex(comm) <= i < 16 ==> comm[i] == 0
  }

  // ---- structs

  datatype ExecEvent = ExecEvent(ktimeNs: U64, kind: U32, pid: U32, ppid: U32, comm: Bytes, filename: Bytes)
  datatype OpenEvent = OpenEvent(ktimeNs: U64, kind: U32, pid: U32, comm: Bytes, filename: Bytes)
  datatype TcpEvent = TcpEvent(ktimeNs: U64, pid: U32, comm: Bytes, eventType: Byte, family: Byte,
                               sport: U16, dport: U16, saddr: Bytes, daddr: Bytes)

  /** `read_event`: the whole payload or nothing. Trailing padding is not a field. */
  function ReadExec(data: Bytes): Option<ExecEvent> {
    if |data| != EXEC_EVENT_SIZE then None
    else Some(ExecEvent(U64At(data, 0), U32At(data, 8), U32At(data, 12), U32At(data, 16), data[20..36], data[36..164]))
  }

  function ReadOpen(data: Bytes): Option<OpenEvent> {
    if |data| != OPEN_EVENT_SIZE then None
    else Some(OpenEvent(U64At(data, 0), U32At(data, 8), U32At(data, 12), data[16..32], data[32..160]))
  }

  function ReadTcp(data: Bytes): Option<TcpEvent> {
    if |data| != TCP_EVENT_SIZE then None
    else Some(TcpEvent(U64At(data, 0), U32At(data, 8), data[12..28], data[28], data[29],
                       U16At(data, 30), U16At(data, 32), data[34..50], data[50..66]))
  }

  /** How the standard library prints addresses; any two functions of the bytes. */
  datatype AddrText = AddrText(v4: Bytes -> string, v6: Bytes -> string)

  function Decimal(n: nat): (s: string)
    ensures |s| > 0 && forall i :: 0 <= i < |s| ==> '0' <= s[i] <= '9'
  {
    if n < 10 then ['0' + n as char] else Decimal(n / 10) + ['0' + (n % 10) as char]
  }

  function AddrOf(family: Byte, addr: Bytes, text: AddrText): string
    requires |addr| == 16
  {
    if family == AF_INET then text.v4(addr[..4]) else "[" + text.v6(addr) + "]"
  }

  function Source(ev: TcpEvent, text: AddrText): string
    requires |ev.saddr| == 16
  {
    AddrOf(ev.family, ev.saddr, text) + ":" + Decimal(ev.sport)
  }

  function Destination(ev: TcpEvent, text: AddrText): string
    requires |ev.daddr| == 16
  {
    AddrOf(ev.family, ev.daddr, text) + ":" + Decimal(ev.dport)
  }

  function TcpEventName(t: Byte): string {
    if t == TCP_EVENT_CONNECT then "CONNECT"
    else if t == TCP_EVENT_ACCEPT then "ACCEPT"
    else if t == TCP_EVENT_CLOSE then "CLOSE"
    else "UNKNOWN"
  }
}
