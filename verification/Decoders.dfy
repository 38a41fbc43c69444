/** The two independent decoders of a record: one per command, and the dashboard's. */
module Decoders {
  import opened Words
  import opened Layout

  const FILE_EVENT_EXEC: Byte := 0
  const FILE_EVENT_OPEN: Byte := 1

  // ---- src/events.rs: one decoder per command

  function SkipHeader(data: Bytes): Option<Bytes> {
    if |data| < 8 then None
    else if U32At(data, 4) != RECORD_VERSION then None
    else Some(data[8..])
  }

  function DecodeExec(data: Bytes): Option<ExecEvent> {
    match SkipHeader(data)
    case None => None
    case Some(payload) =>
      match ReadExec(payload)
      case None => None
      case Some(ev) => if !Printable(ev.comm) || !Printable(ev.filename) then None else Some(ev)
  }

  function DecodeOpen(data: Bytes): Option<OpenEvent> {
    match SkipHeader(data)
    case None => None
    case Some(payload) =>
      match ReadOpen(payload)
      case None => None
      case Some(ev) => if !Printable(ev.comm) || !Printable(ev.filename) then None else Some(ev)
  }

  function DecodeTcp(data: Bytes): (ev: Option<TcpEvent>)
    ensures ev.Some? ==> |ev.value.saddr| == |ev.value.daddr| == 16
  {
    match SkipHeader(data)
    case None => None
    case Some(payload) =>
      match ReadTcp(payload)
      case None => None
      case Some(ev) =>
        if !Printable(ev.comm) then None
        else if ev.family != AF_INET && ev.family != AF_INET6 then None
        else if !(TCP_EVENT_CONNECT <= ev.eventType <= TCP_EVENT_CLOSE) then None
        else Some(ev)
  }

  // ---- tracelet-common/src/stream.rs: the dashboard's decoder

  datatype DashboardEvent =
    | File(pid: U32, ppid: U32, kind: Byte, comm: Bytes, path: Bytes)
    | Tcp(pid: U32, eventType: Byte, family: Byte, comm: Bytes, dest: string)

  function EventName(ev: DashboardEvent): string {
    match ev
    case File(_, _, kind, _, _) =>
      if kind == FILE_EVENT_EXEC then "EXEC" else if kind == FILE_EVENT_OPEN then "OPEN" else "UNKNOWN"
    case Tcp(_, eventType, _, _, _) => TcpEventName(eventType)
  }

  /** `stream::decode_tcp`, on the payload alone. */
  function DecodeTcpPayload(payload: Bytes): (ev: Option<TcpEvent>)
    ensures ev.Some? ==> |ev.value.daddr| == 16
  {
    match ReadTcp(payload)
    case None => None
    case Some(ev) =>
      if !Printable(ev.comm) then None
      else if ev.family != AF_INET && ev.family != AF_INET6 then None
      else if !(TCP_EVENT_CONNECT <= ev.eventType <= TCP_EVENT_CLOSE) then None
      else Some(ev)
  }

  function DecodeStream(data: Bytes, text: AddrText): Option<DashboardEvent> {
    if |data| < 8 then None
    else if U32At(data, 4) != RECORD_VERSION then None
    else
      var kind := U32At(data, 0);
      var payload := data[8..];
      if kind == EVENT_KIND_EXEC then
        match ReadExec(payload)
        case None => None
        case Some(ev) =>
          if !Printable(ev.comm) || !Printable(ev.filename) then None
          else Some(File(ev.pid, ev.ppid, FILE_EVENT_EXEC, ev.comm, ev.filename))
      else if kind == EVENT_KIND_OPEN then
        match ReadOpen(payload)
        case None => None
        case Some(ev) =>
          if !Printable(ev.comm) || !Printable(ev.filename) then None
          else Some(File(ev.pid, 0, FILE_EVENT_OPEN, ev.comm, ev.filename))
      else
        match DecodeTcpPayload(payload)
        case None => None
        case Some(ev) => Some(Tcp(ev.pid, ev.eventType, ev.family, ev.comm, Destination(ev, text)))
  }

  /** `wall_time` of the collector: the clock bytes of the raw record, when there are any. */
  function CollectorTime(data: Bytes): Option<U64> {
    if |data| < 16 then None else Some(U64At(data, 8))
  }

  // ---- theorems

  /**
   On every byte string the dashboard decoder accepts exactly when the dedicated decoder chosen by the
   header's kind accepts, and then says the same about every field both have.
   */
  lemma DecodersAgree(data: Bytes, text: AddrText)
    ensures |data| < 8 ==> DecodeStream(data, text).None?
    ensures |data| >= 8 ==>
      match U32At(data, 0)
      case 1 =>
        (match DecodeExec(data)
         case None => DecodeStream(data, text) == None
         case Some(ev) => DecodeStream(data, text) == Some(File(ev.pid, ev.ppid, 0, ev.comm, ev.filename)))
      case 2 =>
        (match DecodeOpen(data)
         case None => DecodeStream(data, text) == None
         case Some(ev) => DecodeStream(data, text) == Some(File(ev.pid, 0, 1, ev.comm, ev.filename)))
      case _ =>
        (match DecodeTcp(data)
         case None => DecodeStream(data, text) == None
         case Some(ev) =>
           DecodeStream(data, text) == Some(Tcp(ev.pid, ev.eventType, ev.family, ev.comm, Destination(ev, text))))
  {
  }

  /** Version 1, byte by byte. */
  lemma VersionBytes(data: Bytes)
    ensures SkipHeader(data) == if |data| >= 8 && data[4..8] == [1, 0, 0, 0] then Some(data[8..]) else None
  {
    if |data| >= 8 {
      SmallWord(data, 4, 1);
    }
  }

  lemma SmallWord(data: Bytes, i: nat, k: Byte)
    requires i + 4 <= |data|
    ensures U32At(data, i) == k <==> data[i..i + 4] == [k, 0, 0, 0]
  {
    hide Word4, U32At;
    LittleEndian(data, i);
    WordOfByte(data[i], data[i + 1], data[i + 2], data[i + 3], k);
    assert data[i..i + 4] == [data[i], data[i + 1], data[i + 2], data[i + 3]];
  }

  lemma WordOfByte(b0: Byte, b1: Byte, b2: Byte, b3: Byte, k: Byte)
    ensures Word4(b0, b1, b2, b3) == k <==> b0 == k && b1 == b2 == b3 == 0
  {
  }

  /** Words of the payload, byte by byte in the record. */
  lemma PayloadWords(data: Bytes, i: nat)
    requires 8 + i + 4 <= |data|
    ensures U16At(data[8..], i) == Word2(data[8 + i], data[9 + i])
    ensures U32At(data[8..], i) == Word4(data[8 + i], data[9 + i], data[10 + i], data[11 + i])
  {
    LittleEndian(data[8..], i);
  }

  lemma FieldsPrintable(data: Bytes, i: nat, j: nat, k: nat)
    requires i <= j <= k && 8 + k <= |data|
    ensures data[8..][i..j] == data[8 + i..8 + j] && data[8..][j..k] == data[8 + j..8 + k]
    ensures Printable(data[8 + i..8 + j]) && Printable(data[8 + j..8 + k])
       <==> forall n :: 8 + i <= n < 8 + k ==> data[n] == 0 || 0x20 <= data[n] <= 0x7e
  {
    var a, b := data[8 + i..8 + j], data[8 + j..8 + k];
    forall n | 8 + i <= n < 8 + k
      ensures data[n] == if n < 8 + j then a[n - 8 - i] else b[n - 8 - j]
    {
    }
    assert forall n :: 0 <= n < |a| ==> a[n] == data[8 + i + n];
    assert forall n :: 0 <= n < |b| ==> b[n] == data[8 + j + n];
  }

  /** An exec record is accepted exactly for its size, version 1 and printable bytes 28 to 171. */
  lemma ExecAccepted(data: Bytes)
    ensures DecodeExec(data).Some?
       <==> |data| == 176 && data[4..8] == [1, 0, 0, 0]
            && forall n :: 28 <= n < 172 ==> data[n] == 0 || 0x20 <= data[n] <= 0x7e
  {
    hide SkipHeader, Printable, U32At, U64At;
    VersionBytes(data);
    if |data| == 176 {
      FieldsPrintable(data, 20, 36, 164);
    }
  }

  lemma ExecFields(data: Bytes)
    requires DecodeExec(data).Some?
    ensures |data| == 176
    ensures var ev := DecodeExec(data).value;
            && ev.pid == Word4(data[20], data[21], data[22], data[23])
            && ev.ppid == Word4(data[24], data[25], data[26], data[27])
            && ev.comm == data[28..44] && ev.filename == data[44..172]
  {
    hide Printable, U32At, U64At, Word4;
    PayloadWords(data, 12);
    PayloadWords(data, 16);
    FieldsPrintable(data, 20, 36, 164);
  }

  /** An open record, for printable bytes 24 to 167. */
  lemma OpenAccepted(data: Bytes)
    ensures DecodeOpen(data).Some?
       <==> |data| == 168 && data[4..8] == [1, 0, 0, 0]
            && forall n :: 24 <= n < 168 ==> data[n] == 0 || 0x20 <= data[n] <= 0x7e
  {
    hide SkipHeader, Printable, U32At, U64At;
    VersionBytes(data);
    if |data| == 168 {
      FieldsPrintable(data, 16, 32, 160);
    }
  }

  lemma OpenFields(data: Bytes)
    requires DecodeOpen(data).Some?
    ensures |data| == 168
    ensures var ev := DecodeOpen(data).value;
            && ev.pid == Word4(data[20], data[21], data[22], data[23])
            && ev.comm == data[24..40] && ev.filename == data[40..168]
  {
    hide Printable, U32At, U64At, Word4;
    PayloadWords(data, 12);
    FieldsPrintable(data, 16, 32, 160);
  }

  /** A TCP record, for a printable name, event type 1, 2 or 3 and address family 2 or 10. */
  lemma TcpAccepted(data: Bytes)
    ensures DecodeTcp(data).Some?
       <==> |data| == 80 && data[4..8] == [1, 0, 0, 0]
            && (forall n :: 20 <= n < 36 ==> data[n] == 0 || 0x20 <= data[n] <= 0x7e)
            && 1 <= data[36] <= 3 && (data[37] == 2 || data[37] == 10)
  {
    hide SkipHeader, Printable, U16At, U32At, U64At;
    VersionBytes(data);
    if |data| == 80 {
      FieldsPrintable(data, 12, 28, 28);
      PrintableNothing(data);
    }
  }

  lemma TcpFields(data: Bytes)
    requires DecodeTcp(data).Some?
    ensures |data| == 80
    ensures var ev := DecodeTcp(data).value;
            && ev.pid == Word4(data[16], data[17], data[18], data[19])
            && ev.comm == data[20..36] && ev.eventType == data[36] && ev.family == data[37]
            && ev.sport == Word2(data[38], data[39]) && ev.dport == Word2(data[40], data[41])
            && ev.saddr == data[42..58] && ev.daddr == data[58..74]
  {
    hide Printable, U16At, U32At, U64At, Word2, Word4;
    PayloadWords(data, 8);
    PayloadWords(data, 30);
    PayloadWords(data, 32);
    FieldsPrintable(data, 12, 28, 28);
    FieldsPrintable(data, 34, 50, 66);
  }

  lemma PrintableNothing(data: Bytes)
    requires |data| == 80
    ensures Printable(data[36..36])
  {
  }

  /** The event name shown, from the record's own bytes. */
  lemma NamesShown(data: Bytes, text: AddrText)
    requires DecodeStream(data, text).Some?
    ensures |data| >= 80
    ensures EventName(DecodeStream(data, text).value)
         == if data[0..4] == [1, 0, 0, 0] then "EXEC"
            else if data[0..4] == [2, 0, 0, 0] then "OPEN"
            else if data[36] == 1 then "CONNECT"
            else if data[36] == 2 then "ACCEPT" else "CLOSE"
  {
    hide SkipHeader, Printable, U16At, U32At, U64At;
    SmallWord(data, 0, 1);
    SmallWord(data, 0, 2);
    DecodersAgree(data, text);
    ExecAccepted(data);
    OpenAccepted(data);
    TcpAccepted(data);
    if DecodeTcp(data).Some? {
      TcpFields(data);
    }
  }

  /** At most one dedicated decoder accepts a record, whatever its bytes; which one is settled by its length. */
  lemma AtMostOneDecoder(data: Bytes)
    ensures DecodeExec(data).Some? ==> |data| == 176 && DecodeOpen(data).None? && DecodeTcp(data).None?
    ensures DecodeOpen(data).Some? ==> |data| == 168 && DecodeExec(data).None? && DecodeTcp(data).None?
    ensures DecodeTcp(data).Some? ==> |data| == 80 && DecodeExec(data).None? && DecodeOpen(data).None?
  {
  }

  /** The time the collector takes from bytes 8..16 of an accepted record is the decoded `ktimeNs`. */
  lemma CollectorTimeIsKtime(data: Bytes, text: AddrText)
    requires DecodeStream(data, text).Some?
    ensures DecodeExec(data).Some? ==> CollectorTime(data) == Some(DecodeExec(data).value.ktimeNs)
    ensures DecodeOpen(data).Some? ==> CollectorTime(data) == Some(DecodeOpen(data).value.ktimeNs)
    ensures DecodeTcp(data).Some? ==> CollectorTime(data) == Some(DecodeTcp(data).value.ktimeNs)
    ensures DecodeExec(data).Some? || DecodeOpen(data).Some? || DecodeTcp(data).Some?
  {
    var payload := data[8..];
    assert payload[0..8] == data[8..16];
  }
}
