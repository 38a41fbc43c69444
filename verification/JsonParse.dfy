/**
 A reference reader: flat JSON objects of strings and whole numbers, with strings as section 7 of
 RFC 8259 has them. Code points up to 255 are read back as bytes; anything else is refused.
 */
module JsonParse {
  import opened Words
  import opened Layout

  datatype Parsed<T> = Fail | Got(value: T, rest: string)

  datatype Json = JStr(bytes: Bytes) | JNum(n: nat)
  datatype Member = Member(name: Bytes, value: Json)

  // ---- strings

  function HexValue(c: char): Option<nat> {
    if '0' <= c <= '9' then Some(c as nat - '0' as nat)
    else if 'a' <= c <= 'f' then Some(c as nat - 'a' as nat + 10)
    else if 'A' <= c <= 'F' then Some(c as nat - 'A' as nat + 10)
    else None
  }

  /** The four hexadecimal digits of `\uXXXX`. */
  function Hex4(s: string): Option<nat> {
    if |s| != 4 then None
    else
      match (HexValue(s[0]), HexValue(s[1]), HexValue(s[2]), HexValue(s[3]))
      case (Some(a), Some(b), Some(c), Some(d)) => Some(a * 4096 + b * 256 + c * 16 + d)
      case _ => None
  }

  /** The two-character escapes. */
  function ShortEscape(c: char): Option<Byte> {
    if c == '"' then Some(0x22)
    else if c == '\\' then Some(0x5c)
    else if c == '/' then Some(0x2f)
    else if c == 'b' then Some(8)
    else if c == 'f' then Some(12)
    else if c == 'n' then Some(10)
    else if c == 'r' then Some(13)
    else if c == 't' then Some(9)
    else None
  }

  function Prepend(b: Byte, p: Parsed<Bytes>): Parsed<Bytes> {
    match p
    case Fail => Fail
    case Got(bytes, rest) => Got([b] + bytes, rest)
  }

  /** One character of a string, plain or escaped, and how long it is. */
  function Unit(s: string): Option<(Byte, nat)>
    requires |s| > 0
  {
    if s[0] == '\\' then
      if |s| >= 2 && s[1] == 'u' then
        if |s| >= 6 && Hex4(s[2..6]).Some? && Hex4(s[2..6]).value < 256 then Some((Hex4(s[2..6]).value, 6)) else None
      else if |s| >= 2 && ShortEscape(s[1]).Some? then Some((ShortEscape(s[1]).value, 2))
      else None
    else if ' ' <= s[0] && s[0] as int < 256 then Some((s[0] as int, 1))
    else None
  }

  /** The string up to its closing quote, from just after the opening one. */
  function ParseBody(s: string): (p: Parsed<Bytes>)
    ensures p.Got? ==> |p.rest| < |s|
    decreases |s|
  {
    if |s| == 0 then Fail
    else if s[0] == '"' then Got([], s[1..])
    else
      match Unit(s)
      case None => Fail
      case Some((b, n)) => if 0 < n <= |s| then Prepend(b, ParseBody(s[n..])) else Fail
  }

  // ---- numbers

  predicate IsDigit(c: char) { '0' <= c <= '9' }

  function DigitRun(s: string): (n: nat)
    ensures n <= |s|
  {
    if |s| == 0 || !IsDigit(s[0]) then 0 else 1 + DigitRun(s[1..])
  }

  function DigitsValue(s: string): nat
    requires forall i :: 0 <= i < |s| ==> IsDigit(s[i])
  {
    if |s| == 0 then 0 else assert IsDigit(s[|s| - 1]); DigitsValue(s[..|s| - 1]) * 10 + (s[|s| - 1] as nat - '0' as nat)
  }

  lemma {:induction false} DigitRunDigits(s: string)
    ensures forall i :: 0 <= i < DigitRun(s) ==> IsDigit(s[i])
  {
    if |s| > 0 && IsDigit(s[0]) {
      DigitRunDigits(s[1..]);
      forall i | 0 <= i < DigitRun(s) ensures IsDigit(s[i]) {
        if i > 0 { assert s[i] == s[1..][i - 1]; }
      }
    }
  }

  /** A whole number: no leading zero. */
  function ParseNumber(s: string): (p: Parsed<nat>)
    ensures p.Got? ==> |p.rest| < |s|
  {
    var n := DigitRun(s);
    DigitRunDigits(s);
    if n == 0 || (n > 1 && s[0] == '0') then Fail else Got(DigitsValue(s[..n]), s[n..])
  }

  // ---- objects

  function SkipSpace(s: string): (r: string)
    ensures |r| <= |s|
  {
    if |s| > 0 && s[0] in [' ', '\t', '\n', '\r'] then SkipSpace(s[1..]) else s
  }

  function ParseValue(s: string): (p: Parsed<Json>)
    ensures p.Got? ==> |p.rest| < |s|
  {
    if |s| == 0 then Fail
    else if s[0] == '"' then
      match ParseBody(s[1..])
      case Fail => Fail
      case Got(b, rest) => Got(JStr(b), rest)
    else
      match ParseNumber(s)
      case Fail => Fail
      case Got(n, rest) => Got(JNum(n), rest)
  }

  /** `"name" : value` */
  function ParseMember(s: string): (p: Parsed<Member>)
    ensures p.Got? ==> |p.rest| < |s|
  {
    var s := SkipSpace(s);
    if |s| == 0 || s[0] != '"' then Fail
    else
      match ParseBody(s[1..])
      case Fail => Fail
      case Got(name, rest) =>
        var rest := SkipSpace(rest);
        if |rest| == 0 || rest[0] != ':' then Fail
        else
          match ParseValue(SkipSpace(rest[1..]))
          case Fail => Fail
          case Got(v, rest) => Got(Member(name, v), SkipSpace(rest))
  }

  /** The members, from the first one to the closing brace. */
  function ParseMembers(s: string): (p: Parsed<seq<Member>>)
    decreases |s|
  {
    match ParseMember(s)
    case Fail => Fail
    case Got(m, rest) =>
      if |rest| > 0 && rest[0] == '}' then Got([m], rest[1..])
      else if |rest| > 0 && rest[0] == ',' then
        match ParseMembers(rest[1..])
        case Fail => Fail
        case Got(ms, rest) => Got([m] + ms, rest)
      else Fail
  }

  /** A text that is one object and nothing else. */
  function ParseObject(s: string): Option<seq<Member>> {
    var s := SkipSpace(s);
    if |s| == 0 || s[0] != '{' then None
    else
      var body := SkipSpace(s[1..]);
      if |body| > 0 && body[0] == '}' then (if SkipSpace(body[1..]) == "" then Some([]) else None)
      else
        match ParseMembers(body)
        case Fail => None
        case Got(ms, rest) => if SkipSpace(rest) == "" then Some(ms) else None
  }

  // ---- lines

  function NewlineIndex(s: string): (n: nat)
    ensures n <= |s| && (n < |s| ==> s[n] == '\n')
    ensures forall i :: 0 <= i < n ==> s[i] != '\n'
  {
    if |s| == 0 || s[0] == '\n' then 0 else 1 + NewlineIndex(s[1..])
  }

  /** The lines of a text, each with its newline; a last piece without one counts too. */
  function SplitLines(s: string): seq<string>
    decreases |s|
  {
    if |s| == 0 then []
    else
      var n := NewlineIndex(s);
      if n == |s| then [s] else [s[..n + 1]] + SplitLines(s[n + 1..])
  }
}
