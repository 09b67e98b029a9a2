/** The text of RTSP messages: searching, request line, header fields, and the body length. */
module RtspText {
  import opened Wrappers
  import opened Decimals
  import opened Texts

  const CRLF := "\r\n"
  const BLANK := "\r\n\r\n"

  // ---------------------------------------------------------------------
  // Request line
  // ---------------------------------------------------------------------

  predicate IsSpace(c: char) {
    c == ' ' || '\t' <= c <= '\r'
  }

  function SkipSpaces(s: string): string {
    if s != "" && IsSpace(s[0]) then SkipSpaces(s[1..]) else s
  }

  function WordLength(s: string): (n: nat)
    ensures n <= |s|
  {
    if s == "" || IsSpace(s[0]) then 0 else 1 + WordLength(s[1..])
  }

  /** Stream extraction: the next word, and what follows it. */
  function Word(s: string): Option<(string, string)> {
    var t := SkipSpaces(s);
    var n := WordLength(t);
    if n == 0 then None else Some((t[..n], t[n..]))
  }

  /** A path-only form of an absolute URI. */
  function PathOf(uri: string): string {
    if Starts(uri, "rtsp://") || Starts(uri, "http://") then
      match Find(uri[7..], "/")
      case None => "/"
      case Some(i) => uri[7 + i..]
    else uri
  }

  // ---------------------------------------------------------------------
  // Header fields
  // ---------------------------------------------------------------------

  function Lower(c: char): char {
    if 'A' <= c <= 'Z' then (c as int + 32) as char else c
  }

  function ToLower(s: string): (r: string)
    ensures |r| == |s|
  {
    if s == "" then "" else [Lower(s[0])] + ToLower(s[1..])
  }

  predicate IsBlank(c: char) {
    c == ' ' || c == '\t'
  }

  function TrimFront(s: string): string {
    if s != "" && IsBlank(s[0]) then TrimFront(s[1..]) else s
  }

  function TrimBack(s: string): string {
    if s != "" && IsBlank(s[|s| - 1]) then TrimBack(s[..|s| - 1]) else s
  }

  function Trim(s: string): string {
    TrimBack(TrimFront(s))
  }

  /** One header line; a line without a colon is ignored, and a later field replaces an earlier one. */
  function WithField(headers: map<string, string>, line: string): map<string, string> {
    match Find(line, ":")
    case None => headers
    case Some(i) => headers[ToLower(Trim(line[..i])) := Trim(line[i + 1..])]
  }

  /** The lines of a header section, each ended by CRLF. */
  function Fields(s: string, headers: map<string, string>): map<string, string>
    decreases |s|
  {
    match Find(s, CRLF)
    case None => headers
    case Some(i) => if i == 0 then headers else Fields(s[i + 2..], WithField(headers, s[..i]))
  }

  datatype Request = Request(method_: string, uri: string, version: string, headers: map<string, string>, body: string)

  /** The request line and the fields of a section that ends with an empty line. */
  function Head(section: string): Option<Request>
    requires |section| >= 4
  {
    match Find(section, CRLF)
    case None => None
    case Some(e) =>
      match Word(section[..e])
      case None => None
      case Some((m, t)) =>
        match Word(t)
        case None => None
        case Some((uri, u)) =>
          match Word(u)
          case None => None
          case Some((version, _)) =>
            Some(Request(m, PathOf(uri), version,
                         if e + 2 <= |section| - 2 then Fields(section[e + 2..|section| - 2], map[]) else map[], ""))
  }

  // ---------------------------------------------------------------------
  // Body length
  // ---------------------------------------------------------------------

  /** Values of `unsigned long` on Windows. */
  const ULONG: int := 0x1_0000_0000

  function Digits(s: string): (n: nat)
    ensures n <= |s|
    ensures forall i :: 0 <= i < n ==> IsDigit(s[i])
  {
    if s == "" || !IsDigit(s[0]) then 0 else 1 + Digits(s[1..])
  }

  /** `stoul`: blanks, a sign, digits; anything may follow. No digits or too large a number is an error. */
  function Stoul(s: string): Option<nat> {
    var t := SkipSpaces(s);
    var negative := t != "" && t[0] == '-';
    var u := if t != "" && (t[0] == '-' || t[0] == '+') then t[1..] else t;
    var n := Digits(u);
    if n == 0 || Value(u[..n]) >= ULONG then None
    else if negative && Value(u[..n]) != 0 then Some(ULONG - Value(u[..n]))
    else Some(Value(u[..n]))
  }

  const LENGTH := "content-length"

  function Header(headers: map<string, string>, key: string): string {
    if ToLower(key) in headers then headers[ToLower(key)] else ""
  }

  function ContentLength(headers: map<string, string>): nat {
    var v := Header(headers, LENGTH);
    if v == "" then 0 else match Stoul(v) case None => 0 case Some(n) => n
  }
}
