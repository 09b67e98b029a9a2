/** Reading the FLUSH boundary from an RTP-Info header (section 12.33 of RFC 2326). */
module RtpInfo {
  import opened Wrappers
  import opened Words
  import opened Decimals

  const PREFIX := "rtptime="

  predicate IsSeparator(c: char) {
    c == ';' || c == ','
  }

  /** The position of the first separator, or the length of the text. */
  function FieldEnd(s: string): (n: nat)
    ensures n <= |s|
    ensures n < |s| ==> IsSeparator(s[n])
    ensures forall i :: 0 <= i < n ==> !IsSeparator(s[i])
  {
    if s == [] || IsSeparator(s[0]) then 0 else 1 + FieldEnd(s[1..])
  }

  function StripFront(s: string): string {
    if s != [] && s[0] == ' ' then StripFront(s[1..]) else s
  }

  function StripBack(s: string): string {
    if s != [] && s[|s| - 1] == ' ' then StripBack(s[..|s| - 1]) else s
  }

  function Strip(s: string): string {
    StripBack(StripFront(s))
  }

  /** A 32-bit number in decimal, nothing before or after it. */
  function Number(s: string): Option<u32> {
    if IsNumeral(s) && Value(s) < TWO32 then Some(Value(s)) else None
  }

  predicate HasPrefix(s: string) {
    |s| >= |PREFIX| && s[..|PREFIX|] == PREFIX
  }

  predicate NamesTime(field: string) {
    HasPrefix(Strip(field))
  }

  function TimeOf(field: string): Option<u32>
    requires NamesTime(field)
  {
    Number(Strip(field)[|PREFIX|..])
  }

  /** The first field that names a time decides, even when its number is malformed. */
  function Boundary(s: string): Option<u32> {
    var n := FieldEnd(s);
    if NamesTime(s[..n]) then TimeOf(s[..n])
    else if n == |s| then None
    else Boundary(s[n + 1..])
  }

  method FlushTimestamp(info: string) returns (r: Option<u32>)
    ensures r == Boundary(info)
  {
    hide Boundary, Number, Strip;
    var pos := 0;
    assert info[0..] == info;
    while pos < |info|
      invariant 0 <= pos <= |info|
      invariant Boundary(info) == Boundary(info[pos..])
    {
      var n := FieldEnd(info[pos..]);
      BoundaryStep(info, pos, n);
      var field := Stripped(info[pos..pos + n]);
      if HasPrefix(field) {
        return Number(field[|PREFIX|..]);
      }
      if pos + n == |info| {
        return None;
      }
      pos := pos + n + 1;
    }
    assert info[pos..] == "";
    BoundaryAtEnd();
    return None;
  }

  lemma BoundaryStep(info: string, pos: nat, n: nat)
    requires pos < |info| && n == FieldEnd(info[pos..])
    ensures Boundary(info[pos..]) ==
            if NamesTime(info[pos..pos + n]) then TimeOf(info[pos..pos + n])
            else if pos + n == |info| then None
            else Boundary(info[pos + n + 1..])
  {
    hide HasPrefix, Number, Strip;
    assert info[pos..][..n] == info[pos..pos + n];
    if pos + n < |info| {
      assert info[pos..][n + 1..] == info[pos + n + 1..];
    }
  }

  lemma BoundaryAtEnd()
    ensures Boundary("") == None
  {}

  method Stripped(field: string) returns (s: string)
    ensures s == Strip(field)
  {
    s := field;
    while s != [] && s[0] == ' '
      invariant StripFront(s) == StripFront(field)
    {
      s := s[1..];
    }
    while s != [] && s[|s| - 1] == ' '
      invariant StripBack(s) == Strip(field)
    {
      s := s[..|s| - 1];
    }
  }

  // ---------------------------------------------------------------------
  // Reading what a sender writes
  // ---------------------------------------------------------------------

  function Spaces(n: nat): string {
    if n == 0 then "" else " " + Spaces(n - 1)
  }

  lemma {:induction false} SpacesShape(n: nat)
    ensures |Spaces(n)| == n && forall i :: 0 <= i < n ==> Spaces(n)[i] == ' '
  {
    if n > 0 {
      SpacesShape(n - 1);
    }
  }

  lemma {:induction false} StripFrontPadding(n: nat, s: string)
    requires s != [] && s[0] != ' '
    ensures StripFront(Spaces(n) + s) == s
  {
    if n == 0 {
      assert Spaces(0) + s == s;
    } else {
      assert (Spaces(n) + s)[1..] == Spaces(n - 1) + s;
      StripFrontPadding(n - 1, s);
    }
  }

  lemma {:induction false} StripBackPadding(s: string, n: nat)
    requires s != [] && s[|s| - 1] != ' '
    ensures StripBack(s + Spaces(n)) == s
  {
    var t := s + Spaces(n);
    if n == 0 {
      assert t == s;
    } else {
      SpacesShape(n);
      SpacesShape(n - 1);
      assert t[..|t| - 1] == s + Spaces(n - 1);
      StripBackPadding(s, n - 1);
    }
  }

  /** A field that names a time, with blanks around it. */
  function TimeField(n: nat, value: nat, m: nat): string {
    Spaces(n) + ("rtptime=" + Decimal(value) + Spaces(m))
  }

  /** A number beyond 32 bits names a time, but none that is taken. */
  lemma TimeFieldIsRead(n: nat, value: nat, m: nat)
    ensures NamesTime(TimeField(n, value, m))
    ensures TimeOf(TimeField(n, value, m)) == if value < 4294967296 then Some(value) else None
    ensures forall c :: c in TimeField(n, value, m) ==> !IsSeparator(c)
  {
    hide StripFront, StripBack, Decimal, Spaces;
    var s := "rtptime=" + Decimal(value);
    assert PREFIX == "rtptime=";
    assert s[|s| - 1] in Decimal(value);
    StripFrontPadding(n, s + Spaces(m));
    StripBackPadding(s, m);
    assert Strip(TimeField(n, value, m)) == s;
    assert s[|PREFIX|..] == Decimal(value);
    ValueOfDecimal(value);
    SpacesShape(n);
    SpacesShape(m);
  }

  /** What is decided once the first field of a text is known. */
  lemma FirstField(field: string, rest: string)
    requires forall c :: c in field ==> !IsSeparator(c)
    requires rest == "" || IsSeparator(rest[0])
    ensures Boundary(field + rest) ==
            if NamesTime(field) then TimeOf(field)
            else if rest == "" then None
            else Boundary(rest[1..])
  {
    var s := field + rest;
    FieldEndAt(s, |field|);
    assert s[..|field|] == field;
    if rest != "" {
      assert s[|field| + 1..] == rest[1..];
    }
  }

  /** A field without `;` and `,` that does not begin, behind its blanks, with `rtptime=`. */
  predicate Other(f: string) {
    && (forall i :: 0 <= i < |f| ==> f[i] != ';' && f[i] != ',')
    && exists n :: 0 <= n <= |f| && f[..n] == Spaces(n) && Unnamed(f[n..])
  }

  predicate Unnamed(g: string) {
    (g == "" || g[0] != ' ') && !(|g| >= 8 && g[..8] == "rtptime=")
  }

  lemma {:induction false} StripBackKeepsFront(s: string)
    ensures |StripBack(s)| <= |s| && StripBack(s) == s[..|StripBack(s)|]
    ensures forall k :: 0 <= k < |s| && s[k] != ' ' ==> k < |StripBack(s)|
  {
    if s != "" && s[|s| - 1] == ' ' {
      StripBackKeepsFront(s[..|s| - 1]);
    }
  }

  lemma UnnamedStays(g: string)
    requires Unnamed(g)
    ensures !HasPrefix(StripBack(g))
  {
    hide StripBack;
    StripBackKeepsFront(g);
    var t := StripBack(g);
    assert PREFIX == "rtptime=";
    assert |t| >= 8 ==> t[..8] == g[..8];
  }

  lemma {:induction false} StripFrontAll(n: nat)
    ensures StripFront(Spaces(n)) == ""
  {
    if n > 0 {
      assert Spaces(n)[1..] == Spaces(n - 1);
      StripFrontAll(n - 1);
    }
  }

  lemma OtherNamesNoTime(f: string)
    requires Other(f)
    ensures !NamesTime(f) && forall c :: c in f ==> !IsSeparator(c)
  {
    hide StripFront, StripBack, Spaces;
    var n :| 0 <= n <= |f| && f[..n] == Spaces(n) && Unnamed(f[n..]);
    assert f == Spaces(n) + f[n..];
    if f[n..] == "" {
      StripFrontAll(n);
      assert f == Spaces(n);
    } else {
      StripFrontPadding(n, f[n..]);
    }
    UnnamedStays(StripFront(f));
  }

  /** A field, and whether `,` rather than `;` ends it. */
  datatype Part = Part(text: string, comma: bool)

  function Mark(p: Part): string {
    if p.comma then "," else ";"
  }

  lemma OtherIsSkipped(p: Part, rest: string)
    requires Other(p.text)
    ensures Boundary(p.text + (Mark(p) + rest)) == Boundary(rest)
  {
    hide Boundary, NamesTime;
    OtherNamesNoTime(p.text);
    FirstField(p.text, Mark(p) + rest);
    assert (Mark(p) + rest)[1..] == rest;
  }

  /**
    Main result: the first field that names a time decides. Other fields may precede it, blanks may
    surround it, `;` and `,` both separate, anything may follow, and a number of 2^32 or more is refused.
   */
  lemma {:induction false} BoundaryRoundTrip(before: seq<Part>, n: nat, value: nat, m: nat, after: string)
    requires forall i :: 0 <= i < |before| ==> Other(before[i].text)
    requires after == "" || after[0] == ';' || after[0] == ','
    ensures Boundary(Joined(before) + (TimeField(n, value, m) + after))
            == if value < 4294967296 then Some(value) else None
  {
    hide Boundary, TimeField, Other;
    var mine := TimeField(n, value, m) + after;
    if before == [] {
      TimeFieldIsRead(n, value, m);
      FirstField(TimeField(n, value, m), after);
      assert Joined(before) + mine == mine;
    } else {
      OtherIsSkipped(before[0], Joined(before[1..]) + mine);
      JoinedFirst(before, mine);
      BoundaryRoundTrip(before[1..], n, value, m, after);
    }
  }

  /** Without such a field there is no boundary. */
  lemma {:induction false} NoBoundary(fields: seq<Part>, last: string)
    requires (forall i :: 0 <= i < |fields| ==> Other(fields[i].text)) && Other(last)
    ensures Boundary(Joined(fields) + last).None?
  {
    hide Boundary, Other;
    if fields == [] {
      OtherNamesNoTime(last);
      FirstField(last, "");
      assert last + "" == last && Joined(fields) + last == last;
    } else {
      OtherIsSkipped(fields[0], Joined(fields[1..]) + last);
      JoinedFirst(fields, last);
      NoBoundary(fields[1..], last);
    }
  }

  lemma JoinedFirst(fields: seq<Part>, rest: string)
    requires fields != []
    ensures Joined(fields) + rest == fields[0].text + (Mark(fields[0]) + (Joined(fields[1..]) + rest))
  {}

  function Joined(fields: seq<Part>): string {
    if fields == [] then "" else fields[0].text + (Mark(fields[0]) + Joined(fields[1..]))
  }

  lemma {:induction false} FieldEndAt(s: string, n: nat)
    requires n <= |s|
    requires forall i :: 0 <= i < n ==> !IsSeparator(s[i])
    requires n == |s| || IsSeparator(s[n])
    ensures FieldEnd(s) == n
  {
    if n > 0 {
      FieldEndAt(s[1..], n - 1);
    }
  }
}
