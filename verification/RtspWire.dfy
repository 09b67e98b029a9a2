/** Messages as they are written, and their way through the reader. */
module RtspWire {
  import opened Wrappers
  import opened Decimals
  import opened Texts
  import opened RtspText
  import opened RtspReader

  // ---------------------------------------------------------------------
  // Writing
  // ---------------------------------------------------------------------

  datatype Field = Field(name: string, value: string)

  function Line(f: Field): string {
    f.name + (": " + f.value)
  }

  function FieldText(fields: seq<Field>): string {
    if fields == [] then "" else Line(fields[0]) + (CRLF + FieldText(fields[1..]))
  }

  /** First line, fields, empty line, body. */
  function Message(first: string, fields: seq<Field>, body: string): string {
    first + (CRLF + (FieldText(fields) + (CRLF + body)))
  }

  predicate OneLine(s: string) {
    forall i :: 0 <= i < |s| ==> s[i] != '\r'
  }

  predicate IsField(f: Field) {
    && f.name != "" && OneLine(f.name) && OneLine(f.value)
    && forall i :: 0 <= i < |f.name| ==> f.name[i] != ':'
  }

  predicate AreFields(fields: seq<Field>) {
    forall i :: 0 <= i < |fields| ==> IsField(fields[i])
  }

  /** What a list of fields means: names without case, blanks around names and values dropped, the last one wins. */
  function Meaning(fields: seq<Field>, headers: map<string, string>): map<string, string> {
    if fields == [] then headers
    else Meaning(fields[1..], headers[ToLower(Trim(fields[0].name)) := Trim(fields[0].value)])
  }

  // ---------------------------------------------------------------------
  // Finding the lines again
  // ---------------------------------------------------------------------

  /** A pattern that begins with CR is not found before the first CR. */
  lemma FindAfterLine(line: string, t: string, pat: string)
    requires OneLine(line) && pat != "" && pat[0] == '\r'
    ensures Find(line + t, pat) == match Find(t, pat) case None => None case Some(i) => Some(|line| + i)
  {
    FindSkips(line, t, pat);
  }

  lemma LineEnd(line: string, t: string)
    requires OneLine(line)
    ensures Find(line + (CRLF + t), CRLF) == Some(|line|)
    ensures (line + (CRLF + t))[..|line|] == line && (line + (CRLF + t))[|line| + 2..] == t
  {
    hide Find, OneLine;
    FindAfterLine(line, CRLF + t, CRLF);
    FindHere(CRLF, t);
  }

  /** A line break that is not followed by another one does not end the section. */
  lemma BlankLater(t: string)
    requires t != "" && t[0] != '\r'
    ensures Find(CRLF + t, BLANK) == match Find(t, BLANK) case None => None case Some(i) => Some(2 + i)
  {
    var s := CRLF + t;
    assert s[2] == t[0] && BLANK[2] == '\r';
    if |s| >= 4 {
      assert s[..4][2] == t[0];
    }
    assert s[1..][0] == '\n';
    NotAtFront(s[1..], BLANK);
    assert s[1..][1..] == t;
  }

  lemma BlankHere(body: string)
    ensures Find(CRLF + (CRLF + body), BLANK) == Some(0)
  {
    assert (CRLF + (CRLF + body))[..4] == BLANK;
  }

  lemma LineIsOne(f: Field)
    requires IsField(f)
    ensures OneLine(Line(f)) && Line(f) != "" && Line(f)[0] != '\r'
  {
    var s := Line(f);
    forall i | 0 <= i < |s|
      ensures s[i] != '\r'
    {
      if i < |f.name| {
        assert s[i] == f.name[i];
      } else if i >= |f.name| + 2 {
        assert s[i] == f.value[i - |f.name| - 2];
      } else {
        assert s[i] == (": " + f.value)[i - |f.name|];
      }
    }
  }

  lemma TailFields(fields: seq<Field>)
    requires AreFields(fields) && fields != []
    ensures IsField(fields[0]) && AreFields(fields[1..])
  {
    assert forall i :: 0 <= i < |fields| - 1 ==> fields[1..][i] == fields[i + 1];
  }

  /** The section ends right after the last field. */
  lemma {:induction false} SectionEnd(first: string, fields: seq<Field>, body: string)
    requires OneLine(first) && AreFields(fields)
    ensures Find(Message(first, fields, body), BLANK) == Some(|first| + |FieldText(fields)|)
    decreases |fields|
  {
    hide Find, OneLine, IsField, AreFields;
    var rest := FieldText(fields) + (CRLF + body);
    FindAfterBreak(first, rest);
    if fields == [] {
      assert rest == CRLF + body;
      BlankHere(body);
    } else {
      TailFields(fields);
      LineIsOne(fields[0]);
      var line := Line(fields[0]);
      SectionEnd(line, fields[1..], body);
      assert rest == Message(line, fields[1..], body);
      BlankLater(rest);
    }
  }

  lemma FindAfterBreak(first: string, rest: string)
    requires OneLine(first)
    ensures Find(first + (CRLF + rest), BLANK)
            == match Find(CRLF + rest, BLANK) case None => None case Some(i) => Some(|first| + i)
  {
    FindAfterLine(first, CRLF + rest, BLANK);
  }

  // ---------------------------------------------------------------------
  // Fields read back
  // ---------------------------------------------------------------------

  lemma ColonEndsName(name: string, t: string)
    requires forall i :: 0 <= i < |name| ==> name[i] != ':'
    ensures Find(name + (":" + t), ":") == Some(|name|)
  {
    FindSkips(name, ":" + t, ":");
    FindHere(":", t);
  }

  lemma TrimBlank(v: string)
    ensures Trim(" " + v) == Trim(v)
  {
    assert (" " + v)[1..] == v;
  }

  lemma FieldIsRead(f: Field, headers: map<string, string>)
    requires IsField(f)
    ensures WithField(headers, Line(f)) == headers[ToLower(Trim(f.name)) := Trim(f.value)]
  {
    hide Find, Trim, ToLower;
    var s := Line(f);
    assert s == f.name + (":" + (" " + f.value));
    ColonEndsName(f.name, " " + f.value);
    assert s[..|f.name|] == f.name && s[|f.name| + 1..] == " " + f.value;
    TrimBlank(f.value);
  }

  lemma {:induction false} FieldsAreRead(fields: seq<Field>, headers: map<string, string>)
    requires AreFields(fields)
    ensures Fields(FieldText(fields), headers) == Meaning(fields, headers)
    decreases |fields|
  {
    hide Find, WithField, OneLine, IsField, AreFields, Trim, ToLower, Line;
    if fields == [] {
      NoFields(headers);
    } else {
      TailFields(fields);
      LineIsOne(fields[0]);
      LineEnd(Line(fields[0]), FieldText(fields[1..]));
      FieldIsRead(fields[0], headers);
      FieldsAreRead(fields[1..], headers[ToLower(Trim(fields[0].name)) := Trim(fields[0].value)]);
    }
  }

  // ---------------------------------------------------------------------
  // Requests
  // ---------------------------------------------------------------------

  /** A request target: an absolute URI, the path of which is what counts, or anything else. */
  datatype Target = Absolute(scheme: string, authority: string, path: string) | Other(text: string)

  predicate IsTarget(t: Target) {
    match t
    case Absolute(scheme, authority, path) =>
      && (scheme == "rtsp://" || scheme == "http://")
      && (forall i :: 0 <= i < |authority| ==> authority[i] != '/')
      && (path == "" || path[0] == '/')
    case Other(text) => |text| < 7 || (text[..7] != "rtsp://" && text[..7] != "http://")
  }

  function TargetText(t: Target): string {
    match t case Absolute(scheme, authority, path) => scheme + (authority + path) case Other(text) => text
  }

  /** The path of an absolute URI, which is `/` when it has none. */
  function UriOf(t: Target): string {
    match t case Absolute(_, _, path) => if path == "" then "/" else path case Other(text) => text
  }

  lemma TargetIsRead(t: Target)
    requires IsTarget(t)
    ensures PathOf(TargetText(t)) == UriOf(t)
  {
    hide Find;
    match t
    case Absolute(scheme, authority, path) =>
      var uri := TargetText(t);
      assert uri[..7] == scheme && uri[7..] == authority + path;
      FindSkips(authority, path, "/");
      if path == "" {
        assert Find("", "/").None? by { NothingInNothing("/"); }
      } else {
        SlashInFront(path);
        assert uri[7 + |authority|..] == path;
      }
    case Other(text) =>
  }

  lemma NothingInNothing(pat: string)
    requires pat != ""
    ensures Find("", pat).None?
  {}

  lemma SlashInFront(path: string)
    requires path != "" && path[0] == '/'
    ensures Find(path, "/") == Some(0)
  {
    assert path[..1] == "/";
  }

  /** Every text is a target in one of the two ways. */
  lemma EveryTextIsATarget(text: string) returns (t: Target)
    ensures IsTarget(t) && TargetText(t) == text
  {
    if |text| < 7 || (text[..7] != "rtsp://" && text[..7] != "http://") {
      t := Other(text);
    } else {
      var n := UpToSlash(text[7..]);
      t := Absolute(text[..7], text[7..][..n], text[7..][n..]);
      assert text == text[..7] + (text[7..][..n] + text[7..][n..]);
    }
  }

  lemma {:induction false} UpToSlash(s: string) returns (n: nat)
    ensures n <= |s| && (forall i :: 0 <= i < n ==> s[i] != '/') && (n < |s| ==> s[n] == '/')
  {
    n := 0;
    if s != "" && s[0] != '/' {
      var m := UpToSlash(s[1..]);
      n := m + 1;
      assert forall i :: 1 <= i < n ==> s[i] == s[1..][i - 1];
    }
  }

  datatype Sent = Sent(method_: string, target: Target, version: string, fields: seq<Field>, body: string)

  predicate IsWord(s: string) {
    s != "" && forall i :: 0 <= i < |s| ==> !IsSpace(s[i])
  }

  /** Three words, fields, and a body whose length the fields state. */
  predicate IsRequest(r: Sent) {
    && IsWord(r.method_) && IsTarget(r.target) && IsWord(TargetText(r.target)) && IsWord(r.version)
    && AreFields(r.fields)
    && ContentLength(Meaning(r.fields, map[])) == |r.body|
  }

  function FirstLine(r: Sent): string {
    r.method_ + (" " + (TargetText(r.target) + (" " + r.version)))
  }

  function Text(r: Sent): string {
    Message(FirstLine(r), r.fields, r.body)
  }

  /** What the reader is to report. */
  function Received(r: Sent): Request {
    Request(r.method_, UriOf(r.target), r.version, Meaning(r.fields, map[]), r.body)
  }

  lemma {:induction false} WordEnd(w: string, t: string)
    requires forall i :: 0 <= i < |w| ==> !IsSpace(w[i])
    requires t == "" || IsSpace(t[0])
    ensures WordLength(w + t) == |w|
    decreases |w|
  {
    if w == "" {
      assert w + t == t;
    } else {
      assert (w + t)[1..] == w[1..] + t;
      WordEnd(w[1..], t);
    }
  }

  lemma WordIsRead(w: string, t: string)
    requires IsWord(w) && (t == "" || IsSpace(t[0]))
    ensures Word(w + t) == Some((w, t)) && Word(" " + (w + t)) == Some((w, t))
  {
    WordEnd(w, t);
    assert (w + t)[..|w|] == w && (w + t)[|w|..] == t;
    assert (" " + (w + t))[1..] == w + t;
    assert SkipSpaces(w + t) == w + t;
  }

  lemma FirstLineIsRead(r: Sent)
    requires IsWord(r.method_) && IsWord(TargetText(r.target)) && IsWord(r.version)
    ensures var target := TargetText(r.target);
            var a := " " + (target + (" " + r.version));
            var b := " " + r.version;
            && Word(FirstLine(r)) == Some((r.method_, a)) && Word(a) == Some((target, b))
            && Word(b) == Some((r.version, ""))
    ensures OneLine(FirstLine(r))
  {
    var target := TargetText(r.target);
    WordIsRead(r.method_, " " + (target + (" " + r.version)));
    WordIsRead(target, " " + r.version);
    WordIsRead(r.version, "");
    assert r.version + "" == r.version;
    WordIsOneLine(r.method_);
    WordIsOneLine(target);
    WordIsOneLine(r.version);
    JoinLines(target, r.version);
    JoinLines(r.method_, target + (" " + r.version));
  }

  lemma WordIsOneLine(w: string)
    requires IsWord(w)
    ensures OneLine(w)
  {}

  lemma JoinLines(a: string, b: string)
    requires OneLine(a) && OneLine(b)
    ensures OneLine(a + (" " + b))
  {
    var s := a + (" " + b);
    forall i | 0 <= i < |s|
      ensures s[i] != '\r'
    {
      if i < |a| {
        assert s[i] == a[i];
      } else if i == |a| {
        assert s[i] == ' ';
      } else {
        assert s[i] == b[i - |a| - 1];
      }
    }
  }

  /** The section of a message, cut where the empty line ends. */
  lemma SectionParts(first: string, fields: seq<Field>, body: string)
    ensures var i, s := |first| + |FieldText(fields)|, Message(first, fields, body);
            && i + 4 <= |s| && s[..i + 4] == first + (CRLF + (FieldText(fields) + CRLF)) && s[i + 4..] == body
  {
    var t := FieldText(fields);
    assert Message(first, fields, body) == (first + (CRLF + (t + CRLF))) + body;
    assert |first + (CRLF + (t + CRLF))| == |first| + |t| + 4;
  }

  lemma HeadIsRead(r: Sent)
    requires IsRequest(r)
    ensures Head(FirstLine(r) + (CRLF + (FieldText(r.fields) + CRLF))) == Some(Received(r).(body := ""))
  {
    hide Find, Word, PathOf, Fields, Meaning, AreFields, IsWord, ContentLength, FieldText;
    hide IsTarget, TargetText, UriOf;
    TargetIsRead(r.target);
    var first, t := FirstLine(r), FieldText(r.fields);
    var section := first + (CRLF + (t + CRLF));
    FirstLineIsRead(r);
    LineEnd(first, t + CRLF);
    FieldsAreRead(r.fields, map[]);
    assert section[|first| + 2..|section| - 2] == t;
  }

  /** Main result: a request is read back, and what follows it stays in the stream. */
  lemma RequestRoundTrip(r: Sent, rest: string)
    requires IsRequest(r)
    ensures FirstRequest(Text(r) + rest) == Some((Received(r), rest))
  {
    hide Find, Head, FieldText, FirstLine, AreFields, IsWord, Meaning, Message, ContentLength, Starts;
    hide IsTarget, TargetText, UriOf;
    var first, i := FirstLine(r), |FirstLine(r)| + |FieldText(r.fields)|;
    var s := Text(r) + rest;
    MessageThen(first, r.fields, r.body, rest);
    FirstLineIsRead(r);
    SectionEnd(first, r.fields, r.body + rest);
    SectionParts(first, r.fields, r.body + rest);
    HeadIsRead(r);
    Middle(s, i + 4, r.body, rest);
  }

  lemma Middle(s: string, n: nat, body: string, rest: string)
    requires n <= |s| && s[n..] == body + rest
    ensures n + |body| <= |s| && s[n..n + |body|] == body && s[n + |body|..] == rest
  {
    assert s[n..n + |body|] == s[n..][..|body|];
    assert s[n + |body|..] == s[n..][|body|..];
  }

  lemma MessageThen(first: string, fields: seq<Field>, body: string, rest: string)
    ensures Message(first, fields, body) + rest == Message(first, fields, body + rest)
  {}

  function AllText(rs: seq<Sent>): string {
    if rs == [] then "" else Text(rs[0]) + AllText(rs[1..])
  }

  function AllReceived(rs: seq<Sent>): seq<Request> {
    if rs == [] then [] else [Received(rs[0])] + AllReceived(rs[1..])
  }

  /** The header sections of all requests are within the reader's bound. */
  predicate AllFit(rs: seq<Sent>) {
    forall i :: 0 <= i < |rs| ==>
      IsRequest(rs[i]) && |FirstLine(rs[i])| + |FieldText(rs[i].fields)| + 4 <= SAFE_HEADER
  }

  lemma TextIsLong(r: Sent)
    ensures |Text(r)| >= 4
  {}

  lemma FirstFits(r: Sent, rest: string)
    requires IsRequest(r) && |FirstLine(r)| + |FieldText(r.fields)| + 4 <= SAFE_HEADER
    ensures FirstHeaderFits(Text(r) + rest)
  {
    hide Find, FieldText, FirstLine, AreFields, IsWord, TargetText, IsTarget;
    MessageThen(FirstLine(r), r.fields, r.body, rest);
    FirstLineIsRead(r);
    SectionEnd(FirstLine(r), r.fields, r.body + rest);
  }

  lemma {:induction false} AllRequestsAreRead(rs: seq<Sent>)
    requires AllFit(rs)
    ensures Requests(AllText(rs)) == AllReceived(rs) && HeadersFit(AllText(rs))
    decreases |rs|
  {
    hide FirstRequest, FirstHeaderFits, IsRequest, Received, Text, FirstLine, FieldText;
    if rs == [] {
      NoRequest();
    } else {
      assert AllFit(rs[1..]) by {
        assert forall i :: 0 <= i < |rs| - 1 ==> rs[1..][i] == rs[i + 1];
      }
      AllRequestsAreRead(rs[1..]);
      RequestRoundTrip(rs[0], AllText(rs[1..]));
      FirstFits(rs[0], AllText(rs[1..]));
      TextIsLong(rs[0]);
    }
  }

  lemma NoRequest()
    ensures FirstRequest("").None?
  {}

  /**
    Main result: pipelined requests, cut into pieces in any way, are read back one by
    one, each exactly as sent, none lost and none added.
   */
  lemma PipelineRoundTrip(rs: seq<Sent>, chunks: seq<string>)
    requires AllFit(rs) && Delivered(chunks) && Flatten(chunks) == AllText(rs)
    ensures ReadAll(Conn("", chunks)) == AllReceived(rs)
  {
    hide ReadAll, Requests, AllText, AllReceived;
    AllRequestsAreRead(rs);
    assert Stream(Conn("", chunks)) == AllText(rs);
    RequestsIgnoreChunks(Conn("", chunks));
  }

  // ---------------------------------------------------------------------
  // Responses
  // ---------------------------------------------------------------------

  datatype Response = Response(version: string, code: nat, status: string, headers: seq<Field>, body: string)

  const CONTENT_LENGTH := "Content-Length"

  /** `serialize`, the header table being enumerated in any order. */
  method Serialize(r: Response) returns (wire: string)
    ensures wire == Message(StatusLine(r), ResponseFields(r), r.body)
  {
    var head := r.version + (" " + (Decimal(r.code) + (" " + r.status))) + CRLF;
    var i := 0;
    ghost var start := head;
    assert r.headers[0..] == r.headers;
    while i < |r.headers|
      invariant 0 <= i <= |r.headers|
      invariant head + FieldText(r.headers[i..]) == start + FieldText(r.headers)
    {
      WriteStep(head, r.headers, i);
      head := head + r.headers[i].name + ": " + r.headers[i].value + CRLF;
      i := i + 1;
    }
    assert r.headers[i..] == [];
    assert head + "" == head;
    ghost var fields := head;
    head := head + CONTENT_LENGTH + ": " + Decimal(|r.body|) + CRLF;
    head := head + CRLF;
    wire := head + r.body;
    WrittenMessage(r, fields, wire);
  }

  lemma WriteStep(head: string, fields: seq<Field>, i: nat)
    requires i < |fields|
    ensures head + FieldText(fields[i..])
            == head + fields[i].name + ": " + fields[i].value + CRLF + FieldText(fields[i + 1..])
  {
    assert fields[i..][1..] == fields[i + 1..];
  }

  lemma WrittenMessage(r: Response, fields: string, wire: string)
    requires fields == StatusLine(r) + CRLF + FieldText(r.headers)
    requires wire == fields + CONTENT_LENGTH + ": " + Decimal(|r.body|) + CRLF + CRLF + r.body
    ensures wire == Message(StatusLine(r), ResponseFields(r), r.body)
  {
    hide Decimal, FieldText, StatusLine;
    var own := Field(CONTENT_LENGTH, Decimal(|r.body|));
    FieldAppend(r.headers, own);
    Assemble(StatusLine(r), CRLF, FieldText(r.headers), CONTENT_LENGTH, ": ", Decimal(|r.body|), r.body);
  }

  lemma Assemble(st: string, crlf: string, t: string, c: string, sep: string, d: string, body: string)
    ensures st + crlf + t + c + sep + d + crlf + crlf + body
            == st + (crlf + ((t + ((c + (sep + d)) + crlf)) + (crlf + body)))
  {}

  lemma {:induction false} FieldAppend(fields: seq<Field>, f: Field)
    ensures FieldText(fields + [f]) == FieldText(fields) + (Line(f) + CRLF)
  {
    if fields == [] {
      assert fields + [f] == [f];
      assert FieldText([f][1..]) == "";
      assert CRLF + "" == CRLF;
    } else {
      assert (fields + [f])[1..] == fields[1..] + [f];
      FieldAppend(fields[1..], f);
    }
  }

  function StatusLine(r: Response): string {
    r.version + (" " + (Decimal(r.code) + (" " + r.status)))
  }

  function ResponseFields(r: Response): seq<Field> {
    r.headers + [Field(CONTENT_LENGTH, Decimal(|r.body|))]
  }

  lemma {:induction false} MeaningOfLast(fields: seq<Field>, f: Field, headers: map<string, string>)
    ensures Meaning(fields + [f], headers) == Meaning(fields, headers)[ToLower(Trim(f.name)) := Trim(f.value)]
    decreases |fields|
  {
    if fields == [] {
      assert fields + [f] == [f];
      assert [f][1..] == [];
    } else {
      assert (fields + [f])[1..] == fields[1..] + [f];
      MeaningOfLast(fields[1..], f, headers[ToLower(Trim(fields[0].name)) := Trim(fields[0].value)]);
    }
  }

  lemma {:induction false} AllDigits(s: string)
    requires forall i :: 0 <= i < |s| ==> IsDigit(s[i])
    ensures Digits(s) == |s|
  {
    if s != "" {
      AllDigits(s[1..]);
    }
  }

  lemma NumeralIsRead(n: nat)
    requires n < ULONG
    ensures Trim(Decimal(n)) == Decimal(n) && Stoul(Decimal(n)) == Some(n)
  {
    hide Decimal, Digits, Value, Trim;
    var s := Decimal(n);
    assert IsDigit(s[0]) && IsDigit(s[|s| - 1]);
    TrimNone(s);
    AllDigits(s);
    ValueOfDecimal(n);
    assert s[..|s|] == s;
  }

  lemma TrimNone(s: string)
    requires s != "" && !IsBlank(s[0]) && !IsBlank(s[|s| - 1])
    ensures Trim(s) == s
  {}

  lemma LengthName(s: string, t: string)
    requires s == CONTENT_LENGTH && t == LENGTH
    ensures ToLower(Trim(s)) == t && ToLower(t) == t
  {
    hide ToLower, Trim;
    TrimNone(s);
    ToLowerAt(s);
    ToLowerAt(t);
    assert forall i :: 0 <= i < |t| ==> Lower(s[i]) == t[i] == Lower(t[i]);
  }

  lemma {:induction false} ToLowerAt(s: string)
    ensures forall i :: 0 <= i < |s| ==> ToLower(s)[i] == Lower(s[i])
  {
    if s != "" {
      ToLowerAt(s[1..]);
    }
  }

  /**
    Main result on responses: the section ends exactly where the body begins, and the
    length it states is the body's, even if the caller set a length of its own.
   */
  lemma ResponseIsFramed(r: Response)
    requires OneLine(r.version) && OneLine(r.status) && AreFields(r.headers) && |r.body| < ULONG
    ensures var wire := Message(StatusLine(r), ResponseFields(r), r.body);
            && wire == r.version + " " + Decimal(r.code) + " " + r.status + "\r\n" + FieldText(r.headers)
                       + "Content-Length: " + Decimal(|r.body|) + "\r\n\r\n" + r.body
            && Find(wire, BLANK) == Some(|wire| - |r.body| - 4)
            && wire[|wire| - |r.body|..] == r.body
            && ContentLength(Fields(FieldText(ResponseFields(r)), map[])) == |r.body|
  {
    hide Find, FieldText, Fields, Meaning, Stoul, Trim, ToLower;
    var own := Field(CONTENT_LENGTH, Decimal(|r.body|));
    StatusIsOneLine(r);
    FieldsOfResponse(r);
    SectionEnd(StatusLine(r), ResponseFields(r), r.body);
    SectionParts(StatusLine(r), ResponseFields(r), r.body);
    FieldsAreRead(ResponseFields(r), map[]);
    MeaningOfLast(r.headers, own, map[]);
    NumeralIsRead(|r.body|);
    LengthName(CONTENT_LENGTH, LENGTH);
    WireText(r);
  }

  lemma WireText(r: Response)
    ensures Message(StatusLine(r), ResponseFields(r), r.body)
            == r.version + " " + Decimal(r.code) + " " + r.status + "\r\n" + FieldText(r.headers)
               + "Content-Length: " + Decimal(|r.body|) + "\r\n\r\n" + r.body
  {
    hide Decimal, FieldText;
    var t, d := FieldText(r.headers), Decimal(|r.body|);
    var head := StatusLine(r) + CRLF + t;
    WrittenMessage(r, head, head + CONTENT_LENGTH + ": " + d + CRLF + CRLF + r.body);
    SameWire(r.version, Decimal(r.code), r.status, t, d, r.body);
  }

  lemma SameWire(v: string, code: string, status: string, t: string, d: string, body: string)
    ensures v + (" " + (code + (" " + status))) + CRLF + t + CONTENT_LENGTH + ": " + d + CRLF + CRLF + body
            == v + " " + code + " " + status + "\r\n" + t + "Content-Length: " + d + "\r\n\r\n" + body
  {}

  lemma StatusIsOneLine(r: Response)
    requires OneLine(r.version) && OneLine(r.status)
    ensures OneLine(StatusLine(r))
  {
    assert OneLine(Decimal(r.code)) by {
      assert forall i :: 0 <= i < |Decimal(r.code)| ==> IsDigit(Decimal(r.code)[i]);
    }
    JoinLines(Decimal(r.code), r.status);
    JoinLines(r.version, Decimal(r.code) + (" " + r.status));
  }

  lemma FieldsOfResponse(r: Response)
    requires AreFields(r.headers)
    ensures AreFields(ResponseFields(r))
  {
    var own := Field(CONTENT_LENGTH, Decimal(|r.body|));
    assert forall i :: 0 <= i < |own.value| ==> IsDigit(own.value[i]);
    assert IsField(own);
  }
}
