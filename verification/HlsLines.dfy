/**
  What becomes of a playlist, line by line, against a reading of its lines and attributes that
  shares nothing with the rewriting: tags survive, segment lines and URLs in tags become local.
 */
module HlsLines {
  import opened Wrappers
  import opened Texts
  import opened Decimals
  import opened HlsRewrite
  import opened HlsUndo

  // ---------------------------------------------------------------------
  // The lines of a text
  // ---------------------------------------------------------------------

  /** What stands between the line breaks. */
  function Lines(s: string): (ls: seq<string>)
    ensures ls != []
  {
    if s == "" then [""]
    else if s[0] == '\n' then [""] + Lines(s[1..])
    else
      var ls := Lines(s[1..]);
      [[s[0]] + ls[0]] + ls[1..]
  }

  lemma {:induction false} OneLine(line: string)
    requires NoBreak(line)
    ensures Lines(line) == [line]
  {
    if line != "" {
      NoBreakSplit(line, 1);
      OneLine(line[1..]);
      assert line == [line[0]] + line[1..];
    }
  }

  lemma {:induction false} LineThenMore(line: string, rest: string)
    requires NoBreak(line)
    ensures Lines(line + ("\n" + rest)) == [line] + Lines(rest)
  {
    var s := line + ("\n" + rest);
    if line == "" {
      assert s[0] == '\n' && s[1..] == rest;
    } else {
      NoBreakSplit(line, 1);
      LineThenMore(line[1..], rest);
      assert s[0] == line[0] && s[1..] == line[1..] + ("\n" + rest);
      assert line == [line[0]] + line[1..];
      assert ([line[1..]] + Lines(rest))[1..] == Lines(rest);
    }
  }

  // ---------------------------------------------------------------------
  // The attributes of a tag
  // ---------------------------------------------------------------------

  /** `URI="value"`, with the text in front of it. */
  datatype Attribute = Attribute(before: string, value: string)

  const OPENING := "URI=\""
  const CLOSING := "\""

  datatype Tag = Tag(attributes: seq<Attribute>, tail: string)

  datatype Search = Nothing | Found(attribute: Attribute, rest: string)

  /** The first whole attribute, and what follows its closing quote. */
  function FirstAttribute(t: string): (f: Search)
    ensures f.Found? ==> |f.rest| < |t|
  {
    match Find(t, OPENING)
    case None => Nothing
    case Some(i) =>
      match Find(t[i + 5..], CLOSING)
      case None => Nothing
      case Some(j) => Found(Attribute(t[..i], t[i + 5..i + 5 + j]), t[i + 5 + j + 1..])
  }

  function ReadTag(t: string): Tag
    decreases |t|
  {
    match FirstAttribute(t)
    case Nothing => Tag([], t)
    case Found(a, rest) =>
      var more := ReadTag(rest);
      Tag([a] + more.attributes, more.tail)
  }

  function TagText(tag: Tag): string
    decreases |tag.attributes|
  {
    if tag.attributes == [] then tag.tail
    else
      var a := tag.attributes[0];
      a.before + (OPENING + (a.value + (CLOSING + TagText(Tag(tag.attributes[1..], tag.tail)))))
  }

  lemma {:induction false} TagIsReadExactly(t: string)
    ensures TagText(ReadTag(t)) == t
    decreases |t|
  {
    hide Find, Starts;
    if Find(t, OPENING).Some? {
      var i := Find(t, OPENING).value;
      AttributeHere(t, i);
      if Find(t[i + 5..], CLOSING).Some? {
        var j := Find(t[i + 5..], CLOSING).value;
        QuoteHere(t, i, j);
        TagIsReadExactly(t[i + 5 + j + 1..]);
        FirstIs(t, i, j);
        ReadTagStep(t);
        AttributeText(ReadTag(t));
        AttributeParts(t, i, j);
      }
    }
  }

  lemma AttributeHere(t: string, i: nat)
    requires Find(t, OPENING) == Some(i)
    ensures i + 5 <= |t| && t[i..i + 5] == OPENING
  {
    hide Find;
    assert t[i..][..5] == t[i..i + 5];
  }

  lemma QuoteHere(t: string, i: nat, j: nat)
    requires i + 5 <= |t| && Find(t[i + 5..], CLOSING) == Some(j)
    ensures i + 5 + j < |t| && t[i + 5 + j] == '"'
  {
    hide Find;
    assert t[i + 5..][j..][..1] == CLOSING;
    assert t[i + 5..][j..][0] == t[i + 5 + j];
  }

  lemma AttributeParts(t: string, i: nat, j: nat)
    requires i + 5 + j < |t| && t[i..i + 5] == OPENING && t[i + 5 + j] == '"'
    ensures t == t[..i] + (OPENING + (t[i + 5..i + 5 + j] + (CLOSING + t[i + 5 + j + 1..])))
  {
    assert t[i + 5 + j..] == CLOSING + t[i + 5 + j + 1..];
    assert t[i + 5..] == t[i + 5..i + 5 + j] + t[i + 5 + j..];
    assert t[i..] == t[i..i + 5] + t[i + 5..];
    assert t == t[..i] + t[i..];
  }

  lemma FirstIs(t: string, i: nat, j: nat)
    requires Find(t, OPENING) == Some(i) && i + 5 + j < |t| && Find(t[i + 5..], CLOSING) == Some(j)
    ensures FirstAttribute(t) == Found(Attribute(t[..i], t[i + 5..i + 5 + j]), t[i + 5 + j + 1..])
  {
    hide Find, Starts, OPENING, CLOSING;
  }

  lemma ReadTagStep(t: string)
    requires FirstAttribute(t).Found?
    ensures var f := FirstAttribute(t);
            ReadTag(t) == Tag([f.attribute] + ReadTag(f.rest).attributes, ReadTag(f.rest).tail)
  {
    hide FirstAttribute;
  }

  lemma AttributeText(tag: Tag)
    requires tag.attributes != []
    ensures var a, more := tag.attributes[0], Tag(tag.attributes[1..], tag.tail);
            TagText(tag) == a.before + (OPENING + (a.value + (CLOSING + TagText(more))))
  {}

  /** A URL the player would fetch past the receiver. */
  predicate Remote(v: string) {
    || (|v| >= 7 && v[..7] == "http://")
    || (|v| >= 8 && v[..8] == "https://")
    || (|v| >= 8 && v[..8] == "mlhls://")
    || (|v| >= 1 && v[0] == '/')
  }

  lemma RemoteIsUrl(v: string)
    ensures IsUrl(v) <==> Remote(v)
  {
    if v != "" {
      assert v[..1] == "/" <==> v[0] == '/';
    }
  }

  /** The receiver's own address for segment `id`. */
  function Here(port: nat, id: nat): string {
    "http://localhost:" + Decimal(port) + ("/seg/" + Decimal(id))
  }

  /** Every remote value is replaced by the next local one; all else stays. */
  function Localised(tag: Tag, port: nat, id: nat): (Tag, seq<string>)
    decreases |tag.attributes|
  {
    if tag.attributes == [] then (tag, [])
    else
      var a, rest := tag.attributes[0], Tag(tag.attributes[1..], tag.tail);
      if Remote(a.value) then
        var (more, urls) := Localised(rest, port, id + 1);
        (Tag([a.(value := Here(port, id))] + more.attributes, more.tail), [a.value] + urls)
      else
        var (more, urls) := Localised(rest, port, id);
        (Tag([a] + more.attributes, more.tail), urls)
  }

  /** A search from the closing quote finds the same attribute, one place further. */
  lemma QuoteFinds(x: string)
    ensures Find(CLOSING + x, ATTRIBUTE) == match Find(x, ATTRIBUTE) case None => None case Some(i) => Some(1 + i)
  {
    hide Find;
    var t := CLOSING + x;
    assert t[1..] == x && t[0] == '"';
    NotAtFront(t, ATTRIBUTE);
    FindStep(t, ATTRIBUTE);
  }

  lemma QuotePrefix(x: string, i: nat)
    requires i + 5 <= |x|
    ensures (CLOSING + x)[1 + i + 5..] == x[i + 5..] && (CLOSING + x)[..1 + i + 5] == CLOSING + x[..i + 5]
  {}

  /** A quote in front changes nothing: no attribute begins with one. */
  lemma QuoteStays(x: string, port: nat, id: nat)
    ensures RewriteTag(CLOSING + x, port, id)
            == Piece(CLOSING + RewriteTag(x, port, id).text, RewriteTag(x, port, id).urls)
  {
    hide Find, Starts, IsUrl, Local, RewriteTag, ATTRIBUTE, QUOTE, CLOSING;
    QuoteFinds(x);
    SameMarks();
    var t := CLOSING + x;
    if FirstAttribute(x).Nothing? {
      QuoteFindsNothing(x);
      PlainTagStays(x, port, id);
      PlainTagStays(t, port, id);
    } else {
      var i := Find(x, ATTRIBUTE).value;
      AttributeHere(x, i);
      QuotePrefix(x, i);
      var v := x[i + 5..];
      var j := Find(v, QUOTE).value;
      QuoteHere(x, i, j);
      RewriteUnfold(x, i, j, port, id);
      RewriteUnfold(t, 1 + i, j, port, id);
      QuoteJoins(x[..i + 5], Local(port, id), RewriteTag(v[j..], port, id + 1).text);
      QuoteJoins(x[..i + 5], v[..j] + QUOTE, RewriteTag(v[j + 1..], port, id).text);
    }
  }

  lemma SameMarks()
    ensures OPENING == ATTRIBUTE && CLOSING == QUOTE && |CLOSING| == 1
  {}

  lemma QuoteFindsNothing(x: string)
    requires FirstAttribute(x).Nothing?
    ensures FirstAttribute(CLOSING + x).Nothing?
  {
    hide Find;
    QuoteFinds(x);
    if Find(x, ATTRIBUTE).Some? {
      QuotePrefix(x, Find(x, ATTRIBUTE).value);
    }
  }

  lemma QuoteJoins(a: string, b: string, c: string)
    ensures (CLOSING + a) + (b + c) == CLOSING + (a + (b + c))
  {}

  lemma RewriteUnfold(t: string, i: nat, j: nat, port: nat, id: nat)
    requires Find(t, ATTRIBUTE) == Some(i) && i + 5 + j < |t| && Find(t[i + 5..], QUOTE) == Some(j)
    ensures var v := t[i + 5..];
            var cut, skip := RewriteTag(v[j..], port, id + 1), RewriteTag(v[j + 1..], port, id);
            RewriteTag(t, port, id)
            == if IsUrl(v[..j]) then Piece(t[..i + 5] + (Local(port, id) + cut.text), [v[..j]] + cut.urls)
               else Piece(t[..i + 5] + ((v[..j] + QUOTE) + skip.text), skip.urls)
  {
    hide Find, Starts, IsUrl, Local, ATTRIBUTE, QUOTE;
  }

  /** One attribute of the rewriting. */
  lemma RewriteStep(t: string, i: nat, j: nat, port: nat, id: nat)
    requires Find(t, OPENING) == Some(i) && i + 5 + j < |t| && Find(t[i + 5..], CLOSING) == Some(j)
    requires t[i..i + 5] == OPENING && t[i + 5 + j] == '"'
    ensures var value, rest := t[i + 5..i + 5 + j], t[i + 5 + j + 1..];
            var more := RewriteTag(rest, port, if Remote(value) then id + 1 else id);
            RewriteTag(t, port, id)
            == Piece(t[..i] + (OPENING + ((if Remote(value) then Here(port, id) else value) + (CLOSING + more.text))),
                     (if Remote(value) then [value] else []) + more.urls)
  {
    hide Find, Starts, IsUrl, Remote, Local, Here, RewriteTag;
    var value, rest := t[i + 5..i + 5 + j], t[i + 5 + j + 1..];
    RewriteUnfold(t, i, j, port, id);
    RemoteIsUrl(value);
    TagSuffixes(t, i, j);
    HereIsLocal(port, id);
    if Remote(value) {
      QuoteStays(rest, port, id + 1);
      AttributeOpens(t, i, Here(port, id), CLOSING + RewriteTag(rest, port, id + 1).text);
    } else {
      var more := RewriteTag(rest, port, id);
      AttributeOpens(t, i, value, CLOSING + more.text);
      Regroup(value, more.text);
      assert [] + more.urls == more.urls;
    }
  }

  lemma Regroup(value: string, more: string)
    ensures (value + QUOTE) + more == value + (CLOSING + more)
  {}

  /** Main result on tags: exactly the remote values become local, in order, and nothing else changes. */
  lemma {:induction false} TagIsLocalised(t: string, port: nat, id: nat)
    ensures var (tag, urls) := Localised(ReadTag(t), port, id);
            RewriteTag(t, port, id) == Piece(TagText(tag), urls)
    decreases |t|
  {
    hide Find, Starts, Remote, Here, RewriteTag, ReadTag, TagText, Localised, OPENING, CLOSING;
    if FirstAttribute(t).Nothing? {
      PlainTagStays(t, port, id);
    } else {
      var i := Find(t, OPENING).value;
      AttributeHere(t, i);
      var j := Find(t[i + 5..], CLOSING).value;
      QuoteHere(t, i, j);
      FirstIs(t, i, j);
      var value, rest := t[i + 5..i + 5 + j], t[i + 5 + j + 1..];
      ReadTagStep(t);
      RewriteStep(t, i, j, port, id);
      LocalisedStep(ReadTag(t), port, id);
      SameRest(ReadTag(t), ReadTag(rest));
      var (tag, urls) := Localised(ReadTag(t), port, id);
      AttributeText(tag);
      TagIsLocalised(rest, port, if Remote(value) then id + 1 else id);
      SameRest(tag, Localised(ReadTag(rest), port, if Remote(value) then id + 1 else id).0);
    }
  }

  lemma SameRest(tag: Tag, rest: Tag)
    requires tag.attributes != [] && tag.attributes[1..] == rest.attributes && tag.tail == rest.tail
    ensures Tag(tag.attributes[1..], tag.tail) == rest
  {}

  lemma PlainTagStays(t: string, port: nat, id: nat)
    requires FirstAttribute(t).Nothing?
    ensures RewriteTag(t, port, id) == Piece(t, []) && Localised(ReadTag(t), port, id) == (Tag([], t), [])
    ensures TagText(Tag([], t)) == t
  {
    hide Find, Starts;
    assert OPENING == ATTRIBUTE && CLOSING == QUOTE;
  }

  lemma HereIsLocal(port: nat, id: nat)
    ensures Here(port, id) == Local(port, id)
  {}

  lemma TagSuffixes(t: string, i: nat, j: nat)
    requires i + 5 + j < |t| && t[i + 5 + j] == '"'
    ensures t[i + 5..][..j] == t[i + 5..i + 5 + j]
    ensures t[i + 5..][j..] == CLOSING + t[i + 5 + j + 1..]
    ensures t[i + 5..][j + 1..] == t[i + 5 + j + 1..]
  {}

  lemma AttributeOpens(t: string, i: nat, value: string, more: string)
    requires i + 5 <= |t| && t[i..i + 5] == OPENING
    ensures t[..i + 5] + (value + more) == t[..i] + (OPENING + (value + more))
  {
    assert t[..i + 5] == t[..i] + t[i..i + 5];
  }

  lemma LocalisedStep(tag: Tag, port: nat, id: nat)
    requires tag.attributes != []
    ensures var a, rest := tag.attributes[0], Tag(tag.attributes[1..], tag.tail);
            var (out, urls) := Localised(tag, port, id);
            var (more, more') := Localised(rest, port, if Remote(a.value) then id + 1 else id);
            && out.attributes != [] && out.tail == more.tail && out.attributes[1..] == more.attributes
            && out.attributes[0] == (if Remote(a.value) then a.(value := Here(port, id)) else a)
            && urls == (if Remote(a.value) then [a.value] else []) + more'
  {
    hide Remote, Here;
  }

  // ---------------------------------------------------------------------
  // Line by line
  // ---------------------------------------------------------------------

  /** What becomes of one line, and the URLs registered for it. */
  function Shown(line: string, port: nat, id: nat): Piece {
    if line == "" then Piece("", [])
    else if line[0] == '#' || line[0] == ' ' || line[0] == '\t' || line[0] == '\r' then
      var (tag, urls) := Localised(ReadTag(line), port, id);
      Piece(TagText(tag), urls)
    else Piece(Here(port, id), [if line[|line| - 1] == '\r' then line[..|line| - 1] else line])
  }

  lemma UriIsShown(line: string, port: nat, id: nat)
    requires IsUri(line)
    ensures RewriteLine(line, port, id) == Shown(line, port, id)
  {
    hide RewriteTag, Localised, ReadTag, TagText, Local, Here;
    HereIsLocal(port, id);
    var url := if line[|line| - 1] == '\r' then line[..|line| - 1] else line;
    assert StripCr(line) == url;
    assert Shown(line, port, id) == Piece(Here(port, id), [url]);
  }

  lemma TagIsShown(line: string, port: nat, id: nat)
    requires line != "" && !IsUri(line)
    ensures RewriteLine(line, port, id) == Shown(line, port, id)
  {
    hide RewriteTag, Localised, ReadTag, TagText, Local, Here;
    TagIsLocalised(line, port, id);
    var (tag, urls) := Localised(ReadTag(line), port, id);
    assert Shown(line, port, id) == Piece(TagText(tag), urls);
  }

  lemma LineIsShown(line: string, port: nat, id: nat)
    ensures RewriteLine(line, port, id) == Shown(line, port, id)
  {
    hide RewriteLine, Shown;
    if line == "" {
      EmptyLine(port, id);
    } else if IsUri(line) {
      UriIsShown(line, port, id);
    } else {
      TagIsShown(line, port, id);
    }
  }

  lemma EmptyLine(port: nat, id: nat)
    ensures RewriteLine("", port, id) == Shown("", port, id)
  {
    EmptyTag(port, id);
  }

  lemma EmptyTag(port: nat, id: nat)
    ensures RewriteTag("", port, id) == Piece("", [])
  {
    assert Find("", ATTRIBUTE).None?;
  }

  function ShownAll(lines: seq<string>, port: nat, id: nat): (seq<string>, seq<string>)
    decreases |lines|
  {
    if lines == [] then ([], [])
    else
      var p := Shown(lines[0], port, id);
      var (texts, urls) := ShownAll(lines[1..], port, id + |p.urls|);
      ([p.text] + texts, p.urls + urls)
  }

  lemma ShownOne(line: string, port: nat, id: nat)
    ensures ShownAll([line], port, id) == ([Shown(line, port, id).text], Shown(line, port, id).urls)
  {
    hide Shown;
    var p := Shown(line, port, id);
    assert [line][1..] == [];
    assert ShownAll([], port, id + |p.urls|) == ([], []);
    assert [p.text] + [] == [p.text] && p.urls + [] == p.urls;
  }

  lemma ShownCons(line: string, lines: seq<string>, port: nat, id: nat)
    ensures var p := Shown(line, port, id);
            var (texts, urls) := ShownAll(lines, port, id + |p.urls|);
            ShownAll([line] + lines, port, id) == ([p.text] + texts, p.urls + urls)
  {
    hide Shown;
    assert ([line] + lines)[1..] == lines;
  }

  /** Main result: the lines of the rewritten playlist are those of the playlist, each as shown. */
  lemma {:induction false} PlaylistByLines(s: string, port: nat, id: nat)
    ensures var r := Rewrite(s, port, id);
            (Lines(r.text), r.urls) == ShownAll(Lines(s), port, id)
    decreases |s|
  {
    hide RewriteLine, Shown, ShownAll, Lines, Find, NoBreak;
    FirstLine(s);
    if s == "" {
      NoBreakNothing();
      OneLine("");
      ShownOne("", port, id);
      EmptyShown(port, id);
    } else if Find(s, NL).None? {
      OneLine(s);
      ShownOne(s, port, id);
      LineIsShown(s, port, id);
      LineStaysLine(s, port, id);
      OneLine(RewriteLine(s, port, id).text);
    } else {
      var i := Find(s, NL).value;
      var line, rest := s[..i], s[i + 1..];
      var p := RewriteLine(line, port, id);
      BreakPosition(s);
      assert s == line + ("\n" + rest);
      LineThenMore(line, rest);
      LineIsShown(line, port, id);
      LineStaysLine(line, port, id);
      PlaylistByLines(rest, port, id + |p.urls|);
      LineThenMore(p.text, Rewrite(rest, port, id + |p.urls|).text);
      ShownCons(line, Lines(rest), port, id);
    }
  }

  lemma NoBreakNothing()
    ensures NoBreak("")
  {}

  lemma EmptyShown(port: nat, id: nat)
    ensures Shown("", port, id) == Piece("", [])
  {}

  /** What that means for tags: they stay tags, and are unchanged when they hold no `URI` attribute. */
  lemma TagsSurvive(line: string, port: nat, id: nat)
    ensures var text := RewriteLine(line, port, id).text;
            && ((text != "" && text[0] == '#') <==> (line != "" && line[0] == '#'))
            && (line != "" && line[0] == '#' && Find(line, OPENING).None? ==>
                  text == line && RewriteLine(line, port, id).urls == [])
  {
    hide RewriteTag, Local;
    if line != "" && line[0] != 'U' {
      TagKeepsFirst(line, port, id);
    }
    if line != "" && IsUri(line) {
      assert Local(port, id) != "" && Local(port, id)[0] == 'h' by { LocalBegins(port, id); }
    }
    if Find(line, OPENING).None? {
      PlainTag(line, port, id);
    }
  }

  lemma LocalBegins(port: nat, id: nat)
    ensures Local(port, id) != "" && Local(port, id)[0] == 'h'
  {}

  lemma PlainTag(line: string, port: nat, id: nat)
    requires Find(line, OPENING).None?
    ensures RewriteTag(line, port, id) == Piece(line, [])
  {
    hide Find;
  }
}
