/** The recorded map undoes the rewriting of a playlist. */
module HlsUndo {
  import opened Wrappers
  import opened Texts
  import opened HlsRewrite

  // ---------------------------------------------------------------------
  // Undoing
  // ---------------------------------------------------------------------

  /** The URL a local URL stands for. */
  function Restored(v: string, port: nat, m: map<string, string>): Option<string> {
    if Starts(v, Origin(port)) && v[|Origin(port)|..] in m then Some(m[v[|Origin(port)|..]]) else None
  }

  function UndoTag(t: string, port: nat, m: map<string, string>): string
    decreases |t|
  {
    match Find(t, ATTRIBUTE)
    case None => t
    case Some(i) =>
      match Find(t[i + 5..], QUOTE)
      case None => t
      case Some(j) =>
        var v := t[i + 5..][..j];
        match Restored(v, port, m)
        case Some(url) => t[..i + 5] + (url + UndoTag(t[i + 5..][j..], port, m))
        case None => t[..i + 5] + ((v + QUOTE) + UndoTag(t[i + 5..][j + 1..], port, m))
  }

  function UndoLine(line: string, port: nat, m: map<string, string>): string {
    if IsUri(line) then (match Restored(line, port, m) case Some(url) => url case None => line)
    else UndoTag(line, port, m)
  }

  function Undo(s: string, port: nat, m: map<string, string>): string
    decreases |s|
  {
    if s == "" then ""
    else
      match Find(s, NL)
      case None => UndoLine(s, port, m)
      case Some(i) => UndoLine(s[..i], port, m) + (NL + Undo(s[i + 1..], port, m))
  }

  function StripLine(line: string): string {
    if IsUri(line) then StripCr(line) else line
  }

  /** The playlist without the carriage returns that end its URI lines. */
  function Stripped(s: string): string
    decreases |s|
  {
    if s == "" then ""
    else
      match Find(s, NL)
      case None => StripLine(s)
      case Some(i) => StripLine(s[..i]) + (NL + Stripped(s[i + 1..]))
  }

  /** The map knows the k-th URL under id `first + k`. */
  ghost predicate Holds(m: map<string, string>, urls: seq<string>, first: nat) {
    forall id: nat :: first <= id < first + |urls| ==> Path(id) in m && m[Path(id)] == urls[id - first]
  }

  // ---------------------------------------------------------------------
  // One tag line
  // ---------------------------------------------------------------------

  lemma LocalIsRestored(port: nat, id: nat, m: map<string, string>)
    requires Path(id) in m
    ensures Restored(Local(port, id), port, m) == Some(m[Path(id)])
  {
    hide Path, Origin;
    assert Local(port, id)[..|Origin(port)|] == Origin(port);
    assert Local(port, id)[|Origin(port)|..] == Path(id);
  }

  lemma OriginIsUrl(raw: string, port: nat)
    ensures Starts(raw, Origin(port)) ==> Starts(raw, "http://")
  {
    if Starts(raw, Origin(port)) {
      assert raw[..7] == Origin(port)[..7];
      assert Origin(port)[..7] == "http://";
    }
  }

  /** What is not a URL does not look like a local one either. */
  lemma OtherIsKept(raw: string, port: nat, m: map<string, string>)
    requires !IsUrl(raw)
    ensures Restored(raw, port, m).None?
  {
    OriginIsUrl(raw, port);
  }

  /** The attributes start behind the first character unless it is a `U`. */
  lemma TagKeepsFirst(t: string, port: nat, first: nat)
    requires t != "" && t[0] != 'U'
    ensures RewriteTag(t, port, first).text != "" && RewriteTag(t, port, first).text[0] == t[0]
  {
    NotAtFront(t, ATTRIBUTE);
  }

  /** Text with the same front up to an occurrence has the same first occurrence. */
  lemma FindInFront(t: string, pat: string, rest: string)
    requires Find(t, pat).Some?
    ensures Find(t[..Find(t, pat).value + |pat|] + rest, pat) == Find(t, pat)
  {
    hide Starts;
    var i := Find(t, pat).value;
    var front := t[..i + |pat|];
    FindPrefix(t, pat, i + |pat|);
    FindAppend(front, rest, pat);
  }

  lemma {:induction false} FindPrefix(t: string, pat: string, n: nat)
    requires Find(t, pat).Some? && Find(t, pat).value + |pat| <= n <= |t|
    ensures Find(t[..n], pat) == Find(t, pat)
    decreases |t|
  {
    hide Starts;
    if |pat| <= n {
      StartsAppend(t[..n], t[n..], pat);
      assert t[..n] + t[n..] == t;
    }
    if !Starts(t, pat) {
      FindPrefix(t[1..], pat, n - 1);
      assert t[..n][1..] == t[1..][..n - 1];
    }
  }

  /** The value up to the quote, when it holds no quote itself. */
  lemma QuoteAfter(v: string, rest: string)
    requires (forall i :: 0 <= i < |v| ==> v[i] != '"') && rest != "" && rest[0] == '"'
    ensures Find(v + rest, QUOTE) == Some(|v|)
  {
    FindSkips(v, rest, QUOTE);
    assert rest == QUOTE + rest[1..];
    FindHere(QUOTE, rest[1..]);
  }

  lemma QuoteInFront(v: string)
    requires v != ""
    ensures Starts(v, QUOTE) <==> v[0] == '"'
  {
    assert v[..1] == [v[0]];
  }

  lemma {:induction false} NoQuoteBefore(v: string)
    requires Find(v, QUOTE).Some?
    ensures var j := Find(v, QUOTE).value;
            j < |v| && v[j] == '"' && forall i :: 0 <= i < j ==> v[i] != '"'
  {
    hide Starts;
    QuoteInFront(v);
    if !Starts(v, QUOTE) {
      NoQuoteBefore(v[1..]);
      assert forall i :: 1 <= i < |v| ==> v[i] == v[1..][i - 1];
    }
  }

  lemma UndoUnfold(t: string, i: nat, j: nat, port: nat, m: map<string, string>)
    requires Find(t, ATTRIBUTE) == Some(i) && Find(t[i + 5..], QUOTE) == Some(j)
    ensures var v := t[i + 5..][..j];
            UndoTag(t, port, m) ==
            match Restored(v, port, m)
            case Some(url) => t[..i + 5] + (url + UndoTag(t[i + 5..][j..], port, m))
            case None => t[..i + 5] + ((v + QUOTE) + UndoTag(t[i + 5..][j + 1..], port, m))
  {
    hide Find, Restored;
  }

  /** An attribute whose value has been replaced is found and restored. */
  lemma UndoReplaced(t: string, i: nat, local: string, more: string, url: string, port: nat, m: map<string, string>)
    requires Find(t, ATTRIBUTE) == Some(i)
    requires (forall k :: 0 <= k < |local| ==> local[k] != '"') && more != "" && more[0] == '"'
    requires Restored(local, port, m) == Some(url)
    ensures UndoTag(t[..i + 5] + (local + more), port, m) == t[..i + 5] + (url + UndoTag(more, port, m))
  {
    hide Find, Restored, UndoTag;
    var s := t[..i + 5] + (local + more);
    FindInFront(t, ATTRIBUTE, local + more);
    assert s[..i + 5] == t[..i + 5] && s[i + 5..] == local + more;
    QuoteAfter(local, more);
    UndoUnfold(s, i, |local|, port, m);
    assert (local + more)[..|local|] == local && (local + more)[|local|..] == more;
  }

  lemma UndoKept(t: string, i: nat, raw: string, more: string, port: nat, m: map<string, string>)
    requires Find(t, ATTRIBUTE) == Some(i)
    requires (forall k :: 0 <= k < |raw| ==> raw[k] != '"') && Restored(raw, port, m).None?
    ensures UndoTag(t[..i + 5] + ((raw + QUOTE) + more), port, m)
            == t[..i + 5] + ((raw + QUOTE) + UndoTag(more, port, m))
  {
    hide Find, Restored, UndoTag;
    var s, v := t[..i + 5] + ((raw + QUOTE) + more), raw + (QUOTE + more);
    assert s == t[..i + 5] + v;
    FindInFront(t, ATTRIBUTE, v);
    assert s[..i + 5] == t[..i + 5] && s[i + 5..] == v;
    QuoteAfter(raw, QUOTE + more);
    UndoUnfold(s, i, |raw|, port, m);
    assert v[..|raw|] == raw && v[|raw| + 1..] == more;
  }

  lemma HoldsTail(m: map<string, string>, a: seq<string>, b: seq<string>, first: nat)
    requires Holds(m, a + b, first)
    ensures Holds(m, a, first) && Holds(m, b, first + |a|)
  {
    hide Path;
    var urls := a + b;
    forall id: nat | first <= id < first + |a|
      ensures Path(id) in m && m[Path(id)] == a[id - first]
    {
      assert urls[id - first] == a[id - first];
    }
    forall id: nat | first + |a| <= id < first + |a| + |b|
      ensures Path(id) in m && m[Path(id)] == b[id - first - |a|]
    {
      assert urls[id - first] == b[id - first - |a|];
    }
  }

  lemma HoldsFirst(m: map<string, string>, url: string, first: nat)
    requires Holds(m, [url], first)
    ensures Path(first) in m && m[Path(first)] == url
  {}

  lemma {:induction false} UndoRewriteTag(t: string, port: nat, first: nat, m: map<string, string>)
    requires Holds(m, RewriteTag(t, port, first).urls, first)
    ensures UndoTag(RewriteTag(t, port, first).text, port, m) == t
    decreases |t|
  {
    hide Find, Restored, IsUrl, Local, Holds, Path, RewriteTag;
    if Find(t, ATTRIBUTE).Some? && Find(t[Find(t, ATTRIBUTE).value + 5..], QUOTE).Some? {
      hide UndoTag;
      var i := Find(t, ATTRIBUTE).value;
      var v := t[i + 5..];
      var j := Find(v, QUOTE).value;
      TagUnfold(t, i, j, port, first);
      NoQuoteBefore(v);
      JoinAttribute(t, i, j);
      if IsUrl(v[..j]) {
        var more := RewriteTag(v[j..], port, first + 1);
        HoldsTail(m, [v[..j]], more.urls, first);
        HoldsFirst(m, v[..j], first);
        UndoRewriteTag(v[j..], port, first + 1, m);
        TagKeepsFirst(v[j..], port, first + 1);
        LocalIsPlain(port, first);
        LocalIsRestored(port, first, m);
        UndoReplaced(t, i, Local(port, first), more.text, v[..j], port, m);
      } else {
        var more := RewriteTag(v[j + 1..], port, first);
        UndoRewriteTag(v[j + 1..], port, first, m);
        OtherIsKept(v[..j], port, m);
        UndoKept(t, i, v[..j], more.text, port, m);
      }
    } else {
      TagUnchanged(t, port, first);
    }
  }

  lemma JoinAttribute(t: string, i: nat, j: nat)
    requires i + 5 + j < |t| && t[i + 5..][j] == '"'
    ensures t[..i + 5] + (t[i + 5..][..j] + t[i + 5..][j..]) == t
    ensures t[..i + 5] + ((t[i + 5..][..j] + QUOTE) + t[i + 5..][j + 1..]) == t
  {
    var v := t[i + 5..];
    assert v == v[..j] + QUOTE + v[j + 1..];
    assert v == v[..j] + v[j..];
  }

  // ---------------------------------------------------------------------
  // Lines
  // ---------------------------------------------------------------------

  predicate NoBreak(s: string) {
    forall i :: 0 <= i < |s| ==> s[i] != '\n'
  }

  lemma NoBreakConcat(a: string, b: string)
    ensures NoBreak(a + b) <==> NoBreak(a) && NoBreak(b)
  {
    if NoBreak(a + b) {
      assert forall i :: 0 <= i < |a| ==> a[i] == (a + b)[i];
      assert forall i :: 0 <= i < |b| ==> b[i] == (a + b)[|a| + i];
    }
  }

  lemma NoBreakSplit(s: string, n: nat)
    requires n <= |s| && NoBreak(s)
    ensures NoBreak(s[..n]) && NoBreak(s[n..])
  {
    NoBreakConcat(s[..n], s[n..]);
    assert s[..n] + s[n..] == s;
  }

  lemma {:induction false} TagHasNoBreak(t: string, port: nat, first: nat)
    requires NoBreak(t)
    ensures NoBreak(RewriteTag(t, port, first).text)
    decreases |t|
  {
    hide Find, IsUrl, Local, NoBreak, RewriteTag;
    if Find(t, ATTRIBUTE).Some? && Find(t[Find(t, ATTRIBUTE).value + 5..], QUOTE).Some? {
      var i := Find(t, ATTRIBUTE).value;
      var v := t[i + 5..];
      var j := Find(v, QUOTE).value;
      TagUnfold(t, i, j, port, first);
      NoBreakSplit(t, i + 5);
      NoBreakSplit(v, j);
      if IsUrl(v[..j]) {
        var more := RewriteTag(v[j..], port, first + 1).text;
        TagHasNoBreak(v[j..], port, first + 1);
        LocalHasNoBreak(port, first);
        NoBreakConcat(Local(port, first), more);
        NoBreakConcat(t[..i + 5], Local(port, first) + more);
      } else {
        var more := RewriteTag(v[j + 1..], port, first).text;
        NoBreakSplit(v, j + 1);
        TagHasNoBreak(v[j + 1..], port, first);
        QuoteHasNoBreak();
        NoBreakConcat(v[..j], QUOTE);
        NoBreakConcat(v[..j] + QUOTE, more);
        NoBreakConcat(t[..i + 5], (v[..j] + QUOTE) + more);
      }
    } else {
      TagUnchanged(t, port, first);
    }
  }

  lemma LocalHasNoBreak(port: nat, id: nat)
    ensures NoBreak(Local(port, id))
  {
    hide Local;
    LocalIsPlain(port, id);
  }

  lemma QuoteHasNoBreak()
    ensures NoBreak(QUOTE)
  {}

  /** A rewritten line is a line again, of the same kind, and not blank unless the line was. */
  lemma LineStaysLine(line: string, port: nat, first: nat)
    requires NoBreak(line)
    ensures var text := RewriteLine(line, port, first).text;
            NoBreak(text) && (text == "" <==> line == "") && (IsUri(text) <==> IsUri(line))
  {
    hide Local;
    LocalIsPlain(port, first);
    if !IsUri(line) {
      TagHasNoBreak(line, port, first);
      if line != "" {
        TagKeepsFirst(line, port, first);
      }
    }
  }

  lemma UndoRewriteLine(line: string, port: nat, first: nat, m: map<string, string>)
    requires NoBreak(line) && Holds(m, RewriteLine(line, port, first).urls, first)
    ensures UndoLine(RewriteLine(line, port, first).text, port, m) == StripLine(line)
  {
    hide Local, Holds, RewriteTag, UndoTag, Restored;
    LineStaysLine(line, port, first);
    if IsUri(line) {
      HoldsFirst(m, StripCr(line), first);
      LocalIsRestored(port, first, m);
    } else {
      UndoRewriteTag(line, port, first, m);
    }
  }

  lemma BreakAfter(line: string, rest: string)
    requires NoBreak(line)
    ensures var s := line + (NL + rest);
            Find(s, NL) == Some(|line|) && s[..|line|] == line && s[|line| + 1..] == rest
  {
    FindSkips(line, NL + rest, NL);
    FindHere(NL, rest);
  }

  lemma {:induction false} FirstLine(s: string)
    ensures match Find(s, NL) case None => NoBreak(s) case Some(i) => NoBreak(s[..i]) && i < |s|
  {
    if s != "" {
      FirstLine(s[1..]);
      if s[0] == '\n' {
        assert s[..1] == NL;
      } else {
        NotAtFront(s, NL);
        match Find(s[1..], NL)
        case None =>
          assert forall i :: 1 <= i < |s| ==> s[i] == s[1..][i - 1];
        case Some(i) =>
          assert forall k :: 1 <= k < i + 1 ==> s[k] == s[1..][..i][k - 1];
      }
    }
  }

  lemma {:induction false} UndoRewrite(s: string, port: nat, first: nat, m: map<string, string>)
    requires Holds(m, Rewrite(s, port, first).urls, first)
    ensures Undo(Rewrite(s, port, first).text, port, m) == Stripped(s)
    decreases |s|
  {
    hide Find, RewriteLine, UndoLine, StripLine, NoBreak, Holds;
    if s != "" {
      FirstLine(s);
      match Find(s, NL)
      case None =>
        LineStaysLine(s, port, first);
        UndoRewriteLine(s, port, first, m);
        FirstLine(RewriteLine(s, port, first).text);
        LineAlone(RewriteLine(s, port, first).text, port, m);
      case Some(i) =>
        var line := RewriteLine(s[..i], port, first);
        var more := Rewrite(s[i + 1..], port, first + |line.urls|);
        HoldsTail(m, line.urls, more.urls, first);
        LineStaysLine(s[..i], port, first);
        UndoRewriteLine(s[..i], port, first, m);
        UndoRewrite(s[i + 1..], port, first + |line.urls|, m);
        BreakAfter(line.text, more.text);
    }
  }

  lemma LineAlone(line: string, port: nat, m: map<string, string>)
    requires NoBreak(line) && line != ""
    ensures Undo(line, port, m) == UndoLine(line, port, m)
  {
    FindNone(line);
  }

  lemma {:induction false} FindNone(s: string)
    requires NoBreak(s)
    ensures Find(s, NL).None?
  {
    if s != "" {
      NotAtFront(s, NL);
      assert forall i :: 0 <= i < |s| - 1 ==> s[1..][i] == s[i + 1];
      FindNone(s[1..]);
    }
  }

  // ---------------------------------------------------------------------
  // The recorded entries
  // ---------------------------------------------------------------------

  lemma {:induction false} EntriesKeep(m: map<string, string>, urls: seq<string>, first: nat, key: string)
    requires key in m && forall id: nat :: first <= id < first + |urls| ==> key != Path(id)
    ensures key in Entries(m, urls, first) && Entries(m, urls, first)[key] == m[key]
    decreases |urls|
  {
    hide Path;
    if urls != [] {
      EntriesKeep(m[Path(first) := urls[0]], urls[1..], first + 1, key);
    }
  }

  lemma {:induction false} EntriesHold(m: map<string, string>, urls: seq<string>, first: nat)
    ensures Holds(Entries(m, urls, first), urls, first)
    decreases |urls|
  {
    hide Path;
    if urls != [] {
      var m1 := m[Path(first) := urls[0]];
      EntriesHold(m1, urls[1..], first + 1);
      forall id: nat | first < id < first + |urls|
        ensures Path(first) != Path(id)
      {
        PathsDiffer(first, id);
      }
      EntriesKeep(m1, urls[1..], first + 1, Path(first));
      assert forall k :: 0 <= k < |urls| - 1 ==> urls[1..][k] == urls[k + 1];
    }
  }

  /** Fresh ids: nothing registered before is touched, and as many entries are added as URLs were rewritten. */
  lemma {:induction false} EntriesAreFresh(m: map<string, string>, urls: seq<string>, first: nat)
    requires Issued(m, first)
    ensures Issued(Entries(m, urls, first), first + |urls|)
    ensures |Entries(m, urls, first)| == |m| + |urls|
    ensures forall k :: k in m ==> k in Entries(m, urls, first) && Entries(m, urls, first)[k] == m[k]
    decreases |urls|
  {
    hide Path, Issued;
    if urls != [] {
      IssuedNext(m, first, urls[0]);
      EntriesAreFresh(m[Path(first) := urls[0]], urls[1..], first + 1);
    }
  }

  function Breaks(s: string): nat {
    if s == "" then 0 else (if s[0] == '\n' then 1 else 0) + Breaks(s[1..])
  }

  lemma {:induction false} BreaksConcat(a: string, b: string)
    ensures Breaks(a + b) == Breaks(a) + Breaks(b)
  {
    if a == "" {
      assert a + b == b;
    } else {
      assert (a + b)[1..] == a[1..] + b;
      BreaksConcat(a[1..], b);
    }
  }

  lemma {:induction false} NoBreaks(s: string)
    requires NoBreak(s)
    ensures Breaks(s) == 0
  {
    if s != "" {
      assert forall i :: 0 <= i < |s| - 1 ==> s[1..][i] == s[i + 1];
      NoBreaks(s[1..]);
    }
  }

  lemma BreaksOfLine(line: string, rest: string)
    requires NoBreak(line)
    ensures Breaks(line + (NL + rest)) == 1 + Breaks(rest)
  {
    BreaksConcat(line, NL + rest);
    NoBreaks(line);
    assert (NL + rest)[1..] == rest;
  }

  lemma {:induction false} BreaksKept(s: string, port: nat, first: nat)
    ensures Breaks(Rewrite(s, port, first).text) == Breaks(s)
    decreases |s|
  {
    hide Find, RewriteLine, NoBreak, Breaks;
    if s != "" {
      FirstLine(s);
      match Find(s, NL)
      case None =>
        LineStaysLine(s, port, first);
        NoBreaks(s);
        NoBreaks(RewriteLine(s, port, first).text);
      case Some(i) =>
        var line := RewriteLine(s[..i], port, first);
        LineStaysLine(s[..i], port, first);
        BreaksKept(s[i + 1..], port, first + |line.urls|);
        BreaksOfLine(line.text, Rewrite(s[i + 1..], port, first + |line.urls|).text);
        BreakPosition(s);
        BreaksOfLine(s[..i], s[i + 1..]);
    }
  }

  lemma BreakPosition(s: string)
    requires Find(s, NL).Some?
    ensures var i := Find(s, NL).value;
            i < |s| && s == s[..i] + (NL + s[i + 1..])
  {
    hide Find;
    FindSplit(s, NL);
  }

  /**
    Main result: the session's map undoes the rewriting of every playlist, up to the
    carriage returns that end URI lines. The ids are fresh, as many entries are added
    as URLs were rewritten, earlier entries stay, and every line break is kept.
   */
  lemma RewritingIsUndone(m: map<string, string>, counter: nat, s: string, port: nat)
    requires Issued(m, counter)
    ensures var r := Rewrite(s, port, counter);
            var m' := Entries(m, r.urls, counter);
            && Undo(r.text, port, m') == Stripped(s)
            && |m'| == |m| + |r.urls| && (forall k :: k in m ==> k in m' && m'[k] == m[k])
            && Breaks(r.text) == Breaks(s)
  {
    hide Rewrite, Undo, Entries, Issued, Holds;
    var r := Rewrite(s, port, counter);
    EntriesHold(m, r.urls, counter);
    EntriesAreFresh(m, r.urls, counter);
    UndoRewrite(s, port, counter, Entries(m, r.urls, counter));
    BreaksKept(s, port, counter);
  }

  /** Some URI line ends in a carriage return. */
  predicate HasCrLine(s: string)
    decreases |s|
  {
    s != "" &&
    match Find(s, NL)
    case None => StripLine(s) != s
    case Some(i) => StripLine(s[..i]) != s[..i] || HasCrLine(s[i + 1..])
  }

  lemma StripLineShorter(line: string)
    ensures |StripLine(line)| <= |line| && (|StripLine(line)| == |line| <==> StripLine(line) == line)
  {}

  lemma {:induction false} StrippedIsShorter(s: string)
    ensures |Stripped(s)| <= |s|
    ensures |Stripped(s)| == |s| <==> !HasCrLine(s)
    ensures !HasCrLine(s) ==> Stripped(s) == s
    decreases |s|
  {
    hide Find, StripLine;
    if s != "" {
      match Find(s, NL)
      case None => StripLineShorter(s);
      case Some(i) =>
        BreakPosition(s);
        StripLineShorter(s[..i]);
        StrippedIsShorter(s[i + 1..]);
    }
  }

  /** The playlist itself is restored if and only if no URI line ends in a carriage return. */
  lemma RestoredExactly(m: map<string, string>, counter: nat, s: string, port: nat)
    requires Issued(m, counter)
    ensures var r := Rewrite(s, port, counter);
            Undo(r.text, port, Entries(m, r.urls, counter)) == s <==> !HasCrLine(s)
  {
    hide Rewrite, Undo, Entries, Issued, Stripped, HasCrLine;
    RewritingIsUndone(m, counter, s, port);
    StrippedIsShorter(s);
  }

  // ---------------------------------------------------------------------
  // Nothing remote is left
  // ---------------------------------------------------------------------

  /** Every attribute value that is a URL is a registered local one. */
  ghost predicate TagIsLocal(t: string, port: nat, m: map<string, string>)
    decreases |t|
  {
    match Find(t, ATTRIBUTE)
    case None => true
    case Some(i) =>
      match Find(t[i + 5..], QUOTE)
      case None => true
      case Some(j) =>
        && (IsUrl(t[i + 5..][..j]) ==> Restored(t[i + 5..][..j], port, m).Some?)
        && TagIsLocal(t[i + 5..][j + 1..], port, m)
  }

  ghost predicate LineIsLocal(line: string, port: nat, m: map<string, string>) {
    if IsUri(line) then Restored(line, port, m).Some? else TagIsLocal(line, port, m)
  }

  ghost predicate AllLocal(s: string, port: nat, m: map<string, string>)
    decreases |s|
  {
    s != "" ==>
      match Find(s, NL)
      case None => LineIsLocal(s, port, m)
      case Some(i) => LineIsLocal(s[..i], port, m) && AllLocal(s[i + 1..], port, m)
  }

  /** Searching from the closing quote or from behind it makes no difference. */
  lemma QuoteIsSkipped(t: string, port: nat, m: map<string, string>)
    requires t != "" && t[0] == '"'
    ensures TagIsLocal(t, port, m) <==> TagIsLocal(t[1..], port, m)
  {
    hide Starts, Find, IsUrl, Restored;
    NotAtFront(t, ATTRIBUTE);
    FindStep(t, ATTRIBUTE);
    if Find(t[1..], ATTRIBUTE).Some? {
      var i := Find(t[1..], ATTRIBUTE).value;
      assert t[1..][i + 5..] == t[i + 1 + 5..];
    }
  }

  lemma LocalUnfold(t: string, i: nat, j: nat, port: nat, m: map<string, string>)
    requires Find(t, ATTRIBUTE) == Some(i) && Find(t[i + 5..], QUOTE) == Some(j)
    ensures TagIsLocal(t, port, m) <==>
              && (IsUrl(t[i + 5..][..j]) ==> Restored(t[i + 5..][..j], port, m).Some?)
              && TagIsLocal(t[i + 5..][j + 1..], port, m)
  {
    hide Find, IsUrl, Restored;
  }

  lemma LocalReplaced(t: string, i: nat, local: string, more: string, port: nat, m: map<string, string>)
    requires Find(t, ATTRIBUTE) == Some(i)
    requires (forall k :: 0 <= k < |local| ==> local[k] != '"') && more != "" && more[0] == '"'
    requires Restored(local, port, m).Some? && TagIsLocal(more, port, m)
    ensures TagIsLocal(t[..i + 5] + (local + more), port, m)
  {
    hide Find, Restored, IsUrl, TagIsLocal;
    var s := t[..i + 5] + (local + more);
    FindInFront(t, ATTRIBUTE, local + more);
    assert s[i + 5..] == local + more;
    QuoteAfter(local, more);
    QuoteIsSkipped(more, port, m);
    LocalUnfold(s, i, |local|, port, m);
    assert (local + more)[..|local|] == local && (local + more)[|local| + 1..] == more[1..];
  }

  lemma LocalKept(t: string, i: nat, raw: string, more: string, port: nat, m: map<string, string>)
    requires Find(t, ATTRIBUTE) == Some(i)
    requires (forall k :: 0 <= k < |raw| ==> raw[k] != '"') && !IsUrl(raw) && TagIsLocal(more, port, m)
    ensures TagIsLocal(t[..i + 5] + ((raw + QUOTE) + more), port, m)
  {
    hide Find, Restored, IsUrl, TagIsLocal;
    var s, v := t[..i + 5] + ((raw + QUOTE) + more), raw + (QUOTE + more);
    assert s == t[..i + 5] + v;
    FindInFront(t, ATTRIBUTE, v);
    assert s[i + 5..] == v;
    QuoteAfter(raw, QUOTE + more);
    LocalUnfold(s, i, |raw|, port, m);
    assert v[..|raw|] == raw && v[|raw| + 1..] == more;
  }

  lemma {:induction false} RewrittenTagIsLocal(t: string, port: nat, first: nat, m: map<string, string>)
    requires Holds(m, RewriteTag(t, port, first).urls, first)
    ensures TagIsLocal(RewriteTag(t, port, first).text, port, m)
    decreases |t|
  {
    hide Find, Restored, IsUrl, Local, Holds, Path, RewriteTag;
    if Find(t, ATTRIBUTE).Some? && Find(t[Find(t, ATTRIBUTE).value + 5..], QUOTE).Some? {
      hide TagIsLocal;
      var i := Find(t, ATTRIBUTE).value;
      var v := t[i + 5..];
      var j := Find(v, QUOTE).value;
      TagUnfold(t, i, j, port, first);
      NoQuoteBefore(v);
      if IsUrl(v[..j]) {
        var more := RewriteTag(v[j..], port, first + 1);
        HoldsTail(m, [v[..j]], more.urls, first);
        HoldsFirst(m, v[..j], first);
        RewrittenTagIsLocal(v[j..], port, first + 1, m);
        TagKeepsFirst(v[j..], port, first + 1);
        LocalIsPlain(port, first);
        LocalIsRestored(port, first, m);
        LocalReplaced(t, i, Local(port, first), more.text, port, m);
      } else {
        RewrittenTagIsLocal(v[j + 1..], port, first, m);
        LocalKept(t, i, v[..j], RewriteTag(v[j + 1..], port, first).text, port, m);
      }
    } else {
      TagUnchanged(t, port, first);
    }
  }

  lemma RewrittenLineIsLocal(line: string, port: nat, first: nat, m: map<string, string>)
    requires NoBreak(line) && Holds(m, RewriteLine(line, port, first).urls, first)
    ensures LineIsLocal(RewriteLine(line, port, first).text, port, m)
  {
    hide Local, Holds, RewriteTag, TagIsLocal, Restored;
    LineStaysLine(line, port, first);
    if IsUri(line) {
      HoldsFirst(m, StripCr(line), first);
      LocalIsRestored(port, first, m);
    } else {
      RewrittenTagIsLocal(line, port, first, m);
    }
  }

  /** Main result: every URI line, and every URL in a tag, of a rewritten playlist is a registered local URL. */
  lemma {:induction false} NothingRemoteIsLeft(s: string, port: nat, first: nat, m: map<string, string>)
    requires Holds(m, Rewrite(s, port, first).urls, first)
    ensures AllLocal(Rewrite(s, port, first).text, port, m)
    decreases |s|
  {
    hide Find, RewriteLine, LineIsLocal, NoBreak, Holds;
    if s != "" {
      FirstLine(s);
      match Find(s, NL)
      case None =>
        LineStaysLine(s, port, first);
        RewrittenLineIsLocal(s, port, first, m);
        FindNone(RewriteLine(s, port, first).text);
      case Some(i) =>
        var line := RewriteLine(s[..i], port, first);
        var more := Rewrite(s[i + 1..], port, first + |line.urls|);
        HoldsTail(m, line.urls, more.urls, first);
        LineStaysLine(s[..i], port, first);
        RewrittenLineIsLocal(s[..i], port, first, m);
        NothingRemoteIsLeft(s[i + 1..], port, first + |line.urls|, m);
        BreakAfter(line.text, more.text);
    }
  }

  // ---------------------------------------------------------------------
  // Resolving a local path
  // ---------------------------------------------------------------------

  class HlsSessionRegistry {
    var sessions: map<string, HlsSession>
    var activeSessionId: string

    constructor ()
      ensures sessions == map[] && activeSessionId == ""
    {
      sessions, activeSessionId := map[], "";
    }

    /** Session `id` knows the path. */
    ghost predicate Knows(id: string, path: string)
      reads this, sessions.Values
    {
      id in sessions && path in sessions[id].segUrlMap
    }

    /** The active session answers first; another one only when it does not know the path. */
    method ResolveSegmentPath(path: string) returns (url: string)
      ensures activeSessionId != "" && Knows(activeSessionId, path) ==> url == sessions[activeSessionId].segUrlMap[path]
      ensures !(activeSessionId != "" && Knows(activeSessionId, path)) ==>
                || (url == "" && forall id :: id != activeSessionId ==> !Knows(id, path))
                || exists id :: id != activeSessionId && Knows(id, path) && url == sessions[id].segUrlMap[path]
    {
      if activeSessionId != "" && activeSessionId in sessions {
        var active := sessions[activeSessionId];
        if path in active.segUrlMap {
          return active.segUrlMap[path];
        }
      }
      var rest := sessions.Keys;
      while rest != {}
        invariant rest <= sessions.Keys
        invariant forall id :: id in sessions.Keys - rest && id != activeSessionId ==> !Knows(id, path)
        decreases |rest|
      {
        SomeKey(rest);
        var id :| id in rest;
        rest := rest - {id};
        if id != activeSessionId {
          if path in sessions[id].segUrlMap {
            assert Knows(id, path);
            return sessions[id].segUrlMap[path];
          }
        }
      }
      return "";
    }
  }

  lemma SomeKey(s: set<string>)
    ensures s == {} || exists x :: x in s
  {
    if forall x :: x !in s {
      assert s == {};
    }
  }
}
