/** Rewriting the segment URLs of a playlist to local ones, and the map that undoes it. */
module HlsRewrite {
  import opened Wrappers
  import opened Texts
  import opened Decimals

  const NL := "\n"
  const ATTRIBUTE := "URI=\""
  const QUOTE := "\""

  // ---------------------------------------------------------------------
  // Local URLs
  // ---------------------------------------------------------------------

  function Path(id: nat): string {
    "/seg/" + Decimal(id)
  }

  function Origin(port: nat): string {
    "http://localhost:" + Decimal(port)
  }

  function Local(port: nat, id: nat): string {
    Origin(port) + Path(id)
  }

  lemma PathsDiffer(i: nat, j: nat)
    ensures Path(i) == Path(j) ==> i == j
  {
    if Path(i) == Path(j) {
      assert Path(i)[5..] == Decimal(i) && Path(j)[5..] == Decimal(j);
      DecimalIsInjective(i, j);
    }
  }

  /** No line break, no quote, and a character that starts a URI line. */
  lemma LocalIsPlain(port: nat, id: nat)
    ensures Local(port, id) != "" && Local(port, id)[0] == 'h'
    ensures forall i :: 0 <= i < |Local(port, id)| ==> Plain(Local(port, id)[i])
  {
    hide Decimal;
    var s, p, d := Local(port, id), Decimal(port), Decimal(id);
    forall i | 0 <= i < |s|
      ensures Plain(s[i])
    {
      if i < 17 {
        assert s[i] == "http://localhost:"[i];
      } else if i < 17 + |p| {
        assert s[i] == p[i - 17];
        assert p[i - 17] in p;
      } else if i < 22 + |p| {
        assert s[i] == "/seg/"[i - 17 - |p|];
      } else {
        assert s[i] == d[i - 22 - |p|];
        assert d[i - 22 - |p|] in d;
      }
    }
  }

  predicate Plain(c: char) {
    c != '\n' && c != '\r' && c != '"'
  }

  // ---------------------------------------------------------------------
  // Rewriting, on values
  // ---------------------------------------------------------------------

  /** Neither blank, nor a tag or comment, nor indented. */
  predicate IsUri(line: string) {
    line != "" && line[0] != '#' && line[0] != ' ' && line[0] != '\t' && line[0] != '\r'
  }

  predicate IsUrl(raw: string) {
    || Starts(raw, "http://") || Starts(raw, "https://") || Starts(raw, "mlhls://") || Starts(raw, "/")
  }

  function StripCr(line: string): string {
    if line != "" && line[|line| - 1] == '\r' then line[..|line| - 1] else line
  }

  /** Text written, and the URLs it stands for; the k-th got id `first + k`. */
  datatype Piece = Piece(text: string, urls: seq<string>)

  /** The attributes of a tag line, from left to right. */
  function RewriteTag(t: string, port: nat, first: nat): Piece
    decreases |t|
  {
    match Find(t, ATTRIBUTE)
    case None => Piece(t, [])
    case Some(i) =>
      match Find(t[i + 5..], QUOTE)
      case None => Piece(t, [])
      case Some(j) =>
        var raw := t[i + 5..][..j];
        if IsUrl(raw) then
          var more := RewriteTag(t[i + 5..][j..], port, first + 1);
          Piece(t[..i + 5] + (Local(port, first) + more.text), [raw] + more.urls)
        else
          var more := RewriteTag(t[i + 5..][j + 1..], port, first);
          Piece(t[..i + 5] + ((raw + QUOTE) + more.text), more.urls)
  }

  lemma TagUnfold(t: string, i: nat, j: nat, port: nat, first: nat)
    requires Find(t, ATTRIBUTE) == Some(i) && Find(t[i + 5..], QUOTE) == Some(j)
    ensures var v := t[i + 5..];
            RewriteTag(t, port, first) ==
            if IsUrl(v[..j]) then
              var more := RewriteTag(v[j..], port, first + 1);
              Piece(t[..i + 5] + (Local(port, first) + more.text), [v[..j]] + more.urls)
            else
              var more := RewriteTag(v[j + 1..], port, first);
              Piece(t[..i + 5] + ((v[..j] + QUOTE) + more.text), more.urls)
  {
    hide Find, IsUrl, Local;
  }

  lemma TagUnchanged(t: string, port: nat, first: nat)
    requires Find(t, ATTRIBUTE).None? || Find(t[Find(t, ATTRIBUTE).value + 5..], QUOTE).None?
    ensures RewriteTag(t, port, first) == Piece(t, [])
  {
    hide Find, IsUrl, Local;
  }

  function RewriteLine(line: string, port: nat, first: nat): Piece {
    if IsUri(line) then Piece(Local(port, first), [StripCr(line)]) else RewriteTag(line, port, first)
  }

  /** Line by line; a final line without a line break is a line too. */
  function Rewrite(s: string, port: nat, first: nat): Piece
    decreases |s|
  {
    if s == "" then Piece("", [])
    else
      match Find(s, NL)
      case None => RewriteLine(s, port, first)
      case Some(i) =>
        var line := RewriteLine(s[..i], port, first);
        var more := Rewrite(s[i + 1..], port, first + |line.urls|);
        Piece(line.text + (NL + more.text), line.urls + more.urls)
  }

  // ---------------------------------------------------------------------
  // The session
  // ---------------------------------------------------------------------

  /** Entries for ids `first`, `first + 1`, ... */
  function Entries(m: map<string, string>, urls: seq<string>, first: nat): map<string, string>
    decreases |urls|
  {
    if urls == [] then m else Entries(m[Path(first) := urls[0]], urls[1..], first + 1)
  }

  class HlsSession {
    var segUrlMap: map<string, string>
    var segUrlCounter: nat

    /** Only ids handed out so far are registered. */
    ghost predicate Valid()
      reads this
    {
      Issued(segUrlMap, segUrlCounter)
    }

    constructor ()
      ensures Valid() && segUrlMap == map[] && segUrlCounter == 0
    {
      segUrlMap, segUrlCounter := map[], 0;
    }

    method RegisterLocal(port: nat, url: string) returns (local: string)
      requires Valid()
      modifies this
      ensures Valid() && local == Local(port, old(segUrlCounter))
      ensures Path(old(segUrlCounter)) !in old(segUrlMap)
      ensures segUrlMap == old(segUrlMap)[Path(old(segUrlCounter)) := url]
      ensures segUrlCounter == old(segUrlCounter) + 1
    {
      IssuedNext(segUrlMap, segUrlCounter, url);
      var path := "/seg/" + Decimal(segUrlCounter);
      segUrlCounter := segUrlCounter + 1;
      segUrlMap := segUrlMap[path := url];
      local := "http://localhost:" + Decimal(port) + path;
    }

    /** One tag line; the string grows while its attributes are replaced in place. */
    method RewriteTagLine(port: nat, line: string) returns (tagged: string, count: nat)
      requires Valid()
      modifies this
      ensures Valid()
      ensures var r := RewriteTag(line, port, old(segUrlCounter));
              && tagged == r.text && count == |r.urls|
              && segUrlCounter == old(segUrlCounter) + |r.urls|
              && segUrlMap == Entries(old(segUrlMap), r.urls, old(segUrlCounter))
    {
      hide RewriteTag, Entries, Local, Issued, TagDone, Path, NextAttribute;
      tagged := line;
      count := 0;
      var p := 0;
      ghost var first := segUrlCounter;
      ghost var was := segUrlMap;
      ghost var goal := RewriteTag(line, port, first);
      TagStart(line, port, first, was);
      var over := false;
      while !over
        invariant 0 <= p <= |tagged| && Valid()
        invariant !over ==> TagDone(tagged[..p], tagged[p..], count, goal, port, first, was, segUrlMap, segUrlCounter)
        invariant over ==> TagOver(tagged, count, goal, first, was, segUrlMap, segUrlCounter)
        decreases !over, |tagged| - p
      {
        TagStep(tagged[..p], tagged[p..], count, goal, port, first, was, segUrlMap, segUrlCounter);
        CutAt(tagged, p);
        var k;
        over, tagged, p, k := ReplaceAttribute(port, tagged, p);
        count := count + k;
      }
    }

    /** One turn of the attribute loop: the next attribute from position `p` on. */
    method ReplaceAttribute(port: nat, line: string, start: nat)
      returns (over: bool, tagged: string, p: nat, count: nat)
      requires Valid() && start <= |line|
      modifies this
      ensures Valid() && p <= |tagged|
      ensures match NextAttribute(line[..start], line[start..], port, old(segUrlCounter))
              case Over =>
                && over && tagged == line && count == 0
                && segUrlMap == old(segUrlMap) && segUrlCounter == old(segUrlCounter)
              case Kept(done, ahead) =>
                && !over && tagged[..p] == done && tagged[p..] == ahead && count == 0 && |ahead| < |line| - start
                && segUrlMap == old(segUrlMap) && segUrlCounter == old(segUrlCounter)
              case Replaced(done, ahead, raw) =>
                && !over && tagged[..p] == done && tagged[p..] == ahead && count == 1 && |ahead| < |line| - start
                && segUrlMap == old(segUrlMap)[Path(old(segUrlCounter)) := raw]
                && segUrlCounter == old(segUrlCounter) + 1
    {
      hide Find, IsUrl, Local, Issued, Path, Starts, NextAttribute;
      ghost var done, ahead := line[..start], line[start..];
      tagged, p, count := line, start, 0;
      var at := Find(tagged[p..], ATTRIBUTE);
      if at.None? {
        NoAttribute(done, ahead, port, segUrlCounter);
        return true, tagged, p, 0;
      }
      var v0 := p + at.value + 5;
      DropTwice(tagged, p, at.value + 5);
      var close := Find(tagged[v0..], QUOTE);
      if close.None? {
        NoAttribute(done, ahead, port, segUrlCounter);
        return true, tagged, p, 0;
      }
      OneAttribute(done, ahead, at.value, close.value, port, segUrlCounter);
      var v1 := v0 + close.value;
      var raw := tagged[v0..v1];
      SplitAttribute(tagged, p, at.value, close.value);
      if IsUrl(raw) {
        var local := RegisterLocal(port, raw);
        CutBehind(tagged[..v0], local, tagged[v1..]);
        tagged := tagged[..v0] + local + tagged[v1..];
        return false, tagged, v0 + |local|, 1;
      }
      return false, tagged, v1 + 1, 0;
    }

    method RewriteSegmentsToLocal(port: nat, expanded: string) returns (out: string, count: nat)
      requires Valid()
      modifies this
      ensures Valid()
      ensures var r := Rewrite(expanded, port, old(segUrlCounter));
              && out == r.text && count == |r.urls|
              && segUrlCounter == old(segUrlCounter) + |r.urls|
              && segUrlMap == Entries(old(segUrlMap), r.urls, old(segUrlCounter))
    {
      hide Rewrite, RewriteTag, Entries, Find, IsUri, Local, Issued;
      out, count := "", 0;
      var pos := 0;
      ghost var first := segUrlCounter;
      ghost var was := segUrlMap;
      ghost var goal := Rewrite(expanded, port, first);
      LinesStart(expanded, port, first, was);
      while pos < |expanded|
        invariant 0 <= pos <= |expanded| && Valid()
        invariant LinesDone(expanded, pos, out, count, goal, port, first, was, segUrlMap, segUrlCounter)
        decreases |expanded| - pos
      {
        ghost var m, n := segUrlMap, segUrlCounter;
        LinesStep(expanded, pos, out, count, goal, port, first, was, m, n);
        var eol := Find(expanded[pos..], NL);
        var lineEnd := if eol.None? then |expanded| else pos + eol.value;
        var line := expanded[pos..lineEnd];
        assert eol.None? ==> line == expanded[pos..];
        pos := if eol.None? then |expanded| else lineEnd + 1;
        var written, k := RewriteOneLine(port, line);
        out := out + written;
        if eol.Some? {
          out := out + NL;
        }
        count := count + k;
      }
      LinesEnd(expanded, out, count, goal, port, first, was, segUrlMap, segUrlCounter);
    }

    method RewriteOneLine(port: nat, line: string) returns (written: string, count: nat)
      requires Valid()
      modifies this
      ensures Valid()
      ensures var r := RewriteLine(line, port, old(segUrlCounter));
              && written == r.text && count == |r.urls|
              && segUrlCounter == old(segUrlCounter) + |r.urls|
              && segUrlMap == Entries(old(segUrlMap), r.urls, old(segUrlCounter))
    {
      hide RewriteTag, Local, Issued, Entries;
      if !IsUri(line) {
        written, count := RewriteTagLine(port, line);
        return;
      }
      var urlLine := line;
      if urlLine != "" && urlLine[|urlLine| - 1] == '\r' {
        urlLine := urlLine[..|urlLine| - 1];
      }
      OneEntry(segUrlMap, urlLine, segUrlCounter);
      written := RegisterLocal(port, urlLine);
      count := 1;
    }
  }

  /** All keys are paths of ids below the counter. */
  ghost predicate Issued(m: map<string, string>, counter: nat) {
    forall k :: k in m ==> exists id: nat :: id < counter && k == Path(id)
  }

  lemma IssuedNext(m: map<string, string>, counter: nat, url: string)
    requires Issued(m, counter)
    ensures Path(counter) !in m && Issued(m[Path(counter) := url], counter + 1)
  {
    hide Path;
    var m' := m[Path(counter) := url];
    forall k | k in m'
      ensures exists id: nat :: id < counter + 1 && k == Path(id)
    {
      if k in m {
        var id: nat :| id < counter && k == Path(id);
        assert id < counter + 1;
      } else {
        assert counter < counter + 1 && k == Path(counter);
      }
    }
    if Path(counter) in m {
      var id: nat :| id < counter && Path(counter) == Path(id);
      PathsDiffer(counter, id);
    }
  }

  lemma OneEntry(m: map<string, string>, url: string, first: nat)
    ensures Entries(m, [url], first) == m[Path(first) := url]
    ensures Entries(m, [], first) == m
  {
    assert [url][1..] == [];
  }

  lemma {:induction false} EntriesConcat(m: map<string, string>, a: seq<string>, b: seq<string>, first: nat)
    ensures Entries(m, a + b, first) == Entries(Entries(m, a, first), b, first + |a|)
    decreases |a|
  {
    hide Path;
    if a == [] {
      assert a + b == b;
    } else {
      assert (a + b)[1..] == a[1..] + b;
      EntriesConcat(m[Path(first) := a[0]], a[1..], b, first + 1);
    }
  }

  // ---------------------------------------------------------------------
  // Loop invariants
  // ---------------------------------------------------------------------

  /** The part `done` is final, and the part `ahead` is still to be rewritten. */
  ghost predicate TagDone(done: string, ahead: string, count: nat, goal: Piece, port: nat, first: nat,
                          was: map<string, string>, now: map<string, string>, n: nat) {
    var more := RewriteTag(ahead, port, n);
    && n == first + count && count <= |goal.urls|
    && done + more.text == goal.text
    && goal.urls[count..] == more.urls
    && now == Entries(was, goal.urls[..count], first)
  }

  lemma TagStart(line: string, port: nat, first: nat, was: map<string, string>)
    ensures TagDone(line[..0], line[0..], 0, RewriteTag(line, port, first), port, first, was, was, first)
  {
    var goal := RewriteTag(line, port, first);
    assert line[0..] == line && line[..0] == "";
    assert goal.urls[..0] == [] && goal.urls[0..] == goal.urls;
    assert "" + goal.text == goal.text;
  }

  datatype Next = Over | Kept(done: string, ahead: string) | Replaced(done: string, ahead: string, raw: string)

  /** The next attribute behind `done`: none, one that stays, or one that becomes a local URL. */
  function NextAttribute(done: string, ahead: string, port: nat, n: nat): Next {
    match Find(ahead, ATTRIBUTE)
    case None => Over
    case Some(i) =>
      match Find(ahead[i + 5..], QUOTE)
      case None => Over
      case Some(j) =>
        var raw := ahead[i + 5..][..j];
        if IsUrl(raw) then Replaced(done + ahead[..i + 5] + Local(port, n), ahead[i + 5..][j..], raw)
        else Kept(done + ahead[..i + 5] + (raw + QUOTE), ahead[i + 5..][j + 1..])
  }

  lemma NoAttribute(done: string, ahead: string, port: nat, n: nat)
    requires Find(ahead, ATTRIBUTE).None? || Find(ahead[Find(ahead, ATTRIBUTE).value + 5..], QUOTE).None?
    ensures NextAttribute(done, ahead, port, n) == Over
  {
    hide Find, IsUrl, Local;
  }

  lemma OneAttribute(done: string, ahead: string, i: nat, j: nat, port: nat, n: nat)
    requires Find(ahead, ATTRIBUTE) == Some(i) && Find(ahead[i + 5..], QUOTE) == Some(j)
    ensures var raw := ahead[i + 5..][..j];
            NextAttribute(done, ahead, port, n) ==
            if IsUrl(raw) then Replaced(done + ahead[..i + 5] + Local(port, n), ahead[i + 5..][j..], raw)
            else Kept(done + ahead[..i + 5] + (raw + QUOTE), ahead[i + 5..][j + 1..])
  {
    hide Find, IsUrl, Local;
  }

  /** What one turn of the attribute loop achieves, in each of its outcomes. */
  lemma TagStep(done: string, ahead: string, count: nat, goal: Piece, port: nat, first: nat,
                was: map<string, string>, now: map<string, string>, n: nat)
    requires TagDone(done, ahead, count, goal, port, first, was, now, n)
    ensures match NextAttribute(done, ahead, port, n)
            case Over => TagOver(done + ahead, count, goal, first, was, now, n)
            case Kept(d, t) => TagDone(d, t, count, goal, port, first, was, now, n)
            case Replaced(d, t, raw) => TagDone(d, t, count + 1, goal, port, first, was, now[Path(n) := raw], n + 1)
  {
    hide Find, IsUrl, Local, Path, Entries;
    if Find(ahead, ATTRIBUTE).Some? {
      var i := Find(ahead, ATTRIBUTE).value;
      var v := ahead[i + 5..];
      if Find(v, QUOTE).Some? {
        var j := Find(v, QUOTE).value;
        var raw := v[..j];
        if IsUrl(raw) {
          var rest := RewriteTag(v[j..], port, n + 1);
          Regroup(done, ahead[..i + 5], Local(port, n), rest.text);
          UrlTaken(goal.urls, count, raw, rest.urls, was, now, first, n);
        } else {
          Regroup(done, ahead[..i + 5], raw + QUOTE, RewriteTag(v[j + 1..], port, n).text);
        }
      } else {
        TagFinished(done, ahead, count, goal, port, first, was, now, n);
      }
    } else {
      TagFinished(done, ahead, count, goal, port, first, was, now, n);
    }
  }

  lemma Regroup(a: string, b: string, c: string, d: string)
    ensures a + (b + (c + d)) == a + b + c + d
  {}

  lemma UrlTaken(urls: seq<string>, count: nat, raw: string, rest: seq<string>,
                 was: map<string, string>, now: map<string, string>, first: nat, n: nat)
    requires count <= |urls| && urls[count..] == [raw] + rest && n == first + count
    requires now == Entries(was, urls[..count], first)
    ensures count < |urls| && urls[count + 1..] == rest
    ensures now[Path(n) := raw] == Entries(was, urls[..count + 1], first)
  {
    hide Path, Entries;
    NextUrl(urls, count, raw, rest);
    EntriesConcat(was, urls[..count], [raw], first);
    OneEntry(now, raw, n);
  }

  ghost predicate TagOver(tagged: string, count: nat, goal: Piece, first: nat,
                          was: map<string, string>, now: map<string, string>, n: nat) {
    tagged == goal.text && count == |goal.urls| && n == first + count && now == Entries(was, goal.urls, first)
  }

  lemma TagFinished(done: string, ahead: string, count: nat, goal: Piece, port: nat, first: nat,
                    was: map<string, string>, now: map<string, string>, n: nat)
    requires TagDone(done, ahead, count, goal, port, first, was, now, n)
    requires RewriteTag(ahead, port, n) == Piece(ahead, [])
    ensures TagOver(done + ahead, count, goal, first, was, now, n)
  {
    hide RewriteTag, Entries;
    assert goal.urls[..count] == goal.urls;
  }

  lemma CutAt(s: string, p: nat)
    requires p <= |s|
    ensures s == s[..p] + s[p..]
  {}

  lemma DropTwice(s: string, p: nat, k: nat)
    requires p + k <= |s|
    ensures s[p..][k..] == s[p + k..]
  {}

  lemma CutBehind(a: string, b: string, c: string)
    ensures (a + b + c)[..|a| + |b|] == a + b && (a + b + c)[|a| + |b|..] == c
  {}

  /** The string around an attribute value at position `p + i + 5`, `j` characters long. */
  lemma SplitAttribute(tagged: string, p: nat, i: nat, j: nat)
    requires p + i + 5 + j + 1 <= |tagged| && Starts(tagged[p..][i + 5..][j..], QUOTE)
    ensures var v0, v1 := p + i + 5, p + i + 5 + j;
            var ahead := tagged[p..];
            && ahead[i + 5..][..j] == tagged[v0..v1] && ahead[i + 5..][j..] == tagged[v1..]
            && ahead[i + 5..][j + 1..] == tagged[v1 + 1..]
            && tagged[..p] + ahead[..i + 5] == tagged[..v0]
            && tagged[..v0] + (tagged[v0..v1] + QUOTE) == tagged[..v1 + 1]
  {
    var v1 := p + i + 5 + j;
    assert tagged[v1] == tagged[p..][i + 5..][j..][0] == QUOTE[0];
  }

  lemma NextUrl(urls: seq<string>, count: nat, raw: string, rest: seq<string>)
    requires count <= |urls| && urls[count..] == [raw] + rest
    ensures count < |urls| && urls[..count + 1] == urls[..count] + [raw] && urls[count + 1..] == rest
  {
    assert urls[count] == urls[count..][0] == raw;
    assert urls[count + 1..] == urls[count..][1..];
  }

  /** The lines before `pos` have been written. */
  ghost predicate LinesDone(s: string, pos: nat, out: string, count: nat, goal: Piece, port: nat, first: nat,
                            was: map<string, string>, now: map<string, string>, n: nat)
    requires pos <= |s|
  {
    var more := Rewrite(s[pos..], port, n);
    && n == first + count && count <= |goal.urls|
    && out + more.text == goal.text
    && goal.urls[count..] == more.urls
    && now == Entries(was, goal.urls[..count], first)
  }

  lemma LinesStart(s: string, port: nat, first: nat, was: map<string, string>)
    ensures LinesDone(s, 0, "", 0, Rewrite(s, port, first), port, first, was, was, first)
  {
    var goal := Rewrite(s, port, first);
    assert s[0..] == s;
    assert goal.urls[..0] == [] && goal.urls[0..] == goal.urls;
    assert "" + goal.text == goal.text;
  }

  lemma LinesEnd(s: string, out: string, count: nat, goal: Piece, port: nat, first: nat,
                 was: map<string, string>, now: map<string, string>, n: nat)
    requires LinesDone(s, |s|, out, count, goal, port, first, was, now, n)
    ensures out == goal.text && count == |goal.urls| && n == first + count && now == Entries(was, goal.urls, first)
  {
    hide Entries;
    assert s[|s|..] == "";
    assert out + "" == out;
    assert goal.urls[..count] == goal.urls;
  }

  /** One turn of the line loop. */
  lemma LinesStep(s: string, pos: nat, out: string, count: nat, goal: Piece, port: nat, first: nat,
                  was: map<string, string>, m: map<string, string>, n: nat)
    requires pos < |s| && LinesDone(s, pos, out, count, goal, port, first, was, m, n)
    ensures match Find(s[pos..], NL)
            case None =>
              var r := RewriteLine(s[pos..], port, n);
              LinesDone(s, |s|, out + r.text, count + |r.urls|, goal, port, first, was, Entries(m, r.urls, n),
                        n + |r.urls|)
            case Some(i) =>
              && pos + i + 1 <= |s|
              && var r := RewriteLine(s[pos..pos + i], port, n);
                 LinesDone(s, pos + i + 1, out + r.text + NL, count + |r.urls|, goal, port, first, was,
                           Entries(m, r.urls, n), n + |r.urls|)
  {
    hide Find, RewriteLine, Entries;
    var t := s[pos..];
    match Find(t, NL)
    case None =>
      var r := RewriteLine(t, port, n);
      assert s[|s|..] == "";
      assert out + r.text + "" == out + r.text;
      assert r.urls == r.urls + [];
      UrlsAdvance(goal.urls, count, r.urls, [], was, m, first, n);
    case Some(i) =>
      var r := RewriteLine(t[..i], port, n);
      assert t[..i] == s[pos..pos + i] && t[i + 1..] == s[pos + i + 1..];
      var more := Rewrite(t[i + 1..], port, n + |r.urls|);
      assert out + (r.text + (NL + more.text)) == out + r.text + NL + more.text;
      UrlsAdvance(goal.urls, count, r.urls, more.urls, was, m, first, n);
  }

  lemma UrlsAdvance(urls: seq<string>, count: nat, a: seq<string>, b: seq<string>,
                    was: map<string, string>, m: map<string, string>, first: nat, n: nat)
    requires count <= |urls| && urls[count..] == a + b && n == first + count
    requires m == Entries(was, urls[..count], first)
    ensures count + |a| <= |urls| && urls[count + |a|..] == b
    ensures Entries(m, a, n) == Entries(was, urls[..count + |a|], first)
  {
    hide Entries;
    assert urls[count + |a|..] == urls[count..][|a|..];
    assert urls[..count + |a|] == urls[..count] + urls[count..][..|a|];
    assert urls[count..][..|a|] == a;
    EntriesConcat(was, urls[..count], a, first);
  }
}
