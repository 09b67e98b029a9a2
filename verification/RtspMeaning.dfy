/**
  What the small pieces of the request parser mean, in characters: blanks, letter case, words,
  numerals, and the length a request states for its body.
 */
module RtspMeaning {
  import opened Wrappers
  import opened Decimals
  import opened Texts
  import opened RtspText
  import RtspReader
  import opened RtspWire

  // ---------------------------------------------------------------------
  // Blanks and letters
  // ---------------------------------------------------------------------

  predicate Blanks(s: string) {
    forall i :: 0 <= i < |s| ==> s[i] == ' ' || s[i] == '\t'
  }

  predicate NoBlankAtEnds(v: string) {
    v == "" || (v[0] != ' ' && v[0] != '\t' && v[|v| - 1] != ' ' && v[|v| - 1] != '\t')
  }

  lemma {:induction false} FrontGoes(front: string, v: string)
    requires Blanks(front) && (v == "" || (v[0] != ' ' && v[0] != '\t'))
    ensures TrimFront(front + v) == v
  {
    if front == "" {
      assert front + v == v;
    } else {
      assert (front + v)[1..] == front[1..] + v;
      FrontGoes(front[1..], v);
    }
  }

  lemma {:induction false} BackGoes(v: string, back: string)
    requires Blanks(back) && (v == "" || (v[|v| - 1] != ' ' && v[|v| - 1] != '\t'))
    ensures TrimBack(v + back) == v
  {
    if back == "" {
      assert v + back == v;
    } else {
      var n := |back| - 1;
      assert (v + back)[..|v + back| - 1] == v + back[..n];
      BackGoes(v, back[..n]);
    }
  }

  lemma {:induction false} OnlyBlanks(s: string)
    requires Blanks(s)
    ensures TrimFront(s) == ""
  {
    if s != "" {
      OnlyBlanks(s[1..]);
    }
  }

  /** Trimming drops the blanks at both ends and nothing else. */
  lemma TrimIsExact(front: string, v: string, back: string)
    requires Blanks(front) && NoBlankAtEnds(v) && Blanks(back)
    ensures Trim(front + v + back) == v
  {
    hide TrimFront, TrimBack;
    if v == "" {
      assert Blanks(front + v + back);
      OnlyBlanks(front + v + back);
      BackGoes("", "");
      assert "" + "" == "";
    } else {
      assert front + v + back == front + (v + back);
      FrontGoes(front, v + back);
      BackGoes(v, back);
    }
  }

  /** Every text is blanks, what trimming leaves, and blanks. */
  lemma {:induction false} TrimParts(s: string) returns (i: nat, j: nat)
    ensures i <= j <= |s| && Trim(s) == s[i..j] && Blanks(s[..i]) && Blanks(s[j..]) && NoBlankAtEnds(s[i..j])
  {
    i := FrontBlanks(s);
    j := |s|;
    while j > i && (s[j - 1] == ' ' || s[j - 1] == '\t')
      invariant i <= j <= |s| && Blanks(s[j..])
    {
      j := j - 1;
      assert s[j..] == [s[j]] + s[j + 1..];
    }
    assert s == s[..i] + s[i..j] + s[j..];
    assert i < j ==> s[i..j][0] == s[i] && s[i..j][|s[i..j]| - 1] == s[j - 1];
    TrimIsExact(s[..i], s[i..j], s[j..]);
  }

  lemma {:induction false} FrontBlanks(s: string) returns (n: nat)
    ensures n <= |s| && Blanks(s[..n]) && (n < |s| ==> s[n] != ' ' && s[n] != '\t')
  {
    n := 0;
    if s != "" && (s[0] == ' ' || s[0] == '\t') {
      var m := FrontBlanks(s[1..]);
      n := m + 1;
      assert s[..n] == [s[0]] + s[1..][..m];
    }
  }

  lemma TrimAt(s: string, i: nat, j: nat)
    requires i <= j <= |s| && Blanks(s[..i]) && Blanks(s[j..]) && NoBlankAtEnds(s[i..j])
    ensures Trim(s) == s[i..j]
  {
    hide Trim, Blanks, NoBlankAtEnds;
    assert s == s[..i] + s[i..j] + s[j..];
    TrimIsExact(s[..i], s[i..j], s[j..]);
  }

  lemma NumeralEnds(n: nat)
    ensures NoBlankAtEnds(Decimal(n))
  {
    hide Decimal;
    var d := Decimal(n);
    assert IsDigit(d[0]) && IsDigit(d[|d| - 1]);
  }

  /** Capital letters, and only these, become small. */
  lemma LowerIsExact(s: string)
    ensures forall i :: 0 <= i < |s| ==>
              ToLower(s)[i] == if 'A' <= s[i] <= 'Z' then "abcdefghijklmnopqrstuvwxyz"[s[i] as int - 65] else s[i]
  {
    ToLowerAt(s);
    forall i | 0 <= i < |s|
      ensures Lower(s[i]) == if 'A' <= s[i] <= 'Z' then "abcdefghijklmnopqrstuvwxyz"[s[i] as int - 65] else s[i]
    {
      LetterIsExact(s[i]);
    }
  }

  lemma LetterIsExact(c: char)
    ensures Lower(c) == if 'A' <= c <= 'Z' then "abcdefghijklmnopqrstuvwxyz"[c as int - 65] else c
  {
    if 'A' <= c <= 'Z' {
      AlphabetAt(c as int - 65);
    }
  }

  lemma AlphabetAt(k: int)
    requires 0 <= k < 26
    ensures "abcdefghijklmnopqrstuvwxyz"[k] as int == 97 + k
  {}

  // ---------------------------------------------------------------------
  // Words and numerals
  // ---------------------------------------------------------------------

  /** Blank, tab, line feed, vertical tab, form feed, carriage return. */
  predicate White(c: char) {
    c as int == 32 || c as int == 9 || c as int == 10 || c as int == 11 || c as int == 12 || c as int == 13
  }

  predicate AllWhite(s: string) {
    forall i :: 0 <= i < |s| ==> White(s[i])
  }

  lemma SpaceIsWhite(c: char)
    ensures IsSpace(c) <==> White(c)
  {}

  lemma {:induction false} SpacesGo(space: string, t: string)
    requires AllWhite(space) && (t == "" || !White(t[0]))
    ensures SkipSpaces(space + t) == t
  {
    if space == "" {
      assert space + t == t;
      if t != "" {
        SpaceIsWhite(t[0]);
      }
    } else {
      SpaceIsWhite(space[0]);
      assert (space + t)[1..] == space[1..] + t;
      SpacesGo(space[1..], t);
    }
  }

  /** A word is what lies between white space. */
  lemma WordIsExact(space: string, w: string, t: string)
    requires AllWhite(space) && w != "" && (forall i :: 0 <= i < |w| ==> !White(w[i])) && (t == "" || White(t[0]))
    ensures Word(space + (w + t)) == Some((w, t))
    ensures Word(space).None?
  {
    forall c: char
      ensures IsSpace(c) <==> White(c)
    {
      SpaceIsWhite(c);
    }
    SpacesGo(space, w + t);
    SpacesGo(space, "");
    assert space + "" == space;
    WordIsRead(w, t);
    assert SkipSpaces(w + t) == w + t;
  }

  /** `std::stoul` on white space, a sign, digits, and whatever follows. */
  lemma NumeralIsExact(space: string, sign: string, n: nat, rest: string)
    requires AllWhite(space) && (sign == "" || sign == "+" || sign == "-")
    requires rest == "" || !('0' <= rest[0] <= '9')
    ensures Stoul(space + (sign + (Decimal(n) + rest)))
            == if n >= 4294967296 then None else if sign == "-" && n > 0 then Some(4294967296 - n) else Some(n)
  {
    hide Decimal, Digits, Value, SkipSpaces;
    var d := Decimal(n);
    var u := d + rest;
    var t := sign + u;
    assert IsDigit(d[0]) && u[0] == d[0];
    assert t[0] == if sign == "" then d[0] else sign[0];
    SpacesGo(space, t);
    assert sign != "" ==> t[1..] == u;
    assert sign == "" ==> t == u;
    DigitsEnd(d, rest);
    ValueOfDecimal(n);
    assert u[..|d|] == d;
  }

  lemma {:induction false} DigitsEnd(d: string, rest: string)
    requires forall i :: 0 <= i < |d| ==> IsDigit(d[i])
    requires rest == "" || !IsDigit(rest[0])
    ensures Digits(d + rest) == |d|
  {
    if d == "" {
      assert d + rest == rest;
    } else {
      assert (d + rest)[1..] == d[1..] + rest;
      DigitsEnd(d[1..], rest);
    }
  }

  /** Without a digit there is no number. */
  lemma NoNumeral(space: string, sign: string, rest: string)
    requires AllWhite(space) && (sign == "" || sign == "+" || sign == "-")
    requires rest == "" || (!White(rest[0]) && rest[0] != '+' && rest[0] != '-' && !('0' <= rest[0] <= '9'))
    ensures Stoul(space + (sign + rest)).None?
  {
    hide SkipSpaces;
    var t := sign + rest;
    SpacesGo(space, t);
    assert sign != "" ==> t[1..] == rest;
    assert sign == "" ==> t == rest;
  }

  // ---------------------------------------------------------------------
  // The stated length
  // ---------------------------------------------------------------------

  /** The letters of the name, each small or capital. */
  predicate SpellsLength(name: string) {
    |name| == 14
    && forall i :: 0 <= i < 14 ==> name[i] == "content-length"[i] || name[i] == "CONTENT-LENGTH"[i]
  }

  /** The field is called so, with or without blanks around the name. */
  predicate NamesLength(f: Field) {
    exists i, j :: 0 <= i <= j <= |f.name| && Blanks(f.name[..i]) && Blanks(f.name[j..]) && SpellsLength(f.name[i..j])
  }

  predicate HasValue(f: Field, v: string) {
    exists i, j :: 0 <= i <= j <= |f.value| && Blanks(f.value[..i]) && Blanks(f.value[j..]) && f.value[i..j] == v
  }

  /** The last field of that name holds `n` in decimal; without one the length is zero. */
  predicate StatesLength(fields: seq<Field>, n: nat)
    decreases |fields|
  {
    if fields == [] then n == 0
    else
      var last := |fields| - 1;
      if NamesLength(fields[last]) then HasValue(fields[last], Decimal(n)) else StatesLength(fields[..last], n)
  }

  lemma SpelledSmall(name: string)
    ensures SpellsLength(name) <==> ToLower(name) == "content-length"
  {
    hide ToLower;
    LowerIsExact(name);
    var small := "content-length";
    assert forall i :: 0 <= i < 14 ==> small[i] == '-' || 'a' <= small[i] <= 'z';
    SpelledLetters(name);
  }

  lemma SpelledLetters(name: string)
    requires |ToLower(name)| == |name|
    ensures SpellsLength(name) <==> ToLower(name) == "content-length"
  {
    hide ToLower;
    ToLowerAt(name);
    if |name| == 14 {
      forall i | 0 <= i < 14
        ensures Lower(name[i]) == "content-length"[i]
                <==> name[i] == "content-length"[i] || name[i] == "CONTENT-LENGTH"[i]
      {
        SpelledLetter(name[i], i);
      }
    }
  }

  lemma SpelledLetter(c: char, i: int)
    requires 0 <= i < 14
    ensures Lower(c) == "content-length"[i] <==> c == "content-length"[i] || c == "CONTENT-LENGTH"[i]
  {}

  lemma NameIsLength(f: Field)
    ensures NamesLength(f) <==> ToLower(Trim(f.name)) == "content-length"
  {
    hide ToLower, Trim, SpellsLength;
    var name := f.name;
    if NamesLength(f) {
      var i, j :| 0 <= i <= j <= |name| && Blanks(name[..i]) && Blanks(name[j..]) && SpellsLength(name[i..j]);
      SpelledEnds(name[i..j]);
      TrimAt(name, i, j);
      SpelledSmall(name[i..j]);
    } else {
      var i, j := TrimParts(name);
      SpelledSmall(name[i..j]);
    }
  }

  lemma SpelledEnds(name: string)
    requires SpellsLength(name)
    ensures NoBlankAtEnds(name)
  {}

  lemma ValueIsTrimmed(f: Field, n: nat)
    requires HasValue(f, Decimal(n))
    ensures Trim(f.value) == Decimal(n)
  {
    hide Trim, Decimal, Blanks, NoBlankAtEnds;
    var v := f.value;
    var i, j :| 0 <= i <= j <= |v| && Blanks(v[..i]) && Blanks(v[j..]) && v[i..j] == Decimal(n);
    NumeralEnds(n);
    TrimAt(v, i, j);
  }

  lemma {:induction false} LengthField(fields: seq<Field>, n: nat)
    requires StatesLength(fields, n)
    ensures var m := Meaning(fields, map[]);
            if "content-length" in m then m["content-length"] == Decimal(n) else n == 0
    decreases |fields|
  {
    hide ToLower, Trim, Decimal, NamesLength, HasValue;
    if fields != [] {
      var last := |fields| - 1;
      var f := fields[last];
      assert fields == fields[..last] + [f];
      MeaningOfLast(fields[..last], f, map[]);
      NameIsLength(f);
      if NamesLength(f) {
        ValueIsTrimmed(f, n);
      } else {
        LengthField(fields[..last], n);
      }
    }
  }

  /** Main result on lengths: the body's length is the one the last `Content-Length` states, in any letter case. */
  lemma LengthIsStated(fields: seq<Field>, n: nat)
    requires StatesLength(fields, n) && n < 4294967296
    ensures ContentLength(Meaning(fields, map[])) == n
  {
    hide Meaning, Stoul, Decimal, ToLower, Trim, StatesLength;
    LengthField(fields, n);
    SmallStaysSmall();
    NumeralIsRead(n);
  }

  /** No such field, or one that holds no number that fits, means no body. */
  lemma NoLengthIsZero(headers: map<string, string>)
    requires "content-length" in headers ==> Stoul(headers["content-length"]).None?
    ensures ContentLength(headers) == 0
  {
    hide Stoul;
    SmallStaysSmall();
  }

  lemma SmallStaysSmall()
    ensures ToLower("content-length") == "content-length" && LENGTH == "content-length"
  {
    SpelledSmall("content-length");
  }

  /** A header line without a colon is passed over. */
  lemma NoColonIsIgnored(headers: map<string, string>, line: string)
    requires forall i :: 0 <= i < |line| ==> line[i] != ':'
    ensures WithField(headers, line) == headers
  {
    FindSkips(line, "", ":");
    assert line + "" == line;
    NothingInNothing(":");
  }

  /** A request that states the length of its body comes back whole; what follows stays in the stream. */
  lemma StatedRequestIsRead(r: Sent, rest: string)
    requires IsWord(r.method_) && IsTarget(r.target) && IsWord(TargetText(r.target)) && IsWord(r.version)
    requires AreFields(r.fields) && StatesLength(r.fields, |r.body|) && |r.body| < 4294967296
    ensures RtspReader.FirstRequest(Text(r) + rest)
            == Some((Request(r.method_, UriOf(r.target), r.version, Meaning(r.fields, map[]), r.body), rest))
  {
    hide Meaning, ContentLength, Text, RtspReader.FirstRequest;
    LengthIsStated(r.fields, |r.body|);
    RequestRoundTrip(r, rest);
  }
}
