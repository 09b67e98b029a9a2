/** Searching in strings. */
module Texts {
  import opened Wrappers

  predicate Starts(s: string, pat: string) {
    |pat| <= |s| && s[..|pat|] == pat
  }

  /** The first occurrence of a pattern. */
  function Find(s: string, pat: string): (r: Option<nat>)
    ensures r.Some? ==> r.value + |pat| <= |s| && Starts(s[r.value..], pat)
    decreases |s|
  {
    if Starts(s, pat) then Some(0)
    else if s == "" then None
    else match Find(s[1..], pat)
      case None => None
      case Some(i) =>
        assert s[1..][i..] == s[1 + i..];
        Some(1 + i)
  }

  lemma StartsAppend(s: string, t: string, pat: string)
    requires |pat| <= |s|
    ensures Starts(s + t, pat) <==> Starts(s, pat)
  {
    assert (s + t)[..|pat|] == s[..|pat|];
  }

  /** Appending does not move the first occurrence. */
  lemma {:induction false} FindAppend(s: string, t: string, pat: string)
    requires Find(s, pat).Some?
    ensures Find(s + t, pat) == Find(s, pat)
    decreases |s|
  {
    hide Starts;
    StartsAppend(s, t, pat);
    if !Starts(s, pat) {
      FindAppend(s[1..], t, pat);
      assert (s + t)[1..] == s[1..] + t;
    }
  }

  /** The text around the first occurrence. */
  lemma FindSplit(s: string, pat: string)
    requires Find(s, pat).Some?
    ensures var i := Find(s, pat).value;
            i + |pat| <= |s| && s == s[..i] + (pat + s[i + |pat|..])
  {
    hide Find;
    var i := Find(s, pat).value;
    assert s[i..] == s[i..][..|pat|] + s[i..][|pat|..];
    assert s[i..][|pat|..] == s[i + |pat|..];
    assert s == s[..i] + s[i..];
  }

  lemma FindStep(s: string, pat: string)
    requires s != "" && !Starts(s, pat)
    ensures Find(s, pat) == match Find(s[1..], pat) case None => None case Some(i) => Some(1 + i)
  {
    hide Starts;
  }

  /** A pattern completed by appended text ends inside it. */
  lemma FindEndsLater(s: string, t: string, pat: string)
    requires Find(s, pat).None? && Find(s + t, pat).Some?
    ensures Find(s + t, pat).value + |pat| > |s|
  {
    hide Find, Starts;
    var i := Find(s + t, pat).value;
    if i + |pat| <= |s| {
      StartsInside(s, t, pat, i);
      FindAt(s, pat, i);
    }
  }

  lemma StartsInside(s: string, t: string, pat: string, i: nat)
    requires i + |pat| <= |s| && Starts((s + t)[i..], pat)
    ensures Starts(s[i..], pat)
  {
    assert (s + t)[i..] == s[i..] + t;
    StartsAppend(s[i..], t, pat);
  }

  lemma {:induction false} FindAt(s: string, pat: string, i: nat)
    requires i <= |s| && Starts(s[i..], pat)
    ensures Find(s, pat).Some? && Find(s, pat).value <= i
    decreases |s|
  {
    if i == 0 {
      assert s[0..] == s;
    } else if !Starts(s, pat) {
      assert s[1..][i - 1..] == s[i..];
      FindAt(s[1..], pat, i - 1);
    }
  }

  lemma FindHere(pat: string, t: string)
    ensures Find(pat + t, pat) == Some(0)
  {
    assert (pat + t)[..|pat|] == pat;
  }

  lemma NotAtFront(s: string, pat: string)
    requires s != "" && pat != "" && s[0] != pat[0]
    ensures !Starts(s, pat)
  {
    if |pat| <= |s| {
      assert s[..|pat|][0] == s[0];
    }
  }

  /** A pattern is not found inside a prefix that lacks its first character. */
  lemma {:induction false} FindSkips(a: string, t: string, pat: string)
    requires pat != "" && forall i :: 0 <= i < |a| ==> a[i] != pat[0]
    ensures Find(a + t, pat) == match Find(t, pat) case None => None case Some(i) => Some(|a| + i)
    decreases |a|
  {
    hide Starts;
    if a == "" {
      assert a + t == t;
    } else {
      assert (a + t)[1..] == a[1..] + t;
      FindSkips(a[1..], t, pat);
      NotAtFront(a + t, pat);
    }
  }
}
