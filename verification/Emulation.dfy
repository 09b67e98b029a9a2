/** Emulation prevention (section 7.4.1 of ITU-T H.264): the standard's insertion and the receiver's removal. */
module Emulation {
  import opened Words

  /** The encoder: `zeros` zero bytes have just been written (0, 1 or 2). */
  function Insert(zeros: nat, s: seq<byte>): seq<byte>
    requires zeros <= 2
    decreases |s|
  {
    if s == [] then []
    else if zeros == 2 && s[0] <= 3 then [3, s[0]] + Insert(Flag0(s[0]), s[1..])
    else [s[0]] + Insert(if s[0] == 0 then zeros + 1 else 0, s[1..])
  }

  function Flag0(b: byte): nat {
    if b == 0 then 1 else 0
  }

  function Escape(s: seq<byte>): seq<byte> {
    Insert(0, s)
  }

  predicate Escaped3(s: seq<byte>, i: nat) {
    i + 2 < |s| && s[i] == 0 && s[i + 1] == 0 && s[i + 2] == 3
  }

  function Remove(s: seq<byte>): seq<byte>
    decreases |s|
  {
    if s == [] then []
    else if Escaped3(s, 0) then [0, 0] + Remove(s[3..])
    else [s[0]] + Remove(s[1..])
  }

  method EbspToRbsp(p: seq<byte>) returns (out: seq<byte>)
    ensures out == Remove(p)
  {
    out := [];
    var i := 0;
    assert p[0..] == p;
    while i < |p|
      invariant 0 <= i <= |p|
      invariant out + Remove(p[i..]) == Remove(p)
    {
      RemoveStep(p, i, out);
      if i + 2 < |p| && p[i] == 0 && p[i + 1] == 0 && p[i + 2] == 3 {
        out := out + [0];
        out := out + [0];
        i := i + 3;
      } else {
        out := out + [p[i]];
        i := i + 1;
      }
    }
    assert p[i..] == [];
    assert out + [] == out;
  }

  lemma RemoveStep(p: seq<byte>, i: nat, out: seq<byte>)
    requires i < |p|
    ensures out + Remove(p[i..]) ==
            if Escaped3(p, i) then out + [0] + [0] + Remove(p[i + 3..]) else out + [p[i]] + Remove(p[i + 1..])
  {
    assert Escaped3(p, i) == Escaped3(p[i..], 0);
    if Escaped3(p, i) {
      assert p[i..][3..] == p[i + 3..];
    } else {
      assert p[i..][1..] == p[i + 1..];
    }
  }

  // ---------------------------------------------------------------------
  // Removal undoes insertion
  // ---------------------------------------------------------------------

  /** The zero bytes that are open at the end of what has been written so far. */
  function Open(zeros: nat): seq<byte>
    requires zeros <= 2
  {
    if zeros == 0 then [] else if zeros == 1 then [0] else [0, 0]
  }

  lemma OpenAppend(zeros: nat, t: seq<byte>)
    requires zeros < 2
    ensures Open(zeros) + ([0] + t) == Open(zeros + 1) + t
  {}

  /** The first byte of a string that does not start an escape is kept. */
  lemma RemoveFirst(b: byte, s: seq<byte>)
    requires !Escaped3([b] + s, 0)
    ensures Remove([b] + s) == [b] + Remove(s)
  {
    assert ([b] + s)[1..] == s;
  }

  /** Fewer than three zeros followed by a byte that closes them are kept. */
  lemma RemoveOpenThen(zeros: nat, b: byte, more: seq<byte>)
    requires zeros <= 2 && b != 0 && (zeros == 2 ==> b != 3)
    ensures Remove(Open(zeros) + ([b] + more)) == Open(zeros) + ([b] + Remove(more))
  {
    RemoveFirst(b, more);
    if zeros == 0 {
      assert Open(zeros) + ([b] + more) == [b] + more;
    } else if zeros == 1 {
      RemoveFirst(0, [b] + more);
    } else {
      RemoveFirst(0, [b] + more);
      RemoveFirst(0, [0] + ([b] + more));
      assert Open(zeros) + ([b] + more) == [0] + ([0] + ([b] + more));
    }
  }

  lemma RemoveEscaped(more: seq<byte>)
    ensures Remove([0, 0, 3] + more) == [0, 0] + Remove(more)
  {
    var t := [0, 0, 3] + more;
    assert Escaped3(t, 0);
    assert t[3..] == more;
  }

  lemma InsertCons(zeros: nat, b: byte, rest: seq<byte>)
    requires zeros <= 2
    ensures Insert(zeros, [b] + rest) ==
            if zeros == 2 && b <= 3 then [3] + ([b] + Insert(Flag0(b), rest))
            else [b] + Insert(if b == 0 then zeros + 1 else 0, rest)
  {
    var s := [b] + rest;
    assert s[1..] == rest;
    if zeros == 2 && b <= 3 {
      assert [3, b] + Insert(Flag0(b), rest) == [3] + ([b] + Insert(Flag0(b), rest));
    }
  }

  /** Removal undoes insertion of the rest `s` of a string whose last `zeros` bytes, all zero, are still open. */
  predicate Undone(zeros: nat, s: seq<byte>)
    requires zeros <= 2
  {
    Remove(Open(zeros) + Insert(zeros, s)) == Open(zeros) + s
  }

  lemma UndoneAtEnd(zeros: nat)
    requires zeros <= 2
    ensures Undone(zeros, [])
  {
    RemoveFirst(0, []);
    RemoveFirst(0, [0]);
    assert [0] + [] == [0 as byte];
    assert [0] + [0] == [0 as byte, 0];
  }

  lemma UndoneAfterZero(zeros: nat, rest: seq<byte>)
    requires zeros < 2 && Undone(zeros + 1, rest)
    ensures Undone(zeros, [0] + rest)
  {
    InsertCons(zeros, 0, rest);
    OpenAppend(zeros, Insert(zeros + 1, rest));
    OpenAppend(zeros, rest);
  }

  lemma OpenNone(t: seq<byte>)
    ensures Open(0) + t == t
  {}

  lemma UndoneAfterByte(zeros: nat, b: byte, rest: seq<byte>)
    requires zeros <= 2 && b != 0 && (zeros == 2 ==> b > 3) && Undone(0, rest)
    ensures Undone(zeros, [b] + rest)
  {
    var more := Insert(0, rest);
    OpenNone(more);
    OpenNone(rest);
    InsertCons(zeros, b, rest);
    RemoveOpenThen(zeros, b, more);
  }

  /** After an inserted byte the count of zeros restarts with the escaped byte itself. */
  lemma UndoneAfterEscape(b: byte, rest: seq<byte>)
    requires b <= 3 && Undone(Flag0(b), rest)
    ensures Undone(2, [b] + rest)
  {
    var more := Insert(Flag0(b), rest);
    InsertCons(2, b, rest);
    assert Open(2) + ([3] + ([b] + more)) == [0, 0, 3] + ([b] + more);
    RemoveEscaped([b] + more);
    if b == 0 {
      assert Open(Flag0(b)) == [b];
    } else {
      OpenNone(more);
      OpenNone(rest);
      RemoveFirst(b, more);
    }
  }

  lemma {:induction false} RemoveInsert(zeros: nat, s: seq<byte>)
    requires zeros <= 2
    ensures Undone(zeros, s)
    decreases |s|
  {
    if s == [] {
      UndoneAtEnd(zeros);
    } else {
      assert s == [s[0]] + s[1..];
      if zeros == 2 && s[0] <= 3 {
        RemoveInsert(Flag0(s[0]), s[1..]);
        UndoneAfterEscape(s[0], s[1..]);
      } else if s[0] == 0 {
        RemoveInsert(zeros + 1, s[1..]);
        UndoneAfterZero(zeros, s[1..]);
      } else {
        RemoveInsert(0, s[1..]);
        UndoneAfterByte(zeros, s[0], s[1..]);
      }
    }
  }

  /** Main result: for every byte string, the receiver recovers what the encoder escaped. */
  lemma RoundTrip(s: seq<byte>)
    ensures Remove(Escape(s)) == s
  {
    RemoveInsert(0, s);
    OpenNone(Insert(0, s));
    OpenNone(s);
  }

  lemma {:induction false} RemoveShortens(s: seq<byte>)
    ensures |Remove(s)| <= |s|
    decreases |s|
  {
    if s != [] {
      if Escaped3(s, 0) {
        RemoveShortens(s[3..]);
      } else {
        RemoveShortens(s[1..]);
      }
    }
  }

  // ---------------------------------------------------------------------
  // What escaped data cannot contain
  // ---------------------------------------------------------------------

  predicate Forbidden(s: seq<byte>, i: nat)
    requires i + 2 < |s|
  {
    s[i] == 0 && s[i + 1] == 0 && s[i + 2] <= 2
  }

  /** No two zero bytes followed by 0, 1 or 2. */
  predicate StartCodeFree(s: seq<byte>) {
    forall i :: 0 <= i < |s| - 2 ==> !Forbidden(s, i)
  }

  /** One more byte at the front, other than the third byte of a forbidden pattern. */
  lemma FreeCons(b: byte, t: seq<byte>)
    requires StartCodeFree(t)
    requires |t| >= 2 ==> !(b == 0 && t[0] == 0 && t[1] <= 2)
    ensures StartCodeFree([b] + t)
  {
    var s := [b] + t;
    forall i | 0 <= i < |s| - 2
      ensures !Forbidden(s, i)
    {
      if i > 0 {
        assert s[i] == t[i - 1] && s[i + 1] == t[i] && s[i + 2] == t[i + 1];
        assert !Forbidden(t, i - 1);
      }
    }
  }

  /** Fewer than three zeros followed by a byte that closes them. */
  lemma FreeOpenThen(zeros: nat, b: byte, more: seq<byte>)
    requires zeros <= 2 && b != 0 && (zeros == 2 ==> b > 2) && StartCodeFree(more)
    ensures StartCodeFree(Open(zeros) + ([b] + more))
  {
    FreeCons(b, more);
    var t := [b] + more;
    if zeros == 0 {
      OpenNone(t);
    } else {
      FreeCons(0, t);
      if zeros == 2 {
        FreeCons(0, [0] + t);
        assert Open(zeros) + t == [0] + ([0] + t);
      }
    }
  }

  predicate InsertedIsFree(zeros: nat, s: seq<byte>)
    requires zeros <= 2
  {
    StartCodeFree(Open(zeros) + Insert(zeros, s))
  }

  lemma FreeAfterZero(zeros: nat, rest: seq<byte>)
    requires zeros < 2 && InsertedIsFree(zeros + 1, rest)
    ensures InsertedIsFree(zeros, [0] + rest)
  {
    InsertCons(zeros, 0, rest);
    OpenAppend(zeros, Insert(zeros + 1, rest));
  }

  lemma FreeAfterByte(zeros: nat, b: byte, rest: seq<byte>)
    requires zeros <= 2 && b != 0 && (zeros == 2 ==> b > 3) && InsertedIsFree(0, rest)
    ensures InsertedIsFree(zeros, [b] + rest)
  {
    OpenNone(Insert(0, rest));
    InsertCons(zeros, b, rest);
    FreeOpenThen(zeros, b, Insert(0, rest));
  }

  lemma FreeAfterEscape(b: byte, rest: seq<byte>)
    requires b <= 3 && InsertedIsFree(Flag0(b), rest)
    ensures InsertedIsFree(2, [b] + rest)
  {
    var more := Insert(Flag0(b), rest);
    InsertCons(2, b, rest);
    if b == 0 {
      assert Open(Flag0(b)) == [b];
    } else {
      OpenNone(more);
      FreeCons(b, more);
    }
    FreeOpenThen(2, 3, [b] + more);
  }

  lemma {:induction false} InsertIsStartCodeFree(zeros: nat, s: seq<byte>)
    requires zeros <= 2
    ensures InsertedIsFree(zeros, s)
    decreases |s|
  {
    if s != [] {
      assert s == [s[0]] + s[1..];
      if zeros == 2 && s[0] <= 3 {
        InsertIsStartCodeFree(Flag0(s[0]), s[1..]);
        FreeAfterEscape(s[0], s[1..]);
      } else if s[0] == 0 {
        InsertIsStartCodeFree(zeros + 1, s[1..]);
        FreeAfterZero(zeros, s[1..]);
      } else {
        InsertIsStartCodeFree(0, s[1..]);
        FreeAfterByte(zeros, s[0], s[1..]);
      }
    }
  }

  /** Escaped data contains no start code, wherever it is cut. */
  lemma EscapeIsStartCodeFree(s: seq<byte>)
    ensures StartCodeFree(Escape(s))
  {
    InsertIsStartCodeFree(0, s);
    OpenNone(Insert(0, s));
  }
}
