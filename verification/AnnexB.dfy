/** Reading a byte stream (annex B of ITU-T H.264) back into NAL units. */
module AnnexB {
  import opened Words
  import opened NalStreams
  import opened Emulation

  predicate StartsWith001(s: seq<byte>) {
    |s| >= 3 && s[0] == 0 && s[1] == 0 && s[2] == 1
  }

  /** The next three bytes are 00 00 00 or 00 00 01, which end a NAL unit. */
  predicate EndsUnit(s: seq<byte>) {
    |s| >= 3 && s[0] == 0 && s[1] == 0 && s[2] <= 1
  }

  /** The bytes before the first start code prefix; all of them if there is none. */
  function ToPrefix(s: seq<byte>): (n: nat)
    ensures n <= |s|
    ensures n < |s| ==> StartsWith001(s[n..])
  {
    if s == [] || StartsWith001(s) then 0
    else
      var n := ToPrefix(s[1..]);
      assert n < |s[1..]| ==> s[1..][n..] == s[1 + n..];
      1 + n
  }

  function UnitLength(s: seq<byte>): (n: nat)
    ensures n <= |s|
  {
    if s == [] || EndsUnit(s) then 0 else 1 + UnitLength(s[1..])
  }

  /** The NAL units of a byte stream: each starts after a prefix and ends before 00 00 00, 00 00 01 or the end. */
  function Split(s: seq<byte>): seq<seq<byte>>
    decreases |s|
  {
    var k := ToPrefix(s);
    if k == |s| then []
    else
      var t := s[k + 3..];
      [t[..UnitLength(t)]] + Split(t[UnitLength(t)..])
  }

  // ---------------------------------------------------------------------
  // Splitting what was assembled
  // ---------------------------------------------------------------------

  predicate EndsInZero(n: seq<byte>) {
    n != [] && n[|n| - 1] == 0
  }

  predicate AllFree(nals: seq<seq<byte>>) {
    forall i :: 0 <= i < |nals| ==> StartCodeFree(nals[i])
  }

  /** No unit but the last ends in a zero byte. */
  predicate Separable(nals: seq<seq<byte>>) {
    forall i :: 0 <= i < |nals| - 1 ==> !EndsInZero(nals[i])
  }

  /** The tail of a unit with what the stream holds after it: nothing, or a start code. */
  predicate Follows(rest: seq<byte>) {
    rest == [] || (|rest| >= 4 && rest[..4] == START_CODE)
  }

  lemma FreeTail(n: seq<byte>)
    requires StartCodeFree(n) && n != []
    ensures StartCodeFree(n[1..])
  {
    var t := n[1..];
    forall i | 0 <= i < |t| - 2
      ensures !Forbidden(t, i)
    {
      assert !Forbidden(n, i + 1);
      assert t[i] == n[i + 1] && t[i + 1] == n[i + 2] && t[i + 2] == n[i + 3];
    }
  }

  lemma FreeFront(n: seq<byte>)
    requires StartCodeFree(n)
    ensures !EndsUnit(n)
  {
    if |n| >= 3 {
      assert !Forbidden(n, 0);
    }
  }

  lemma NotEndOfUnit(n: seq<byte>, rest: seq<byte>)
    requires StartCodeFree(n) && n != [] && Follows(rest) && (rest != [] ==> !EndsInZero(n))
    ensures !EndsUnit(n + rest)
  {
    var s := n + rest;
    FreeFront(n);
    if |s| >= 3 {
      assert |n| >= 3 ==> s[0] == n[0] && s[1] == n[1] && s[2] == n[2];
      assert |n| == 2 ==> s[1] == n[1];
      assert s[0] == n[0];
    }
  }

  /** A unit that does not end in zero is read up to the next start code, a last unit up to the end. */
  lemma {:induction false} UnitIsRead(n: seq<byte>, rest: seq<byte>)
    requires StartCodeFree(n) && Follows(rest) && (rest != [] ==> !EndsInZero(n))
    ensures UnitLength(n + rest) == |n|
  {
    if n == [] {
      assert n + rest == rest;
      if rest != [] {
        assert rest[0] == rest[..4][0] && rest[1] == rest[..4][1] && rest[2] == rest[..4][2];
      }
    } else {
      assert (n + rest)[1..] == n[1..] + rest;
      FreeTail(n);
      NotEndOfUnit(n, rest);
      UnitIsRead(n[1..], rest);
    }
  }

  /** A unit that ends in zero is cut short when a start code follows. */
  lemma {:induction false} UnitIsCut(n: seq<byte>, rest: seq<byte>)
    requires EndsInZero(n) && rest != [] && Follows(rest)
    ensures UnitLength(n + rest) < |n|
  {
    var s := n + rest;
    assert s[|n|] == rest[..4][0] && s[|n| + 1] == rest[..4][1];
    assert s[0] == n[0];
    if |n| == 1 {
      assert EndsUnit(s);
    } else {
      assert s[1..] == n[1..] + rest;
      UnitIsCut(n[1..], rest);
    }
  }

  /** The stream in front of one unit: its four-byte start code. */
  lemma FindStart(t: seq<byte>)
    ensures var s := START_CODE + t;
            ToPrefix(s) == 1 && s[4..] == t
            && Split(s) == [t[..UnitLength(t)]] + Split(t[UnitLength(t)..])
  {
    var s := START_CODE + t;
    assert s[0] == 0 && s[1] == 0 && s[2] == 0 && s[3] == 1;
    assert !StartsWith001(s);
    assert StartsWith001(s[1..]);
    assert ToPrefix(s[1..]) == 0;
    assert s[1 + 3..] == t;
  }

  lemma PacketFollows(nals: seq<seq<byte>>)
    ensures Follows(Packet(nals))
    ensures nals != [] <==> Packet(nals) != []
  {
    if nals != [] {
      assert Packet(nals)[..4] == START_CODE;
    }
  }

  lemma SplitUnit(n: seq<byte>, rest: seq<byte>)
    requires StartCodeFree(n) && Follows(rest)
    ensures rest == [] || !EndsInZero(n) ==> Split(START_CODE + (n + rest)) == [n] + Split(rest)
    ensures rest != [] && EndsInZero(n) ==>
              Split(START_CODE + (n + rest)) != [] && Split(START_CODE + (n + rest))[0] != n
  {
    hide Split, UnitLength, StartCodeFree, EndsInZero, Follows;
    var t := n + rest;
    FindStart(t);
    if rest == [] || !EndsInZero(n) {
      UnitIsRead(n, rest);
      assert t[..|n|] == n && t[|n|..] == rest;
    } else {
      UnitIsCut(n, rest);
    }
  }

  lemma SeparableCons(nals: seq<seq<byte>>)
    requires nals != []
    ensures Separable(nals) <==> (|nals| > 1 ==> !EndsInZero(nals[0])) && Separable(nals[1..])
  {
    var rest := nals[1..];
    if Separable(nals) {
      forall i | 0 <= i < |rest| - 1
        ensures !EndsInZero(rest[i])
      {
        assert !EndsInZero(nals[i + 1]);
      }
    } else {
      var i :| 0 <= i < |nals| - 1 && EndsInZero(nals[i]);
      if i > 0 {
        assert EndsInZero(rest[i - 1]);
      }
    }
  }

  /**
    Main result: an assembled stream of units without start codes splits into
    exactly these units if and only if no unit but the last ends in a zero byte.
   */
  lemma {:induction false} SplitPacket(nals: seq<seq<byte>>)
    requires AllFree(nals)
    ensures Split(Packet(nals)) == nals <==> Separable(nals)
    decreases |nals|
  {
    hide Split, StartCodeFree, Separable, Follows;
    if nals == [] {
      SplitNothing();
    } else {
      var rest := nals[1..];
      assert forall i :: 0 <= i < |rest| ==> rest[i] == nals[i + 1];
      SplitPacket(rest);
      PacketFollows(rest);
      SplitUnit(nals[0], Packet(rest));
      SeparableCons(nals);
      assert nals == [nals[0]] + rest;
      assert ([nals[0]] + Split(Packet(rest)))[1..] == Split(Packet(rest));
    }
  }

  lemma SplitNothing()
    ensures Split(Packet([])) == [] && Separable([])
  {}

  // ---------------------------------------------------------------------
  // Where start codes are
  // ---------------------------------------------------------------------

  predicate PrefixAt(s: seq<byte>, i: nat) {
    i + 2 < |s| && s[i] == 0 && s[i + 1] == 0 && s[i + 2] == 1
  }

  /** Position `i` is the second byte of the four-byte start code of one of the units. */
  predicate IsUnitStart(nals: seq<seq<byte>>, i: int)
    decreases |nals|
  {
    nals != [] && (i == 1 || (i > 1 && IsUnitStart(nals[1..], i - 4 - |nals[0]|)))
  }

  lemma UnitStartIsPositive(nals: seq<seq<byte>>, i: int)
    ensures IsUnitStart(nals, i) ==> i >= 1
  {}

  /** Inside a unit, and across its end, there is no prefix. */
  lemma NoPrefixInside(n: seq<byte>, rest: seq<byte>, i: nat)
    requires StartCodeFree(n) && Follows(rest) && i < 3 + |n|
    ensures var s := [0, 0, 1] + (n + rest);
            PrefixAt(s, i) <==> i == 0
  {
    var s := [0, 0, 1] + (n + rest);
    assert s[0] == 0 && s[1] == 0 && s[2] == 1;
    if i >= 3 && i + 2 < |s| {
      var j := i - 3;
      assert s[i] == n[j];
      if j + 2 < |n| {
        assert !Forbidden(n, j);
        assert s[i + 1] == n[j + 1] && s[i + 2] == n[j + 2];
      } else if j + 2 == |n| {
        assert s[i + 2] == rest[0] == rest[..4][0];
      } else {
        assert s[i + 1] == rest[0] && s[i + 2] == rest[1] == rest[..4][1];
      }
    }
  }

  lemma PrefixShift(a: seq<byte>, s: seq<byte>, i: nat)
    ensures i >= |a| ==> (PrefixAt(a + s, i) <==> PrefixAt(s, i - |a|))
  {}

  /** Main result: the pattern 00 00 01 occurs in the stream only where a unit begins. */
  lemma {:induction false} PrefixOnlyAtUnits(nals: seq<seq<byte>>, i: nat)
    requires AllFree(nals)
    ensures PrefixAt(Packet(nals), i) <==> IsUnitStart(nals, i)
    decreases |nals|
  {
    if nals != [] {
      var n, rest := nals[0], Packet(nals[1..]);
      var s := [0, 0, 1] + (n + rest);
      assert Packet(nals) == [0] + s;
      PacketFollows(nals[1..]);
      if i == 0 {
        assert Packet(nals)[2] == 0;
      } else if i < 4 + |n| {
        NoPrefixInside(n, rest, i - 1);
        PrefixShift([0], s, i);
        UnitStartIsPositive(nals[1..], i - 4 - |n|);
      } else {
        assert Packet(nals) == (START_CODE + n) + rest;
        PrefixShift(START_CODE + n, rest, i);
        assert forall k :: 0 <= k < |nals| - 1 ==> nals[1..][k] == nals[k + 1];
        PrefixOnlyAtUnits(nals[1..], i - 4 - |n|);
      }
    }
  }

  // ---------------------------------------------------------------------
  // Units as an encoder makes them
  // ---------------------------------------------------------------------

  /** A header byte other than zero, then the escaped payload, which ends with its stop bit. */
  predicate Encoded(n: seq<byte>, header: byte, rbsp: seq<byte>) {
    header != 0 && rbsp != [] && rbsp[|rbsp| - 1] != 0 && n == [header] + Escape(rbsp)
  }

  lemma EncodedUnits(n: seq<byte>, header: byte, rbsp: seq<byte>)
    requires Encoded(n, header, rbsp)
    ensures StartCodeFree(n) && !EndsInZero(n)
  {
    EscapeIsStartCodeFree(rbsp);
    FreeCons(header, Escape(rbsp));
    InsertKeepsLast(0, rbsp);
  }

  lemma {:induction false} InsertKeepsLast(zeros: nat, s: seq<byte>)
    requires zeros <= 2 && s != []
    ensures Insert(zeros, s) != [] && Insert(zeros, s)[|Insert(zeros, s)| - 1] == s[|s| - 1]
    decreases |s|
  {
    var rest := s[1..];
    var next := if zeros == 2 && s[0] <= 3 then Flag0(s[0]) else if s[0] == 0 then zeros + 1 else 0;
    if rest != [] {
      InsertKeepsLast(next, rest);
    } else {
      assert Insert(next, rest) == [];
    }
  }

  lemma {:induction false} PacketConcat(a: seq<seq<byte>>, b: seq<seq<byte>>)
    ensures Packet(a + b) == Packet(a) + Packet(b)
    decreases |a|
  {
    if a == [] {
      assert a + b == b;
      assert Packet(a) + Packet(b) == Packet(b);
    } else {
      assert (a + b)[1..] == a[1..] + b;
      PacketConcat(a[1..], b);
      Regroup(START_CODE, a[0], Packet(a[1..]), Packet(b));
    }
  }
}
