/**
  Mirror frames: the length-prefixed form of section 5.3.3 of ISO/IEC 14496-15
  and its conversion, in place, to the byte stream format.
 */
module NalStreams {
  import opened Words

  datatype Codec = H264 | Hevc

  datatype NalUnit = NalUnit(kind: int, refIdc: int, offset: nat, size: nat)

  predicate IsNal(n: seq<byte>) {
    0 < |n| < TWO32 && n[0] < 0x80
  }

  /** A non-empty NAL unit with a clear forbidden bit. */
  type Nal = n: seq<byte> | IsNal(n) witness [0]

  const START_CODE: seq<byte> := [0, 0, 0, 1]

  /** The length-prefixed form. */
  function Avcc(nals: seq<Nal>): seq<byte> {
    if nals == [] then [] else Be32(|nals[0]|) + (nals[0] + Avcc(nals[1..]))
  }

  /** The byte stream form. */
  function Packet(nals: seq<seq<byte>>): seq<byte> {
    if nals == [] then [] else START_CODE + (nals[0] + Packet(nals[1..]))
  }

  /** The report about one NAL unit whose header byte is at `offset`. */
  function Unit(header: byte, codec: Codec, offset: nat, size: nat): NalUnit {
    match codec
    case H264 => NalUnit(header % 32, header / 32 % 4, offset, size)
    case Hevc => NalUnit(header / 2 % 64, 0, offset, size)
  }

  /** The reports about units that follow each other from `pos` on. */
  function Units(nals: seq<Nal>, pos: nat, codec: Codec): seq<NalUnit> {
    if nals == [] then []
    else [Unit(nals[0][0], codec, pos + 4, |nals[0]|)] + Units(nals[1..], pos + 4 + |nals[0]|, codec)
  }

  /** A whole unit stands at the front. */
  predicate HasNal(s: seq<byte>) {
    |s| >= 5 && 0 < Word32(s, 0) <= |s| - 4 && s[4] < 0x80
  }

  function FirstNal(s: seq<byte>): Nal
    requires HasNal(s)
  {
    s[4..4 + Word32(s, 0)]
  }

  /** The units a buffer starts with, and what is left after them. */
  function Nals(s: seq<byte>): seq<Nal>
    decreases |s|
  {
    if HasNal(s) then [FirstNal(s)] + Nals(s[4 + Word32(s, 0)..]) else []
  }

  function Tail(s: seq<byte>): seq<byte>
    decreases |s|
  {
    if HasNal(s) then Tail(s[4 + Word32(s, 0)..]) else s
  }

  lemma ParseStep(s: seq<byte>)
    ensures HasNal(s) ==>
              && Nals(s) == [FirstNal(s)] + Nals(s[4 + Word32(s, 0)..])
              && Tail(s) == Tail(s[4 + Word32(s, 0)..])
    ensures !HasNal(s) ==> Nals(s) == [] && Tail(s) == s
  {}

  /** The three tests of the loop, at position `pos`. */
  lemma HasNalAt(s: seq<byte>, pos: nat)
    requires pos <= |s|
    ensures HasNal(s[pos..]) <==> pos + 5 <= |s| && 0 < Word32(s, pos) <= |s| - pos - 4 && s[pos + 4] < 0x80
    ensures HasNal(s[pos..]) ==>
              && Word32(s[pos..], 0) == Word32(s, pos)
              && FirstNal(s[pos..]) == s[pos + 4..pos + 4 + Word32(s, pos)]
              && s[pos..][4 + Word32(s, pos)..] == s[pos + 4 + Word32(s, pos)..]
  {
    var t := s[pos..];
    if |t| >= 5 {
      assert t[0] == s[pos] && t[1] == s[pos + 1] && t[2] == s[pos + 2] && t[3] == s[pos + 3];
      assert t[4] == s[pos + 4];
    }
  }

  // ---------------------------------------------------------------------
  // In place
  // ---------------------------------------------------------------------

  /** The array after the units `done`, which end at `pos`, have been rewritten. */
  ghost predicate Converted(s: seq<byte>, now: seq<byte>, pos: nat, done: seq<Nal>) {
    && pos <= |s| == |now|
    && now[..pos] == Packet(done) && now[pos..] == s[pos..]
    && Nals(s) == done + Nals(s[pos..]) && Tail(s) == Tail(s[pos..])
  }

  method ParseNalsAvccToAnnexB(p: array<byte>, codec: Codec) returns (ok: bool, out: seq<NalUnit>)
    modifies p
    ensures p[..] == Packet(Nals(old(p[..]))) + Tail(old(p[..]))
    ensures out == Units(Nals(old(p[..])), 0, codec)
    ensures ok <==> Tail(old(p[..])) == []
  {
    hide Nals, Tail, Packet, Units, HasNal, FirstNal;
    out := [];
    var pos := 0;
    ghost var s, done: seq<Nal> := p[..], [];
    Untouched(s, codec);
    while pos < p.Length
      invariant Converted(s, p[..], pos, done)
      invariant out == Units(done, 0, codec)
    {
      HasNalAt(s, pos);
      if pos + 4 > p.Length {
        Stopped(s, p[..], pos, done);
        return false, out;
      }
      SameAhead(s, p[..], pos);
      var nalLen := p[pos] as int * 0x100_0000 + p[pos + 1] as int * 0x1_0000
                    + p[pos + 2] as int * 0x100 + p[pos + 3] as int;
      if nalLen == 0 || pos + 4 + nalLen > p.Length {
        Stopped(s, p[..], pos, done);
        return false, out;
      }
      var header := p[pos + 4];
      if header >= 0x80 {
        Stopped(s, p[..], pos, done);
        return false, out;
      }
      ghost var nal := FirstNal(s[pos..]);
      UnitsAppend(done, nal, 0, codec);
      var u := if codec == H264 then NalUnit(header % 32, header / 32 % 4, pos + 4, nalLen)
               else NalUnit(header / 2 % 64, 0, pos + 4, nalLen);
      out := out + [u];
      ghost var now := p[..];
      WriteStartCode(p, pos);
      OneMore(s, now, p[..], pos, done);
      done := done + [nal];
      pos := pos + (4 + nalLen);
    }
    NothingLeft(s, p[..], pos, done);
    return true, out;
  }

  lemma Untouched(s: seq<byte>, codec: Codec)
    ensures Converted(s, s, 0, []) && Units([], 0, codec) == []
  {
    assert s[0..] == s && s[..0] == [] && Packet([]) == [];
    assert [] + Nals(s) == Nals(s);
  }

  lemma SameAhead(s: seq<byte>, now: seq<byte>, pos: nat)
    requires pos <= |s| == |now| && now[pos..] == s[pos..]
    ensures forall i :: pos <= i < |s| ==> now[i] == s[i]
  {
    forall i | pos <= i < |s|
      ensures now[i] == s[i]
    {
      assert now[i] == now[pos..][i - pos] && s[i] == s[pos..][i - pos];
    }
  }

  method WriteStartCode(p: array<byte>, pos: nat)
    requires pos + 4 <= p.Length
    modifies p
    ensures p[..] == old(p[..pos]) + START_CODE + old(p[pos + 4..])
  {
    p[pos] := 0;
    p[pos + 1] := 0;
    p[pos + 2] := 0;
    p[pos + 3] := 1;
  }

  lemma Stopped(s: seq<byte>, now: seq<byte>, pos: nat, done: seq<Nal>)
    requires Converted(s, now, pos, done) && !HasNal(s[pos..])
    ensures Nals(s) == done && Tail(s) == s[pos..] && now == Packet(done) + Tail(s)
  {
    hide Nals, Tail, HasNal, Packet;
    ParseStep(s[pos..]);
    assert done + [] == done;
    assert now == now[..pos] + now[pos..];
  }

  lemma NothingLeft(s: seq<byte>, now: seq<byte>, pos: nat, done: seq<Nal>)
    requires Converted(s, now, pos, done) && pos == |s|
    ensures Nals(s) == done && Tail(s) == [] && now == Packet(done) + Tail(s)
  {
    HasNalAt(s, pos);
    Stopped(s, now, pos, done);
  }

  /** One more length field has become a start code. */
  lemma OneMore(s: seq<byte>, now: seq<byte>, after: seq<byte>, pos: nat, done: seq<Nal>)
    requires Converted(s, now, pos, done) && HasNal(s[pos..])
    requires pos + 4 <= |now| && after == now[..pos] + START_CODE + now[pos + 4..]
    ensures Converted(s, after, pos + 4 + Word32(s, pos), done + [FirstNal(s[pos..])])
  {
    hide Nals, Tail, Packet, HasNal, FirstNal, Word32;
    HasNalAt(s, pos);
    ParseStep(s[pos..]);
    var nal: Nal := FirstNal(s[pos..]);
    var n := |nal|;
    var rest := Nals(s[pos + 4 + n..]);
    assert done + ([nal] + rest) == done + [nal] + rest;
    PacketAppend(done, nal);
    SameAhead(s, now, pos);
    assert after[..pos + 4 + n] == now[..pos] + (START_CODE + nal);
    assert after[pos + 4 + n..] == s[pos + 4 + n..];
  }

  lemma {:induction false} PacketAppend(nals: seq<seq<byte>>, nal: seq<byte>)
    ensures Packet(nals + [nal]) == Packet(nals) + (START_CODE + nal)
  {
    if nals == [] {
      assert nals + [nal] == [nal];
      assert Packet([nal]) == START_CODE + (nal + []) == START_CODE + nal;
      assert Packet(nals) == [];
    } else {
      assert (nals + [nal])[1..] == nals[1..] + [nal];
      PacketAppend(nals[1..], nal);
      Regroup(START_CODE, nals[0], Packet(nals[1..]), START_CODE + nal);
    }
  }

  lemma Regroup(a: seq<byte>, b: seq<byte>, c: seq<byte>, d: seq<byte>)
    ensures a + (b + (c + d)) == a + (b + c) + d
  {}

  lemma {:induction false} UnitsAppend(nals: seq<Nal>, nal: Nal, pos: nat, codec: Codec)
    ensures Units(nals + [nal], pos, codec)
            == Units(nals, pos, codec) + [Unit(nal[0], codec, pos + |Packet(nals)| + 4, |nal|)]
  {
    if nals == [] {
      assert nals + [nal] == [nal];
      assert Packet(nals) == [];
    } else {
      assert (nals + [nal])[1..] == nals[1..] + [nal];
      UnitsAppend(nals[1..], nal, pos + 4 + |nals[0]|, codec);
    }
  }

  // ---------------------------------------------------------------------
  // Success is exactly being the length-prefixed form of a list
  // ---------------------------------------------------------------------

  lemma AvccCons(nal: Nal, rest: seq<Nal>)
    ensures Avcc([nal] + rest) == Be32(|nal|) + (nal + Avcc(rest))
  {
    assert ([nal] + rest)[1..] == rest;
  }

  lemma AvccNone(s: seq<byte>)
    ensures Avcc([]) + s == s
  {}

  /** What was parsed, written back, is the buffer. */
  lemma {:induction false} ParsedIsPrefix(s: seq<byte>)
    ensures s == Avcc(Nals(s)) + Tail(s) && !HasNal(Tail(s))
    decreases |s|
  {
    hide Nals, Tail, Avcc, Be32;
    ParseStep(s);
    if HasNal(s) {
      var nal: Nal := FirstNal(s);
      var rest := s[4 + |nal|..];
      ParsedIsPrefix(rest);
      Be32OfWord32(s, 0);
      assert s == s[..4] + (nal + rest);
      AvccCons(nal, Nals(rest));
      Regroup(Be32(|nal|), nal, Avcc(Nals(rest)), Tail(rest));
    } else {
      AvccNone(s);
    }
  }

  lemma NalAtFront(nal: Nal, rest: seq<byte>)
    ensures var s := Be32(|nal|) + (nal + rest);
            HasNal(s) && Word32(s, 0) == |nal| && s[4..4 + |nal|] == nal && s[4 + |nal|..] == rest
  {
    var s, b := Be32(|nal|) + (nal + rest), Be32(|nal|);
    Word32OfBe32(|nal|);
    assert s[0] == b[0] && s[1] == b[1] && s[2] == b[2] && s[3] == b[3];
    assert Word32(s, 0) == Word32(b, 0);
    assert s[4] == nal[0];
  }

  /** Only one list of units, with one remainder that starts with no unit, spells the buffer. */
  lemma {:induction false} ParseIsUnique(nals: seq<Nal>, rest: seq<byte>)
    requires !HasNal(rest)
    ensures Nals(Avcc(nals) + rest) == nals && Tail(Avcc(nals) + rest) == rest
    decreases |nals|
  {
    hide Nals, Tail, Avcc, Be32, HasNal;
    if nals == [] {
      AvccNone(rest);
      ParseStep(rest);
    } else {
      var nal: Nal := nals[0];
      var more := Avcc(nals[1..]) + rest;
      ParseIsUnique(nals[1..], rest);
      assert nals == [nal] + nals[1..];
      AvccCons(nal, nals[1..]);
      Regroup(Be32(|nal|), nal, Avcc(nals[1..]), rest);
      NalAtFront(nal, more);
      ParseStep(Be32(|nal|) + (nal + more));
    }
  }

  /** Main result: the conversion succeeds exactly on the length-prefixed forms, and for each of one list only. */
  lemma SucceedsExactlyOnAvcc(s: seq<byte>)
    ensures Tail(s) == [] <==> exists nals: seq<Nal> :: Avcc(nals) == s
    ensures forall nals: seq<Nal> :: Avcc(nals) == s ==> Nals(s) == nals
  {
    ParsedIsPrefix(s);
    if Tail(s) == [] {
      assert Avcc(Nals(s)) == s;
    }
    forall nals: seq<Nal> | Avcc(nals) == s
      ensures Nals(s) == nals && Tail(s) == []
    {
      ParseIsUnique(nals, []);
      assert Avcc(nals) + [] == s;
    }
  }

  // ---------------------------------------------------------------------
  // What the reports say
  // ---------------------------------------------------------------------

  /** The buffer of `size` bytes from `pos` on is tiled by prefix, payload, prefix, payload, ... */
  ghost predicate Tiling(out: seq<NalUnit>, pos: nat, end: nat) {
    if out == [] then pos == end
    else out[0].offset == pos + 4 && out[0].size > 0 && Tiling(out[1..], pos + 4 + out[0].size, end)
  }

  lemma {:induction false} UnitsTile(nals: seq<Nal>, pos: nat, codec: Codec)
    ensures Tiling(Units(nals, pos, codec), pos, pos + |Packet(nals)|)
    decreases |nals|
  {
    if nals != [] {
      UnitsTile(nals[1..], pos + 4 + |nals[0]|, codec);
      assert Units(nals, pos, codec)[1..] == Units(nals[1..], pos + 4 + |nals[0]|, codec);
    }
  }

  /** The header byte of a unit holds its type, and in H.264 the reference level in front of it. */
  lemma HeaderIsRead(kind: int, other: int, offset: nat, size: nat)
    ensures 0 <= kind < 32 && 0 <= other < 4 ==>
              Unit(32 * other + kind, H264, offset, size) == NalUnit(kind, other, offset, size)
    ensures 0 <= kind < 64 && 0 <= other < 2 ==>
              Unit(2 * kind + other, Hevc, offset, size) == NalUnit(kind, 0, offset, size)
  {}

  /** The report `u` points at the unit `n` inside `s`, which begins at `pos`. */
  predicate Points(u: NalUnit, n: Nal, s: seq<byte>, pos: nat, codec: Codec) {
    && pos <= u.offset && u.offset - pos + u.size <= |s|
    && s[u.offset - pos..u.offset - pos + u.size] == n
    && u.kind == (if codec.H264? then n[0] % 32 else n[0] / 2 % 64)
    && u.refIdc == (if codec.H264? then n[0] / 32 % 4 else 0)
  }

  lemma FirstPoints(n: Nal, tail: seq<byte>, pos: nat, codec: Codec)
    ensures Points(Unit(n[0], codec, pos + 4, |n|), n, START_CODE + (n + tail), pos, codec)
  {
    assert (START_CODE + (n + tail))[4..4 + |n|] == n;
  }

  lemma LaterPoints(n: Nal, tail: seq<byte>, pos: nat, codec: Codec, u: NalUnit, m: Nal)
    requires Points(u, m, tail, pos + 4 + |n|, codec)
    ensures Points(u, m, START_CODE + (n + tail), pos, codec)
  {
    Shifted(START_CODE + n, tail, u.offset - (pos + 4 + |n|), u.size);
    assert START_CODE + (n + tail) == START_CODE + n + tail;
  }

  /** Main result on reports: there is one for each unit, of its type, and it points at the unit. */
  lemma {:induction false} ReportsPoint(nals: seq<Nal>, pos: nat, codec: Codec, i: nat)
    requires i < |nals|
    ensures |Units(nals, pos, codec)| == |nals|
    ensures Points(Units(nals, pos, codec)[i], nals[i], Packet(nals), pos, codec)
    decreases |nals|
  {
    hide Points, Unit;
    var n, tail := nals[0], Packet(nals[1..]);
    var next := pos + 4 + |n|;
    if i == 0 {
      UnitsCount(nals[1..], next, codec);
      FirstPoints(n, tail, pos, codec);
    } else {
      ReportsPoint(nals[1..], next, codec, i - 1);
      LaterPoints(n, tail, pos, codec, Units(nals[1..], next, codec)[i - 1], nals[i]);
    }
  }

  lemma Shifted(a: seq<byte>, b: seq<byte>, from: nat, size: nat)
    requires from + size <= |b|
    ensures (a + b)[|a| + from..|a| + from + size] == b[from..from + size]
  {}

  lemma {:induction false} UnitsCount(nals: seq<Nal>, pos: nat, codec: Codec)
    ensures |Units(nals, pos, codec)| == |nals|
    decreases |nals|
  {
    if nals != [] {
      UnitsCount(nals[1..], pos + 4 + |nals[0]|, codec);
    }
  }

  /** Undoing the conversion: each start code becomes the reported size again. */
  function Rebuild(s: seq<byte>, out: seq<NalUnit>): seq<byte> {
    if out == [] then s
    else
      var n := out[0].size;
      if n >= TWO32 || 4 + n > |s| then s
      else Be32(n) + (s[4..4 + n] + Rebuild(s[4 + n..], out[1..]))
  }

  lemma {:induction false} RebuildPacket(nals: seq<Nal>, rest: seq<byte>, pos: nat, codec: Codec)
    ensures Rebuild(Packet(nals) + rest, Units(nals, pos, codec)) == Avcc(nals) + rest
    decreases |nals|
  {
    hide Be32;
    if nals == [] {
      assert Packet(nals) + rest == rest;
      assert Avcc(nals) + rest == rest;
    } else {
      var n, more := |nals[0]|, Packet(nals[1..]) + rest;
      var units := Units(nals[1..], pos + 4 + n, codec);
      RebuildPacket(nals[1..], rest, pos + 4 + n, codec);
      Regroup(START_CODE, nals[0], Packet(nals[1..]), rest);
      Regroup(Be32(n), nals[0], Avcc(nals[1..]), rest);
      RebuildStep(nals[0], more, Units(nals, pos, codec), units);
    }
  }

  lemma RebuildStep(nal: Nal, more: seq<byte>, out: seq<NalUnit>, units: seq<NalUnit>)
    requires out != [] && out[0].size == |nal| && out[1..] == units
    ensures Rebuild(START_CODE + (nal + more), out) == Be32(|nal|) + (nal + Rebuild(more, units))
  {
    var s := START_CODE + (nal + more);
    assert s[4..4 + |nal|] == nal && s[4 + |nal|..] == more;
  }

  /** Main result: only length fields change, the reports tile the converted part, and they rebuild the input. */
  lemma ConversionIsReversible(s: seq<byte>, codec: Codec)
    ensures var after, out := Packet(Nals(s)) + Tail(s), Units(Nals(s), 0, codec);
            && |after| == |s|
            && Tiling(out, 0, |s| - |Tail(s)|)
            && Rebuild(after, out) == s
  {
    ParsedIsPrefix(s);
    RebuildPacket(Nals(s), Tail(s), 0, codec);
    UnitsTile(Nals(s), 0, codec);
    SameLength(Nals(s));
  }

  lemma {:induction false} SameLength(nals: seq<Nal>)
    ensures |Packet(nals)| == |Avcc(nals)|
  {
    if nals != [] {
      SameLength(nals[1..]);
    }
  }
}
