/**
  The decoder configuration records of ISO/IEC 14496-15: `avcC` for H.264 and
  `hvcC` for HEVC, alone or inside an MP4 sample entry.
 */
module DecoderConfig {
  import opened Wrappers
  import opened Words
  import opened NalStreams

  // ---------------------------------------------------------------------
  // Lists of parameter sets with 16-bit lengths
  // ---------------------------------------------------------------------

  predicate IsSet(n: seq<byte>) {
    |n| < 0x1_0000
  }

  type ParamSet = n: seq<byte> | IsSet(n) witness []

  /** The stored form of a list of parameter sets. */
  function Stored(sets: seq<ParamSet>): seq<byte> {
    if sets == [] then [] else Be16(|sets[0]|) + (sets[0] + Stored(sets[1..]))
  }

  predicate HasSet(s: seq<byte>) {
    |s| >= 2 && Word16(s, 0) <= |s| - 2
  }

  function FirstSet(s: seq<byte>): ParamSet
    requires HasSet(s)
  {
    s[2..2 + Word16(s, 0)]
  }

  function AfterSet(s: seq<byte>): (t: seq<byte>)
    requires HasSet(s)
    ensures |t| < |s|
  {
    s[2 + Word16(s, 0)..]
  }

  /** `n` stored sets at the front, and what follows them. */
  function ReadSets(s: seq<byte>, n: nat): Option<(seq<ParamSet>, seq<byte>)>
    decreases n
  {
    if n == 0 then Some(([], s))
    else if !HasSet(s) then None
    else match ReadSets(AfterSet(s), n - 1)
      case None => None
      case Some((sets, rest)) => Some(([FirstSet(s)] + sets, rest))
  }

  lemma SetAtFront(n: ParamSet, rest: seq<byte>)
    ensures var s := Be16(|n|) + (n + rest);
            HasSet(s) && FirstSet(s) == n && AfterSet(s) == rest
  {
    var s := Be16(|n|) + (n + rest);
    assert s[0] == Be16(|n|)[0] && s[1] == Be16(|n|)[1];
    assert Word16(s, 0) == |n|;
    assert s[2..2 + |n|] == n && s[2 + |n|..] == rest;
  }

  lemma SetBytes(s: seq<byte>)
    requires HasSet(s)
    ensures s == Be16(|FirstSet(s)|) + (FirstSet(s) + AfterSet(s))
  {
    assert Be16(Word16(s, 0)) == s[..2];
    assert s == s[..2] + (FirstSet(s) + AfterSet(s));
  }

  lemma StoredCons(n: ParamSet, rest: seq<ParamSet>)
    ensures Stored([n] + rest) == Be16(|n|) + (n + Stored(rest))
  {
    assert ([n] + rest)[1..] == rest;
  }

  lemma StoredNone(s: seq<byte>)
    ensures Stored([]) + s == s
  {}

  lemma {:induction false} ReadStored(sets: seq<ParamSet>, rest: seq<byte>)
    ensures ReadSets(Stored(sets) + rest, |sets|) == Some((sets, rest))
    decreases |sets|
  {
    hide HasSet, FirstSet, AfterSet, Stored, Be16;
    if sets == [] {
      StoredNone(rest);
    } else {
      var n: ParamSet := sets[0];
      assert sets == [n] + sets[1..];
      StoredCons(n, sets[1..]);
      Regroup(Be16(|n|), n, Stored(sets[1..]), rest);
      SetAtFront(n, Stored(sets[1..]) + rest);
      ReadStored(sets[1..], rest);
    }
  }

  lemma {:induction false} ReadIsStored(s: seq<byte>, n: nat)
    requires ReadSets(s, n).Some?
    ensures var (sets, rest) := ReadSets(s, n).value;
            |sets| == n && s == Stored(sets) + rest
    decreases n
  {
    hide HasSet, FirstSet, AfterSet, Stored, Be16;
    if n == 0 {
      StoredNone(s);
    } else {
      SetBytes(s);
      ReadIsStored(AfterSet(s), n - 1);
      var (sets, rest) := ReadSets(AfterSet(s), n - 1).value;
      StoredCons(FirstSet(s), sets);
      Regroup(Be16(|FirstSet(s)|), FirstSet(s), Stored(sets), rest);
    }
  }

  // ---------------------------------------------------------------------
  // avcC
  // ---------------------------------------------------------------------

  /** The record: five bytes beginning with the version, the SPS list, the PPS list, and whatever follows. */
  datatype Avc = Avc(head: seq<byte>, flags: byte, sps: seq<ParamSet>, pps: seq<ParamSet>, trailing: seq<byte>)

  predicate IsAvc(r: Avc) {
    && |r.head| == 5 && r.head[0] == 1
    && r.flags % 32 == |r.sps| && |r.sps| >= 1 && 1 <= |r.pps| < 256
  }

  function AvcBytes(r: Avc): seq<byte>
    requires IsAvc(r)
  {
    r.head + [r.flags] + (Stored(r.sps) + ([|r.pps|] + (Stored(r.pps) + r.trailing)))
  }

  function ReadAvc(blob: seq<byte>): Option<Avc> {
    if |blob| < 7 || blob[0] != 1 || blob[5] % 32 < 1 then None
    else match ReadSets(blob[6..], blob[5] % 32)
      case None => None
      case Some((sps, rest)) =>
        if rest == [] then None
        else match ReadSets(rest[1..], rest[0])
          case None => None
          case Some((pps, trailing)) =>
            if pps == [] then None else Some(Avc(blob[..5], blob[5], sps, pps, trailing))
  }

  /** `parse_avcc`: the first SPS and the first PPS, each behind a start code. */
  method ParseAvcc(blob: seq<byte>) returns (r: Option<(seq<byte>, seq<byte>)>)
    ensures r.Some? <==> ReadAvc(blob).Some?
    ensures r.Some? ==> r.value == (START_CODE + ReadAvc(blob).value.sps[0], START_CODE + ReadAvc(blob).value.pps[0])
  {
    hide HasSet, AfterSet, FirstSet;
    if |blob| < 7 || blob[0] != 1 {
      return None;
    }
    var numSps := blob[5] % 32;
    if numSps < 1 {
      return None;
    }
    var p, sps := ReadFirst(blob, 6, numSps);
    if sps.None? {
      return None;
    }
    if p >= |blob| {
      return None;
    }
    var numPps := blob[p];
    assert blob[p..][1..] == blob[p + 1..];
    var q, pps := ReadFirst(blob, p + 1, numPps);
    if pps.None? || pps.value == [] {
      return None;
    }
    return Some((sps.value, pps.value));
  }

  /** One of the two loops: `n` sets from position `p`, keeping the first. */
  method ReadFirst(blob: seq<byte>, p: nat, n: nat) returns (q: nat, first: Option<seq<byte>>)
    requires p <= |blob|
    ensures first.Some? <==> ReadSets(blob[p..], n).Some?
    ensures first.Some? ==>
              var (sets, rest) := ReadSets(blob[p..], n).value;
              && q <= |blob| && rest == blob[q..] && |sets| == n
              && first.value == if n == 0 then [] else START_CODE + sets[0]
  {
    hide HasSet, AfterSet, FirstSet, ReadOn;
    var out: seq<byte> := [];
    ghost var done: seq<ParamSet> := [];
    q := p;
    var i := 0;
    ReadOnStart(ReadSets(blob[p..], n));
    while i < n
      invariant 0 <= i == |done| <= n && p <= q <= |blob|
      invariant ReadOn(ReadSets(blob[p..], n), done, ReadSets(blob[q..], n - i))
      invariant out == if i == 0 then [] else START_CODE + done[0]
    {
      SetAt(blob, q);
      ReadOnStep(blob[q..], n - i, ReadSets(blob[p..], n), done);
      if q + 2 > |blob| {
        return q, None;
      }
      var len := blob[q] as int * 256 + blob[q + 1] as int;
      q := q + 2;
      if q + len > |blob| {
        return q, None;
      }
      if i == 0 {
        out := out + START_CODE + blob[q..q + len];
      }
      done := done + [FirstSet(blob[q - 2..])];
      q := q + len;
      i := i + 1;
    }
    ReadOnEnd(blob[q..], ReadSets(blob[p..], n), done);
    return q, Some(out);
  }

  /** Reading goes on behind the sets already read. */
  ghost predicate ReadOn(
    whole: Option<(seq<ParamSet>, seq<byte>)>, done: seq<ParamSet>, now: Option<(seq<ParamSet>, seq<byte>)>)
  {
    match now
    case None => whole.None?
    case Some((sets, rest)) => whole == Some((done + sets, rest))
  }

  lemma ReadOnStart(whole: Option<(seq<ParamSet>, seq<byte>)>)
    ensures ReadOn(whole, [], whole)
  {
    if whole.Some? {
      assert [] + whole.value.0 == whole.value.0;
    }
  }

  lemma ReadOnStep(s: seq<byte>, n: nat, whole: Option<(seq<ParamSet>, seq<byte>)>, done: seq<ParamSet>)
    requires n > 0 && ReadOn(whole, done, ReadSets(s, n))
    ensures HasSet(s) ==> ReadOn(whole, done + [FirstSet(s)], ReadSets(AfterSet(s), n - 1))
    ensures !HasSet(s) ==> whole.None?
  {
    hide HasSet, AfterSet, FirstSet;
    if HasSet(s) && ReadSets(AfterSet(s), n - 1).Some? {
      var sets := ReadSets(AfterSet(s), n - 1).value.0;
      assert done + ([FirstSet(s)] + sets) == done + [FirstSet(s)] + sets;
    }
  }

  lemma ReadOnEnd(s: seq<byte>, whole: Option<(seq<ParamSet>, seq<byte>)>, done: seq<ParamSet>)
    requires ReadOn(whole, done, ReadSets(s, 0))
    ensures whole == Some((done, s))
  {
    assert done + [] == done;
  }

  lemma SetAt(blob: seq<byte>, q: nat)
    requires q <= |blob|
    ensures HasSet(blob[q..]) <==> q + 2 <= |blob| && q + 2 + Word16(blob, q) <= |blob|
    ensures HasSet(blob[q..]) ==>
              && FirstSet(blob[q..]) == blob[q + 2..q + 2 + Word16(blob, q)]
              && AfterSet(blob[q..]) == blob[q + 2 + Word16(blob, q)..]
  {
    var s := blob[q..];
    if |s| >= 2 {
      assert s[0] == blob[q] && s[1] == blob[q + 1];
      assert Word16(s, 0) == Word16(blob, q);
    }
  }

  lemma AvcIsRead(r: Avc)
    requires IsAvc(r)
    ensures ReadAvc(AvcBytes(r)) == Some(r)
  {
    hide ReadSets, Stored;
    var tail := [|r.pps| as byte] + (Stored(r.pps) + r.trailing);
    var blob := AvcBytes(r);
    assert blob[..5] == r.head && blob[5] == r.flags && blob[6..] == Stored(r.sps) + tail;
    ReadStored(r.sps, tail);
    assert tail[1..] == Stored(r.pps) + r.trailing;
    ReadStored(r.pps, r.trailing);
  }

  lemma ReadAvcIsAvc(blob: seq<byte>)
    requires ReadAvc(blob).Some?
    ensures IsAvc(ReadAvc(blob).value) && AvcBytes(ReadAvc(blob).value) == blob
  {
    hide ReadSets, Stored;
    ReadIsStored(blob[6..], blob[5] % 32);
    var (sps, rest) := ReadSets(blob[6..], blob[5] % 32).value;
    ReadIsStored(rest[1..], rest[0]);
    var (pps, trailing) := ReadSets(rest[1..], rest[0]).value;
    assert rest == [rest[0]] + rest[1..];
    assert blob == blob[..5] + [blob[5]] + blob[6..];
  }

  /** Main result on avcC: a blob is accepted exactly when it is a record, of one record only. */
  lemma AvcIsExact(blob: seq<byte>)
    ensures ReadAvc(blob).Some? <==> exists r: Avc :: IsAvc(r) && AvcBytes(r) == blob
    ensures forall r: Avc :: IsAvc(r) && AvcBytes(r) == blob ==> ReadAvc(blob) == Some(r)
  {
    if ReadAvc(blob).Some? {
      ReadAvcIsAvc(blob);
    }
    forall r: Avc | IsAvc(r) && AvcBytes(r) == blob
      ensures ReadAvc(blob) == Some(r)
    {
      AvcIsRead(r);
    }
  }

  lemma AppendInside(a: seq<byte>, b: seq<byte>, x: byte, c: seq<byte>, t: seq<byte>, extra: seq<byte>)
    ensures a + (b + ([x] + (c + t))) + extra == a + (b + ([x] + (c + (t + extra))))
  {}

  /** Bytes after the last PPS are never looked at, whatever they are. */
  lemma TrailingBytesAreAccepted(blob: seq<byte>, extra: seq<byte>)
    requires ReadAvc(blob).Some?
    ensures ReadAvc(blob + extra)
            == Some(ReadAvc(blob).value.(trailing := ReadAvc(blob).value.trailing + extra))
  {
    hide ReadAvc, Stored;
    ReadAvcIsAvc(blob);
    var r := ReadAvc(blob).value;
    AppendInside(r.head + [r.flags], Stored(r.sps), |r.pps|, Stored(r.pps), r.trailing, extra);
    AvcIsRead(r.(trailing := r.trailing + extra));
  }

  // ---------------------------------------------------------------------
  // hvcC
  // ---------------------------------------------------------------------

  const VPS: int := 32
  const SPS: int := 33
  const PPS: int := 34

  /** One array of the record: its type in the low six bits of the header, and its sets. */
  datatype SetArray = SetArray(header: byte, sets: seq<ParamSet>)

  predicate IsArray(a: SetArray) {
    |a.sets| < 0x1_0000
  }

  function ArrayBytes(a: SetArray): seq<byte>
    requires IsArray(a)
  {
    [a.header] + (Be16(|a.sets|) + Stored(a.sets))
  }

  function ArraysBytes(arrays: seq<SetArray>): seq<byte>
    requires forall i :: 0 <= i < |arrays| ==> IsArray(arrays[i])
  {
    if arrays == [] then [] else ArrayBytes(arrays[0]) + ArraysBytes(arrays[1..])
  }

  /** The first set of every array of one type. */
  function OfKind(arrays: seq<SetArray>, kind: int): seq<seq<byte>> {
    if arrays == [] then []
    else (if arrays[0].header % 64 == kind && arrays[0].sets != [] then [arrays[0].sets[0]] else [])
         + OfKind(arrays[1..], kind)
  }

  datatype Hvc = Hvc(head: seq<byte>, arrays: seq<SetArray>, trailing: seq<byte>)

  predicate IsHvc(r: Hvc) {
    && |r.head| == 22 && r.head[0] == 1 && |r.arrays| < 256
    && (forall i :: 0 <= i < |r.arrays| ==> IsArray(r.arrays[i]))
    && OfKind(r.arrays, VPS) != [] && OfKind(r.arrays, SPS) != [] && OfKind(r.arrays, PPS) != []
  }

  function HvcBytes(r: Hvc): seq<byte>
    requires IsHvc(r)
  {
    r.head + [|r.arrays|] + (ArraysBytes(r.arrays) + r.trailing)
  }

  function ReadArray(s: seq<byte>): Option<(SetArray, seq<byte>)> {
    if |s| < 3 then None
    else match ReadSets(s[3..], Word16(s, 1))
      case None => None
      case Some((sets, rest)) => Some((SetArray(s[0], sets), rest))
  }

  function ReadArrays(s: seq<byte>, n: nat): Option<(seq<SetArray>, seq<byte>)>
    decreases n
  {
    if n == 0 then Some(([], s))
    else match ReadArray(s)
      case None => None
      case Some((a, t)) =>
        match ReadArrays(t, n - 1)
        case None => None
        case Some((arrays, rest)) => Some(([a] + arrays, rest))
  }

  function ReadHvc(blob: seq<byte>): Option<Hvc> {
    if |blob| < 23 || blob[0] != 1 then None
    else match ReadArrays(blob[23..], blob[22])
      case None => None
      case Some((arrays, trailing)) =>
        if OfKind(arrays, VPS) == [] || OfKind(arrays, SPS) == [] || OfKind(arrays, PPS) == [] then None
        else Some(Hvc(blob[..22], arrays, trailing))
  }

  datatype HevcSets = HevcSets(vps: seq<byte>, sps: seq<byte>, pps: seq<byte>)

  function SetsOf(arrays: seq<SetArray>): HevcSets {
    HevcSets(Packet(OfKind(arrays, VPS)), Packet(OfKind(arrays, SPS)), Packet(OfKind(arrays, PPS)))
  }

  /** `parse_hvcc`: for each type, the first set of each of its arrays, each behind a start code. */
  method ParseHvcc(blob: seq<byte>) returns (r: Option<HevcSets>)
    ensures r.Some? <==> ReadHvc(blob).Some?
    ensures r.Some? ==> r.value == SetsOf(ReadHvc(blob).value.arrays)
  {
    hide ReadArrays, ReadArray, OfKind, Packet, ArraysOn, ReadSets;
    if |blob| < 23 || blob[0] != 1 {
      return None;
    }
    var p: nat, n: nat := 23, blob[22];
    var vps, sps, pps := [], [], [];
    ghost var done := [];
    ghost var whole := ReadArrays(blob[23..], n);
    ArraysStart(whole);
    var i := 0;
    while i < n
      invariant 0 <= i <= n && p <= |blob|
      invariant ArraysOn(whole, done, ReadArrays(blob[p..], n - i))
      invariant HevcSets(vps, sps, pps) == SetsOf(done)
    {
      ghost var s := blob[p..];
      ArraysStep(s, n - i, whole, done);
      ArrayAt(blob, p);
      if p + 3 > |blob| {
        return None;
      }
      var kind := blob[p] % 64;
      var num := blob[p + 1] as int * 256 + blob[p + 2] as int;
      var q, first := ReadFirst(blob, p + 3, num);
      if first.None? {
        return None;
      }
      ghost var a := ReadArray(s).value.0;
      KindAppend(done, a, VPS);
      KindAppend(done, a, SPS);
      KindAppend(done, a, PPS);
      if kind == VPS {
        vps := vps + first.value;
      } else if kind == SPS {
        sps := sps + first.value;
      } else if kind == PPS {
        pps := pps + first.value;
      }
      done := done + [a];
      p := q;
      i := i + 1;
    }
    ArraysEnd(blob[p..], whole, done);
    PacketEmpty(OfKind(done, VPS));
    PacketEmpty(OfKind(done, SPS));
    PacketEmpty(OfKind(done, PPS));
    if vps == [] || sps == [] || pps == [] {
      return None;
    }
    return Some(HevcSets(vps, sps, pps));
  }

  lemma PacketEmpty(nals: seq<seq<byte>>)
    ensures Packet(nals) == [] <==> nals == []
  {}

  /** One more array adds its first set to the sets of its own type only. */
  lemma {:induction false} KindAppend(arrays: seq<SetArray>, a: SetArray, kind: int)
    ensures Packet(OfKind(arrays + [a], kind))
            == Packet(OfKind(arrays, kind))
               + if a.header % 64 == kind && a.sets != [] then START_CODE + a.sets[0] else []
  {
    var own := if a.header % 64 == kind && a.sets != [] then [a.sets[0]] else [];
    KindConcat(arrays, a, kind);
    if own != [] {
      PacketAppend(OfKind(arrays, kind), a.sets[0]);
    } else {
      assert OfKind(arrays, kind) + [] == OfKind(arrays, kind);
    }
  }

  lemma {:induction false} KindConcat(arrays: seq<SetArray>, a: SetArray, kind: int)
    ensures OfKind(arrays + [a], kind)
            == OfKind(arrays, kind) + if a.header % 64 == kind && a.sets != [] then [a.sets[0]] else []
  {
    if arrays == [] {
      assert arrays + [a] == [a];
      assert [a][1..] == [];
      assert OfKind([a][1..], kind) == [];
    } else {
      assert (arrays + [a])[1..] == arrays[1..] + [a];
      KindConcat(arrays[1..], a, kind);
    }
  }

  /** Reading goes on behind the arrays already read. */
  ghost predicate ArraysOn(
    whole: Option<(seq<SetArray>, seq<byte>)>, done: seq<SetArray>, now: Option<(seq<SetArray>, seq<byte>)>)
  {
    match now
    case None => whole.None?
    case Some((arrays, rest)) => whole == Some((done + arrays, rest))
  }

  lemma ArraysStart(whole: Option<(seq<SetArray>, seq<byte>)>)
    ensures ArraysOn(whole, [], whole)
    ensures SetsOf([]) == HevcSets([], [], [])
  {
    if whole.Some? {
      assert [] + whole.value.0 == whole.value.0;
    }
  }

  lemma ArraysStep(s: seq<byte>, n: nat, whole: Option<(seq<SetArray>, seq<byte>)>, done: seq<SetArray>)
    requires n > 0 && ArraysOn(whole, done, ReadArrays(s, n))
    ensures match ReadArray(s)
            case None => whole.None?
            case Some((a, t)) => ArraysOn(whole, done + [a], ReadArrays(t, n - 1))
  {
    hide ReadArray;
    if ReadArray(s).Some? {
      var (a, t) := ReadArray(s).value;
      if ReadArrays(t, n - 1).Some? {
        var arrays := ReadArrays(t, n - 1).value.0;
        assert done + ([a] + arrays) == done + [a] + arrays;
      }
    }
  }

  lemma ArraysEnd(s: seq<byte>, whole: Option<(seq<SetArray>, seq<byte>)>, done: seq<SetArray>)
    requires ArraysOn(whole, done, ReadArrays(s, 0))
    ensures whole == Some((done, s))
  {
    assert done + [] == done;
  }

  /** The header of the array at position `p`. */
  lemma ArrayAt(blob: seq<byte>, p: nat)
    requires p <= |blob|
    ensures ReadArray(blob[p..]) ==
            if p + 3 > |blob| then None
            else match ReadSets(blob[p + 3..], Word16(blob, p + 1))
              case None => None
              case Some((sets, rest)) => Some((SetArray(blob[p], sets), rest))
  {
    var s := blob[p..];
    if |s| >= 3 {
      assert s[3..] == blob[p + 3..];
      assert s[0] == blob[p] && s[1] == blob[p + 1] && s[2] == blob[p + 2];
    }
  }

  lemma ArrayIsRead(a: SetArray, rest: seq<byte>)
    requires IsArray(a)
    ensures ReadArray(ArrayBytes(a) + rest) == Some((a, rest))
  {
    hide ReadSets, Stored;
    var s := ArrayBytes(a) + rest;
    assert s[3..] == Stored(a.sets) + rest;
    assert s[0] == a.header && s[1] == Be16(|a.sets|)[0] && s[2] == Be16(|a.sets|)[1];
    assert Word16(s, 1) == |a.sets|;
    ReadStored(a.sets, rest);
  }

  lemma ReadArrayIsArray(s: seq<byte>)
    requires ReadArray(s).Some?
    ensures var (a, rest) := ReadArray(s).value;
            IsArray(a) && ArrayBytes(a) + rest == s
  {
    hide ReadSets, Stored;
    ReadIsStored(s[3..], Word16(s, 1));
    var (a, rest) := ReadArray(s).value;
    assert Be16(Word16(s, 1)) == s[1..3];
    assert s == [s[0]] + (s[1..3] + s[3..]);
    Regroup([s[0]], s[1..3], Stored(a.sets), rest);
  }

  lemma {:induction false} ArraysAreRead(arrays: seq<SetArray>, rest: seq<byte>)
    requires forall i :: 0 <= i < |arrays| ==> IsArray(arrays[i])
    ensures ReadArrays(ArraysBytes(arrays) + rest, |arrays|) == Some((arrays, rest))
    decreases |arrays|
  {
    hide ReadArray, ArrayBytes;
    if arrays == [] {
      assert ArraysBytes(arrays) + rest == rest;
    } else {
      var tail := ArraysBytes(arrays[1..]);
      ArrayIsRead(arrays[0], tail + rest);
      assert ArrayBytes(arrays[0]) + tail + rest == ArrayBytes(arrays[0]) + (tail + rest);
      ArraysAreRead(arrays[1..], rest);
      assert arrays == [arrays[0]] + arrays[1..];
    }
  }

  lemma {:induction false} ReadArraysAreArrays(s: seq<byte>, n: nat)
    requires ReadArrays(s, n).Some?
    ensures var (arrays, rest) := ReadArrays(s, n).value;
            && |arrays| == n && (forall i :: 0 <= i < n ==> IsArray(arrays[i]))
            && ArraysBytes(arrays) + rest == s
    decreases n
  {
    hide ReadArray, ArrayBytes;
    var (arrays, rest) := ReadArrays(s, n).value;
    if n == 0 {
      assert ArraysBytes(arrays) + rest == rest;
    } else {
      ReadArrayIsArray(s);
      var (a, t) := ReadArray(s).value;
      ReadArraysAreArrays(t, n - 1);
      assert arrays[1..] == ReadArrays(t, n - 1).value.0;
      assert ArrayBytes(a) + (ArraysBytes(arrays[1..]) + rest) == ArrayBytes(a) + ArraysBytes(arrays[1..]) + rest;
    }
  }

  lemma HvcIsRead(r: Hvc)
    requires IsHvc(r)
    ensures ReadHvc(HvcBytes(r)) == Some(r)
  {
    hide ReadArrays, ArraysBytes, OfKind;
    var blob := HvcBytes(r);
    assert blob[..22] == r.head && blob[22] == |r.arrays| && blob[23..] == ArraysBytes(r.arrays) + r.trailing;
    ArraysAreRead(r.arrays, r.trailing);
  }

  lemma ReadHvcIsHvc(blob: seq<byte>)
    requires ReadHvc(blob).Some?
    ensures IsHvc(ReadHvc(blob).value) && HvcBytes(ReadHvc(blob).value) == blob
  {
    hide ReadArrays, ArraysBytes, OfKind;
    ReadArraysAreArrays(blob[23..], blob[22]);
    assert blob == blob[..22] + [blob[22]] + blob[23..];
  }

  /** Main result on hvcC: a blob is accepted exactly when it is a record, of one record only. */
  lemma HvcIsExact(blob: seq<byte>)
    ensures ReadHvc(blob).Some? <==> exists r: Hvc :: IsHvc(r) && HvcBytes(r) == blob
    ensures forall r: Hvc :: IsHvc(r) && HvcBytes(r) == blob ==> ReadHvc(blob) == Some(r)
  {
    hide ReadHvc, IsHvc, HvcBytes;
    if ReadHvc(blob).Some? {
      ReadHvcIsHvc(blob);
    }
    forall r: Hvc | IsHvc(r) && HvcBytes(r) == blob
      ensures ReadHvc(blob) == Some(r)
    {
      HvcIsRead(r);
    }
  }
}
