/** The decoder's configuration and the packets it assembles. The codec library itself is an input. */
module Decoders {
  import opened Wrappers
  import opened Words
  import opened NalStreams
  import opened DecoderConfig
  import opened AnnexB
  import opened Emulation

  // ---------------------------------------------------------------------
  // The configuration box inside an MP4 sample entry
  // ---------------------------------------------------------------------

  const AVCC: seq<byte> := [0x61, 0x76, 0x63, 0x43]
  const HVCC: seq<byte> := [0x68, 0x76, 0x63, 0x43]

  /** A box whose type stands at `i`: a 32-bit size that covers at least one byte of content and fits. */
  predicate BoxAt(blob: seq<byte>, i: nat, fourcc: seq<byte>) {
    && 4 <= i && i + 4 <= |blob| && blob[i..i + 4] == fourcc
    && 9 <= Word32(blob, i - 4) && i - 4 + Word32(blob, i - 4) <= |blob|
  }

  function Content(blob: seq<byte>, i: nat, fourcc: seq<byte>): seq<byte>
    requires BoxAt(blob, i, fourcc)
  {
    blob[i + 4..i - 4 + Word32(blob, i - 4)]
  }

  /** The first box of one type from position `i` on. */
  function FindBox(blob: seq<byte>, i: nat, fourcc: seq<byte>): Option<seq<byte>>
    decreases |blob| - i
  {
    if i + 4 > |blob| then None
    else if BoxAt(blob, i, fourcc) then Some(Content(blob, i, fourcc))
    else FindBox(blob, i + 1, fourcc)
  }

  /** An `avcC` box anywhere is preferred to any `hvcC` box. */
  function FindInner(blob: seq<byte>): Option<seq<byte>> {
    if FindBox(blob, 4, AVCC).Some? then FindBox(blob, 4, AVCC) else FindBox(blob, 4, HVCC)
  }

  method FindInnerConfigBox(blob: seq<byte>) returns (inner: Option<seq<byte>>)
    ensures inner == FindInner(blob)
  {
    var kinds := [AVCC, HVCC];
    var k := 0;
    while k < 2
      invariant 0 <= k <= 2
      invariant k >= 1 ==> FindBox(blob, 4, AVCC).None?
      invariant k == 2 ==> FindBox(blob, 4, HVCC).None?
    {
      var i := 4;
      while i + 4 <= |blob|
        invariant 4 <= i
        invariant FindBox(blob, 4, kinds[k]) == FindBox(blob, i, kinds[k])
        decreases |blob| - i
      {
        if blob[i..i + 4] == kinds[k] {
          var size := blob[i - 4] as int * 0x100_0000 + blob[i - 3] as int * 0x1_0000
                      + blob[i - 2] as int * 0x100 + blob[i - 1] as int;
          if size >= 9 && i - 4 + size <= |blob| {
            return Some(blob[i + 4..i - 4 + size]);
          }
        }
        i := i + 1;
      }
      k := k + 1;
    }
    return None;
  }

  lemma {:induction false} NoBoxBefore(blob: seq<byte>, i: nat, j: nat, fourcc: seq<byte>)
    requires i <= j && j + 4 <= |blob| && BoxAt(blob, j, fourcc)
    requires forall k :: i <= k < j ==> !BoxAt(blob, k, fourcc)
    ensures FindBox(blob, i, fourcc) == Some(Content(blob, j, fourcc))
    decreases j - i
  {
    if i < j {
      NoBoxBefore(blob, i + 1, j, fourcc);
    }
  }

  lemma {:induction false} NoBoxAtAll(blob: seq<byte>, i: nat, fourcc: seq<byte>)
    ensures FindBox(blob, i, fourcc).None? <==> forall k: nat :: i <= k ==> !BoxAt(blob, k, fourcc)
    decreases |blob| - i
  {
    if i + 4 <= |blob| {
      NoBoxAtAll(blob, i + 1, fourcc);
    }
  }

  function Box(fourcc: seq<byte>, content: seq<byte>): seq<byte>
    requires |content| + 8 < TWO32
  {
    Be32(|content| + 8) + fourcc + content
  }

  lemma BoxStands(before: seq<byte>, fourcc: seq<byte>, content: seq<byte>, after: seq<byte>)
    requires |fourcc| == 4 && content != [] && |content| + 8 < TWO32
    ensures var blob, i := before + (Box(fourcc, content) + after), |before| + 4;
            BoxAt(blob, i, fourcc) && Content(blob, i, fourcc) == content
  {
    hide Be32;
    var size := Be32(|content| + 8);
    var blob, i := before + (Box(fourcc, content) + after), |before| + 4;
    assert blob == before + (size + (fourcc + (content + after)));
    Word32OfBe32(|content| + 8);
    assert forall j :: 0 <= j < 4 ==> blob[|before| + j] == size[j];
    assert Word32(blob, i - 4) == Word32(size, 0);
    assert blob[i..i + 4] == fourcc;
    assert blob[i + 4..i + 4 + |content|] == content;
  }

  /** The two box types, spelled out. */
  lemma BoxTypes()
    ensures AVCC == ['a' as int, 'v' as int, 'c' as int, 'C' as int]
    ensures HVCC == ['h' as int, 'v' as int, 'c' as int, 'C' as int]
  {}

  /** A wrapped record is found unless bytes before it look like an earlier box of its type, or an `avcC` box exists. */
  lemma WrappedRecordIsFound(before: seq<byte>, fourcc: seq<byte>, content: seq<byte>, after: seq<byte>)
    requires fourcc == AVCC || fourcc == HVCC
    requires content != [] && |content| + 8 < TWO32
    ensures var blob := before + (Box(fourcc, content) + after);
            (forall k: nat :: k < |before| + 4 ==> !BoxAt(blob, k, fourcc))
            && (fourcc == HVCC ==> forall k: nat :: !BoxAt(blob, k, AVCC))
            ==> FindInner(blob) == Some(content)
  {
    hide BoxAt, Box;
    var blob, i := before + (Box(fourcc, content) + after), |before| + 4;
    BoxStands(before, fourcc, content, after);
    BoxFits(blob, i, fourcc);
    if (forall k: nat :: k < i ==> !BoxAt(blob, k, fourcc)) &&
       (fourcc == HVCC ==> forall k: nat :: !BoxAt(blob, k, AVCC)) {
      NoBoxBefore(blob, 4, i, fourcc);
      NoBoxAtAll(blob, 4, AVCC);
    }
  }

  lemma BoxFits(blob: seq<byte>, i: nat, fourcc: seq<byte>)
    requires BoxAt(blob, i, fourcc)
    ensures i + 4 <= |blob|
  {}

  // ---------------------------------------------------------------------
  // Parameter sets
  // ---------------------------------------------------------------------

  /** The cached sets of one codec; `units` lists them in the order they are sent. */
  datatype Sets = Sets(hevc: bool, vps: seq<seq<byte>>, sps: seq<seq<byte>>, pps: seq<seq<byte>>) {
    function Units(): seq<seq<byte>> {
      vps + sps + pps
    }
  }

  /** The record to read: the blob itself, or the box inside it. */
  function Record(blob: seq<byte>): Option<seq<byte>> {
    if |blob| < 7 then None
    else if blob[0] == 1 then Some(blob)
    else FindInner(blob)
  }

  /** The sets a record carries; `avcC` is tried first. */
  function SetsIn(record: seq<byte>): Option<Sets> {
    if ReadAvc(record).Some? then
      Some(Sets(false, [], [ReadAvc(record).value.sps[0]], [ReadAvc(record).value.pps[0]]))
    else if ReadHvc(record).Some? then
      var arrays := ReadHvc(record).value.arrays;
      Some(Sets(true, OfKind(arrays, VPS), OfKind(arrays, SPS), OfKind(arrays, PPS)))
    else None
  }

  function Configured(blob: seq<byte>): Option<Sets> {
    match Record(blob) case None => None case Some(record) => SetsIn(record)
  }

  /** How opening the codec ends: it is missing, or its context is gone, unusable or open. */
  datatype Opening = Missing | NoContext | Unusable | Opened

  class H264Decoder {
    var hevc: bool
    var hasContext: bool
    var vps: seq<byte>
    var sps: seq<byte>
    var pps: seq<byte>
    var packet: seq<byte>
    ghost var sets: Sets

    /** The cached bytes are the byte stream form of the sets of the last accepted record. */
    ghost predicate Valid()
      reads this
    {
      vps == Packet(sets.vps) && sps == Packet(sets.sps) && pps == Packet(sets.pps)
    }

    constructor ()
      ensures Valid() && !hevc && hasContext && sets == Sets(false, [], [], [])
    {
      hevc, hasContext := false, true;
      vps, sps, pps, packet := [], [], [], [];
      sets := Sets(false, [], [], []);
    }

    method Open(toHevc: bool, opening: Opening) returns (ok: bool)
      modifies this`hevc, this`hasContext
      ensures ok == opening.Opened?
      ensures hevc == if opening.Missing? then old(hevc) else toHevc
      ensures hasContext == if opening.Missing? then old(hasContext) else !opening.NoContext?
    {
      if opening.Missing? {
        return false;
      }
      hevc := toHevc;
      hasContext := !opening.NoContext?;
      return opening.Opened?;
    }

    /** Sets change together, and only when the record is accepted and its codec is open. */
    method SetParameterSets(blob: seq<byte>, opening: Opening) returns (ok: bool)
      requires Valid()
      modifies this`hevc, this`hasContext, this`vps, this`sps, this`pps, this`sets
      ensures Valid()
      ensures ok <==> Configured(blob).Some? && (Configured(blob).value.hevc == old(hevc) || opening.Opened?)
      ensures ok ==> sets == Configured(blob).value && hevc == sets.hevc
      ensures !ok ==> sets == old(sets)
      ensures var reopens := Configured(blob).Some? && Configured(blob).value.hevc != old(hevc) && !opening.Missing?;
              && hevc == (if reopens then Configured(blob).value.hevc else old(hevc))
              && hasContext == (if reopens then !opening.NoContext? else old(hasContext))
    {
      if |blob| < 7 {
        return false;
      }
      var record := blob;
      if record[0] != 1 {
        var inner := FindInnerConfigBox(blob);
        if inner.None? {
          return false;
        }
        record := inner.value;
        FoundIsNotEmpty(blob);
      }
      if record[0] != 1 {
        WrongVersion(record);
        return false;
      }
      var avc := ParseAvcc(record);
      if avc.Some? {
        if hevc {
          var isOpen := Open(false, opening);
          if !isOpen {
            return false;
          }
        }
        sets := SetsIn(record).value;
        vps, sps, pps := [], avc.value.0, avc.value.1;
        OneUnit(sets.sps[0]);
        OneUnit(sets.pps[0]);
        return true;
      }
      var hvc := ParseHvcc(record);
      if hvc.Some? {
        if !hevc {
          var isOpen := Open(true, opening);
          if !isOpen {
            return false;
          }
        }
        sets := SetsIn(record).value;
        vps, sps, pps := hvc.value.vps, hvc.value.sps, hvc.value.pps;
        return true;
      }
      return false;
    }

    /** The packet handed to the codec: a frame, behind the parameter sets when it is an IDR frame. */
    method Assemble(nalData: seq<byte>, isIdr: bool) returns (sent: bool)
      requires Valid()
      modifies this`packet
      ensures Valid() && (sent <==> hasContext && nalData != [])
      ensures !sent ==> packet == old(packet)
      ensures sent ==> packet == (if isIdr then Packet(sets.vps + sets.sps + sets.pps) else []) + nalData
    {
      if !hasContext {
        return false;
      }
      if nalData == [] {
        return false;
      }
      packet := [];
      if isIdr {
        if vps != [] {
          packet := packet + vps;
        }
        packet := packet + sps;
        packet := packet + pps;
        PacketConcat(sets.vps, sets.sps);
        PacketConcat(sets.vps + sets.sps, sets.pps);
        assert [] + vps == vps;
      }
      packet := packet + nalData;
      return true;
    }
  }

  lemma OneUnit(n: seq<byte>)
    ensures Packet([n]) == START_CODE + n && Packet([]) == []
  {
    assert [n][1..] == [];
    assert n + [] == n;
  }

  lemma {:induction false} FoundIsLong(blob: seq<byte>, i: nat, fourcc: seq<byte>)
    ensures FindBox(blob, i, fourcc).Some? ==> FindBox(blob, i, fourcc).value != []
    decreases |blob| - i
  {
    if i + 4 <= |blob| {
      FoundIsLong(blob, i + 1, fourcc);
    }
  }

  lemma FoundIsNotEmpty(blob: seq<byte>)
    ensures FindInner(blob).Some? ==> FindInner(blob).value != []
  {
    FoundIsLong(blob, 4, AVCC);
    FoundIsLong(blob, 4, HVCC);
  }

  lemma WrongVersion(record: seq<byte>)
    requires record != [] && record[0] != 1
    ensures SetsIn(record).None?
  {}

  // ---------------------------------------------------------------------
  // From records and frames to what the codec reads
  // ---------------------------------------------------------------------

  /** A raw avcC record configures its first SPS and PPS. */
  lemma AvcConfigures(r: Avc)
    requires IsAvc(r)
    ensures Configured(AvcBytes(r)) == Some(Sets(false, [], [r.sps[0]], [r.pps[0]]))
  {
    hide ReadAvc, ReadHvc, Stored;
    AvcIsRead(r);
    AvcIsLong(AvcBytes(r));
    assert AvcBytes(r)[0] == r.head[0];
  }

  lemma AvcIsLong(blob: seq<byte>)
    ensures ReadAvc(blob).Some? ==> |blob| >= 7
  {}

  function HvcSets(r: Hvc): Sets {
    Sets(true, OfKind(r.arrays, VPS), OfKind(r.arrays, SPS), OfKind(r.arrays, PPS))
  }

  /**
    A raw hvcC record configures its own sets if and only if it cannot be read as an avcC record,
    as whose sets it is taken otherwise. It cannot when the five bits an avcC keeps its SPS
    count in are zero.
   */
  lemma HvcConfigures(r: Hvc)
    requires IsHvc(r)
    ensures Configured(HvcBytes(r)) == Some(HvcSets(r)) <==> ReadAvc(HvcBytes(r)).None?
    ensures ReadAvc(HvcBytes(r)).Some? ==>
              var avc := ReadAvc(HvcBytes(r)).value;
              Configured(HvcBytes(r)) == Some(Sets(false, [], [avc.sps[0]], [avc.pps[0]]))
    ensures r.head[5] % 32 == 0 ==> ReadAvc(HvcBytes(r)).None?
  {
    hide ReadHvc, OfKind, ArraysBytes, ReadSets;
    HvcIsRead(r);
    var blob := HvcBytes(r);
    assert blob[0] == r.head[0] && blob[5] == r.head[5];
  }

  /** Array types 32, 33 and 34 hold the video, sequence and picture sets; other bits of the type byte do not count. */
  lemma ArraysByType(r: Hvc, a: SetArray, b: SetArray, c: SetArray)
    requires IsHvc(r) && r.arrays == [a, b, c]
    requires a.header % 64 == 32 && b.header % 64 == 33 && c.header % 64 == 34
    requires a.sets != [] && b.sets != [] && c.sets != []
    ensures HvcSets(r) == Sets(true, [a.sets[0]], [b.sets[0]], [c.sets[0]])
  {
    var rest := [b, c];
    assert r.arrays[1..] == rest && rest[1..] == [c] && [c][1..] == [];
    assert OfKind([], VPS) == OfKind([], SPS) == OfKind([], PPS) == [];
    assert OfKind([c], VPS) == [] && OfKind([c], SPS) == [] && OfKind([c], PPS) == [c.sets[0]];
    assert OfKind(rest, VPS) == [] && OfKind(rest, SPS) == [b.sets[0]] && OfKind(rest, PPS) == [c.sets[0]];
  }

  lemma OneSetIsRead(s: seq<byte>, n: nat)
    requires n == 1 && HasSet(s)
    ensures ReadSets(s, n) == Some(([FirstSet(s)], AfterSet(s)))
  {
    var rest := AfterSet(s);
    assert ReadSets(rest, n - 1) == Some(([], rest));
    assert [FirstSet(s)] + [] == [FirstSet(s)];
  }

  /** Header bytes that spell a list of one SPS and one PPS make an hvcC record pass for an avcC. */
  lemma HvcReadAsAvc(r: Hvc)
    requires IsHvc(r) && r.head[5] == r.head[7] == r.head[9] == r.head[11] == 1 && r.head[6] == r.head[10] == 0
    ensures Configured(HvcBytes(r)) == Some(Sets(false, [], [[r.head[8]]], [[r.head[12]]]))
  {
    hide ReadHvc, OfKind, ArraysBytes, ReadSets;
    var blob := HvcBytes(r);
    assert blob[..22] == r.head;
    var s := blob[6..];
    assert Word16(s, 0) == 1;
    OneSetIsRead(s, 1);
    var t := AfterSet(s)[1..];
    assert AfterSet(s) == blob[9..] && t == blob[10..];
    assert Word16(t, 0) == 1;
    OneSetIsRead(t, 1);
    HvcConfigures(r);
    assert ReadAvc(blob).Some?;
    assert FirstSet(s) == [r.head[8]] && FirstSet(t) == [r.head[12]];
  }

  /**
    Main result: an IDR packet made of cached sets and a converted frame, none of
    them holding a start code, is read back as exactly these units, the video sets first,
    then the sequence sets, the picture sets and the frame, if and only if no unit but the
    last ends in a zero byte.
   */
  lemma IdrPacketIsReadBack(sets: Sets, frame: seq<Nal>)
    requires AllFree(sets.vps + sets.sps + sets.pps + frame)
    ensures Split(Packet(sets.Units()) + Packet(frame)) == sets.vps + sets.sps + sets.pps + frame
            <==> Separable(sets.vps + sets.sps + sets.pps + frame)
  {
    PacketConcat(sets.Units(), frame);
    SplitPacket(sets.Units() + frame);
  }

  /** Start codes occur in an IDR packet only where one of its units begins. */
  lemma IdrStartCodes(sets: Sets, frame: seq<Nal>, i: nat)
    requires AllFree(sets.Units() + frame)
    ensures PrefixAt(Packet(sets.Units()) + Packet(frame), i) <==> IsUnitStart(sets.Units() + frame, i)
  {
    PacketConcat(sets.Units(), frame);
    PrefixOnlyAtUnits(sets.Units() + frame, i);
  }

  /** Where a unit came from: its header byte and its payload before escaping. */
  datatype Source = Source(header: byte, rbsp: seq<byte>)

  predicate AllEncoded(nals: seq<seq<byte>>, sources: seq<Source>) {
    |sources| == |nals|
    && forall i :: 0 <= i < |nals| ==> Encoded(nals[i], sources[i].header, sources[i].rbsp)
  }

  /**
    End to end: when an encoder made the parameter sets and the NAL units of a
    length-prefixed frame, the codec reads exactly the sets followed by the frame's units.
   */
  lemma EncodedFrameIsReadBack(sets: Sets, frame: seq<Nal>, sources: seq<Source>)
    requires AllEncoded(sets.Units() + frame, sources)
    ensures Nals(Avcc(frame)) == frame && Tail(Avcc(frame)) == []
    ensures Split(Packet(sets.Units()) + Packet(Nals(Avcc(frame)))) == sets.Units() + frame
  {
    var all := sets.Units() + frame;
    forall i | 0 <= i < |all|
      ensures StartCodeFree(all[i]) && !EndsInZero(all[i])
    {
      EncodedUnits(all[i], sources[i].header, sources[i].rbsp);
    }
    SucceedsExactlyOnAvcc(Avcc(frame));
    IdrPacketIsReadBack(sets, frame);
  }
}
