/**
  The sequence parameter set: the syntax of section 7.3.2.1.1 of ITU-T H.264
  as a printer, and the receiver's parser.
 */
module Sps {
  import opened Words
  import opened Wrappers
  import opened Bits
  import opened BitReaders
  import Emulation

  // ---------------------------------------------------------------------
  // The parser
  // ---------------------------------------------------------------------

  datatype SpsInfo = SpsInfo(profile: byte, level: byte, width: u32, height: u32, interlaced: bool)

  const NO_INFO := SpsInfo(0, 0, 0, 0, false)

  predicate HasChromaExt(p: byte) {
    || p == 100 || p == 110 || p == 122 || p == 244 || p == 44 || p == 83 || p == 86
    || p == 118 || p == 128 || p == 138 || p == 139 || p == 134 || p == 135
  }

  /** One step of a scaling list; `next == 0` ends the explicit part. */
  function SkipScale(r: Reader, last: int, next: int): (int, Reader) {
    if next == 0 then (0, r)
    else
      var (delta, r1) := ReadSe(r);
      (TruncMod(last + delta + 256, 256), r1)
  }

  function SkipList(r: Reader, n: nat, last: int, next: int): Reader
    decreases n
  {
    if n == 0 || r.error then r
    else
      var (after, r1) := SkipScale(r, last, next);
      SkipList(r1, n - 1, if after != 0 then after else last, after)
  }

  function ListSize(i: nat): nat {
    if i < 6 then 16 else 64
  }

  function SkipOneList(r: Reader, i: nat): Reader {
    var (present, r1) := ReadBit(r);
    if present then SkipList(r1, ListSize(i), 8, 8) else r1
  }

  function SkipLists(r: Reader, i: nat, count: nat): Reader
    decreases count - i
  {
    if i >= count || r.error then r else SkipLists(SkipOneList(r, i), i + 1, count)
  }

  function ListCount(chroma: int): nat {
    if chroma != 3 then 8 else 12
  }

  function SkipMatrix(r: Reader, chroma: int): Reader {
    var (present, r1) := ReadBit(r);
    if present then SkipLists(r1, 0, ListCount(chroma)) else r1
  }

  /** The chroma and bit-depth extension of the high profiles. */
  function SkipChroma(r: Reader): Reader {
    var (chroma, r1) := ReadUe(r);
    var r2 := if chroma == 3 then ReadBit(r1).1 else r1;
    var r3 := ReadUe(r2).1;
    var r4 := ReadUe(r3).1;
    SkipMatrix(ReadBit(r4).1, chroma)
  }

  function SkipOffsets(r: Reader, n: nat): Reader
    decreases n
  {
    if n == 0 || r.error then r else SkipOffsets(ReadSe(r).1, n - 1)
  }

  function SkipCycle(r: Reader): Reader {
    var r1 := ReadBit(r).1;
    var r2 := ReadSe(r1).1;
    var r3 := ReadSe(r2).1;
    var (n, r4) := ReadUe(r3);
    SkipOffsets(r4, n)
  }

  /** The picture order count part. */
  function SkipOrder(r: Reader): Reader {
    var (kind, r1) := ReadUe(r);
    if kind == 0 then ReadUe(r1).1 else if kind == 1 then SkipCycle(r1) else r1
  }

  datatype Crop = Crop(left: nat, right: nat, top: nat, bottom: nat)

  datatype Frame = Frame(width: nat, height: nat, frameMbsOnly: bool, cropping: bool, crop: Crop)

  function ReadCrop(r: Reader): (Crop, Reader) {
    var (a, r1) := ReadUe(r);
    var (b, r2) := ReadUe(r1);
    var (c, r3) := ReadUe(r2);
    var (d, r4) := ReadUe(r3);
    (Crop(a, b, c, d), r4)
  }

  function ReadCropping(r: Reader): ((bool, Crop), Reader) {
    var (present, r1) := ReadBit(r);
    if present then
      var (c, r2) := ReadCrop(r1);
      ((true, c), r2)
    else ((false, Crop(0, 0, 0, 0)), r1)
  }

  /** `num_ref_frames`, the gaps flag, the size in macroblocks and the frame/field flags. */
  function ReadSize(r: Reader): ((nat, nat, bool), Reader) {
    var r1 := ReadUe(r).1;
    var r2 := ReadBit(r1).1;
    var (w, r3) := ReadUe(r2);
    var (h, r4) := ReadUe(r3);
    var (only, r5) := ReadBit(r4);
    var r6 := if only then r5 else ReadBit(r5).1;
    ((w, h, only), ReadBit(r6).1)
  }

  function ReadFrame(r: Reader): (Frame, Reader) {
    var ((w, h, only), r1) := ReadSize(r);
    var ((cropping, crop), r2) := ReadCropping(r1);
    (Frame(w, h, only, cropping, crop), r2)
  }

  function SkipExtension(r: Reader, profile: byte): Reader {
    if HasChromaExt(profile) then SkipChroma(r) else r
  }

  /** Everything after the level. */
  function ReadBody(r: Reader, profile: byte): (Frame, Reader) {
    var r1 := SkipExtension(ReadUe(r).1, profile);
    ReadFrame(SkipOrder(ReadUe(r1).1))
  }

  /** The 32-bit arithmetic of the frame size in one direction; `fields` is 2 for a field-coded height. */
  function Cropped(mbsMinus1: int, fields: int, cropping: bool, cropSum: int): u32 {
    var size := Wrap32(Wrap32(mbsMinus1 + 1) * 16 * fields);
    var cut := if cropping then Wrap32(2 * Wrap32(cropSum) * fields) else 0;
    if size > cut then size - cut else size
  }

  function FrameWidth(f: Frame): u32 {
    Cropped(f.width, 1, f.cropping, f.crop.left + f.crop.right)
  }

  function FrameHeight(f: Frame): u32 {
    Cropped(f.height, if f.frameMbsOnly then 1 else 2, f.cropping, f.crop.top + f.crop.bottom)
  }

  function ParseRbsp(rbsp: seq<byte>): (bool, SpsInfo) {
    if |rbsp| < 3 then (false, NO_INFO)
    else
      var (f, r) := ReadBody(Reader(BitsOf(rbsp[3..]), 0, false), rbsp[0]);
      if r.error then (false, NO_INFO.(profile := rbsp[0], level := rbsp[2]))
      else (true, SpsInfo(rbsp[0], rbsp[2], FrameWidth(f), FrameHeight(f), !f.frameMbsOnly))
  }

  function Parse(sps: seq<byte>): (bool, SpsInfo) {
    if |sps| < 4 || sps[0] % 32 != 7 then (false, NO_INFO) else ParseRbsp(Emulation.Remove(sps[1..]))
  }

  // ---------------------------------------------------------------------
  // The parser as it runs
  // ---------------------------------------------------------------------

  method SkipScalingList(br: BitReader, size: nat)
    modifies br
    ensures br.State() == SkipList(old(br.State()), size, 8, 8)
  {
    var last, next := 8, 8;
    var j := 0;
    while j < size && !br.error
      invariant 0 <= j <= size
      invariant SkipList(br.State(), size - j, last, next) == SkipList(old(br.State()), size, 8, 8)
    {
      if next != 0 {
        var delta := br.Se();
        next := TruncMod(last + delta + 256, 256);
      }
      last := if next != 0 then next else last;
      j := j + 1;
    }
  }

  method SkipScalingMatrix(br: BitReader, chroma: int)
    modifies br
    ensures br.State() == SkipMatrix(old(br.State()), chroma)
  {
    var present := br.U1();
    if present {
      var count := if chroma != 3 then 8 else 12;
      ghost var start := br.State();
      var i := 0;
      while i < count && !br.error
        invariant 0 <= i <= count
        invariant SkipLists(br.State(), i, count) == SkipLists(start, 0, count)
      {
        var listed := br.U1();
        if listed {
          SkipScalingList(br, if i < 6 then 16 else 64);
        }
        i := i + 1;
      }
    }
  }

  method SkipChromaExt(br: BitReader)
    modifies br
    ensures br.State() == SkipChroma(old(br.State()))
  {
    var chroma := br.Ue();
    if chroma == 3 {
      var _ := br.U1();
    }
    var _ := br.Ue();
    var _ := br.Ue();
    var _ := br.U1();
    SkipScalingMatrix(br, chroma);
  }

  method SkipOrderCount(br: BitReader)
    modifies br
    ensures br.State() == SkipOrder(old(br.State()))
  {
    var kind := br.Ue();
    if kind == 0 {
      var _ := br.Ue();
    } else if kind == 1 {
      var _ := br.U1();
      var _ := br.Se();
      var _ := br.Se();
      var n := br.Ue();
      ghost var start := br.State();
      var i := 0;
      while i < n && !br.error
        invariant 0 <= i <= n
        invariant SkipOffsets(br.State(), n - i) == SkipOffsets(start, n)
      {
        var _ := br.Se();
        i := i + 1;
      }
    }
  }

  method ReadFrameFields(br: BitReader) returns (f: Frame)
    modifies br
    ensures (f, br.State()) == ReadFrame(old(br.State()))
  {
    var _ := br.Ue();
    var _ := br.U1();
    var w := br.Ue();
    var h := br.Ue();
    var only := br.U1();
    if !only {
      var _ := br.U1();
    }
    var _ := br.U1();
    assert ((w, h, only), br.State()) == ReadSize(old(br.State()));
    var cropping := br.U1();
    var a, b, c, d := 0, 0, 0, 0;
    if cropping {
      a := br.Ue();
      b := br.Ue();
      c := br.Ue();
      d := br.Ue();
    }
    f := Frame(w, h, only, cropping, Crop(a, b, c, d));
  }

  /** `compute_frame_size`. */
  method ComputeFrameSize(f: Frame) returns (w: u32, h: u32)
    ensures w == FrameWidth(f) && h == FrameHeight(f)
  {
    var wMb: int, hMb: int := Wrap32(Wrap32(f.width + 1) * 16), Wrap32(Wrap32(f.height + 1) * 16);
    if !f.frameMbsOnly {
      DoubleWrap(Wrap32(f.height + 1) * 16);
      hMb := Wrap32(hMb * 2);
    }
    var cropX := Wrap32(2 * Wrap32(f.crop.left + f.crop.right));
    var cropY := Wrap32(2 * Wrap32(f.crop.top + f.crop.bottom) * if f.frameMbsOnly then 1 else 2);
    if !f.cropping {
      cropX, cropY := 0, 0;
    }
    w := if wMb > cropX then wMb - cropX else wMb;
    h := if hMb > cropY then hMb - cropY else hMb;
  }

  lemma DoubleWrap(x: int)
    ensures Wrap32(Wrap32(x) * 2) == Wrap32(x * 2)
  {
    hide Wrap32;
    WrapAdd(x, Wrap32(x));
    WrapAdd(x, x);
  }

  method ParseH264Sps(sps: seq<byte>) returns (ok: bool, out: SpsInfo)
    ensures (ok, out) == Parse(sps)
  {
    out := NO_INFO;
    if |sps| < 4 {
      return false, out;
    }
    if sps[0] % 32 != 7 {
      return false, out;
    }
    var rbsp := Emulation.EbspToRbsp(sps[1..]);
    if |rbsp| < 3 {
      return false, out;
    }
    out := out.(profile := rbsp[0], level := rbsp[2]);
    var br := new BitReader(rbsp[3..]);
    var _ := br.Ue();
    if HasChromaExt(out.profile) {
      SkipChromaExt(br);
    }
    var _ := br.Ue();
    SkipOrderCount(br);
    var f := ReadFrameFields(br);
    if br.error {
      return false, out;
    }
    var w, h := ComputeFrameSize(f);
    out := out.(width := w, height := h, interlaced := !f.frameMbsOnly);
    ok := true;
  }

  // ---------------------------------------------------------------------
  // Reading a cut bit string
  // ---------------------------------------------------------------------

  /** Reading only goes forward, and an error stays. */
  predicate Grows(r: Reader, s: Reader) {
    s.bits == r.bits && r.pos <= s.pos && (r.error ==> s.error)
  }

  /** `t` is where a reader of the first `n` bits is when a reader of all of them is at `s`. */
  predicate Agrees(s: Reader, t: Reader, n: nat) {
    && n <= |s.bits| && t.bits == s.bits[..n]
    && (t.error <==> s.error || s.pos > n)
    && (!t.error ==> t.pos == s.pos)
  }

  /** The two readers stay so, and read the same as long as the second has bits. */
  predicate SameRead<T(==)>(x: T, s: Reader, y: T, t: Reader, n: nat) {
    Agrees(s, t, n) && (!t.error ==> x == y)
  }

  lemma BitGrows(r: Reader)
    ensures Grows(r, ReadBit(r).1)
  {}

  lemma BitCut(s: Reader, t: Reader, n: nat)
    requires Agrees(s, t, n)
    ensures SameRead(ReadBit(s).0, ReadBit(s).1, ReadBit(t).0, ReadBit(t).1, n)
  {}

  lemma {:induction false} BitsFromGrows(r: Reader, k: nat, v: u32)
    ensures Grows(r, ReadBitsFrom(r, k, v).1)
    decreases k
  {
    if k > 0 {
      var (b, next) := ReadBit(r);
      if !next.error {
        BitsFromGrows(next, k - 1, Wrap32(2 * v + Flag(b)));
      }
    }
  }

  lemma {:induction false} BitsFromCut(s: Reader, t: Reader, n: nat, k: nat, v: u32)
    requires Agrees(s, t, n)
    ensures var (x, s'), (y, t') := ReadBitsFrom(s, k, v), ReadBitsFrom(t, k, v);
            SameRead(x, s', y, t', n)
    decreases k
  {
    if k > 0 {
      hide Wrap32;
      BitCut(s, t, n);
      var (b, s1) := ReadBit(s);
      var t1 := ReadBit(t).1;
      if !t1.error {
        BitsFromCut(s1, t1, n, k - 1, Wrap32(2 * v + Flag(b)));
      } else {
        BitsFromGrows(s, k, v);
        if !s1.error {
          BitsFromGrows(s1, k - 1, Wrap32(2 * v + Flag(b)));
        }
      }
    }
  }

  lemma {:induction false} CountGrows(r: Reader, zeros: nat)
    requires zeros <= 32
    ensures Grows(r, CountZeros(r, zeros).1)
    decreases 32 - zeros
  {
    var (b, next) := ReadBit(r);
    if !(b || next.error || zeros >= 32) {
      CountGrows(next, zeros + 1);
    }
  }

  lemma {:induction false} CountCut(s: Reader, t: Reader, n: nat, zeros: nat)
    requires Agrees(s, t, n) && zeros <= 32
    ensures SameRead(CountZeros(s, zeros).0, CountZeros(s, zeros).1, CountZeros(t, zeros).0, CountZeros(t, zeros).1, n)
    decreases 32 - zeros
  {
    BitCut(s, t, n);
    var (b, s1) := ReadBit(s);
    var t1 := ReadBit(t).1;
    if t1.error {
      if !(b || s1.error || zeros >= 32) {
        CountGrows(s1, zeros + 1);
      }
    } else if !(b || s1.error || zeros >= 32) {
      CountCut(s1, t1, n, zeros + 1);
    }
  }

  lemma SuffixGrows(r: Reader, zeros: nat)
    ensures Grows(r, ReadSuffix(r, zeros).1)
  {
    hide ReadBitsFrom, Pow2, Wrap32;
    BitsFromGrows(r, zeros, 0);
  }

  lemma SuffixCut(s: Reader, t: Reader, n: nat, zeros: nat)
    requires Agrees(s, t, n)
    ensures SameRead(ReadSuffix(s, zeros).0, ReadSuffix(s, zeros).1, ReadSuffix(t, zeros).0, ReadSuffix(t, zeros).1, n)
  {
    hide ReadBitsFrom, Pow2, Wrap32;
    BitsFromCut(s, t, n, zeros, 0);
  }

  lemma UeGrows(r: Reader)
    ensures Grows(r, ReadUe(r).1)
  {
    hide CountZeros, ReadSuffix, Wrap32, Pow2;
    CountGrows(r, 0);
    var (zeros, r1) := CountZeros(r, 0);
    SuffixGrows(r1, zeros);
  }

  lemma UeCut(s: Reader, t: Reader, n: nat)
    requires Agrees(s, t, n)
    ensures SameRead(ReadUe(s).0, ReadUe(s).1, ReadUe(t).0, ReadUe(t).1, n)
  {
    hide CountZeros, ReadSuffix, Wrap32, Pow2;
    CountCut(s, t, n, 0);
    var (zeros, s1) := CountZeros(s, 0);
    var t1 := CountZeros(t, 0).1;
    SuffixGrows(s1, zeros);
    if !t1.error {
      SuffixCut(s1, t1, n, zeros);
    }
  }

  lemma SeGrows(r: Reader)
    ensures Grows(r, ReadSe(r).1)
  {
    hide ReadUe;
    UeGrows(r);
  }

  lemma SeCut(s: Reader, t: Reader, n: nat)
    requires Agrees(s, t, n)
    ensures SameRead(ReadSe(s).0, ReadSe(s).1, ReadSe(t).0, ReadSe(t).1, n)
  {
    hide ReadUe;
    UeCut(s, t, n);
  }

  lemma ScaleGrows(r: Reader, last: int, next: int)
    ensures Grows(r, SkipScale(r, last, next).1)
  {
    hide ReadSe, TruncMod;
    SeGrows(r);
  }

  lemma ScaleCut(s: Reader, t: Reader, n: nat, last: int, next: int)
    requires Agrees(s, t, n)
    ensures var (x, s'), (y, t') := SkipScale(s, last, next), SkipScale(t, last, next);
            SameRead(x, s', y, t', n)
  {
    hide ReadSe, TruncMod;
    SeCut(s, t, n);
  }

  lemma {:induction false} ListGrows(r: Reader, k: nat, last: int, next: int)
    ensures Grows(r, SkipList(r, k, last, next))
    decreases k
  {
    hide SkipScale;
    if k > 0 && !r.error {
      var (after, r1) := SkipScale(r, last, next);
      ScaleGrows(r, last, next);
      ListGrows(r1, k - 1, if after != 0 then after else last, after);
    }
  }

  lemma {:induction false} ListCut(s: Reader, t: Reader, n: nat, k: nat, last: int, next: int)
    requires Agrees(s, t, n)
    ensures Agrees(SkipList(s, k, last, next), SkipList(t, k, last, next), n)
    decreases k
  {
    hide SkipScale;
    ListGrows(s, k, last, next);
    if k > 0 && !t.error {
      var (after, s1) := SkipScale(s, last, next);
      var (after', t1) := SkipScale(t, last, next);
      ScaleCut(s, t, n, last, next);
      if t1.error {
        ScaleGrows(s, last, next);
        ListGrows(s1, k - 1, if after != 0 then after else last, after);
        ListGrows(t1, k - 1, if after' != 0 then after' else last, after');
      } else {
        ListCut(s1, t1, n, k - 1, if after != 0 then after else last, after);
      }
    }
  }

  lemma OneListGrows(r: Reader, i: nat)
    ensures Grows(r, SkipOneList(r, i))
  {
    hide SkipList;
    ListGrows(ReadBit(r).1, ListSize(i), 8, 8);
  }

  lemma OneListCut(s: Reader, t: Reader, n: nat, i: nat)
    requires Agrees(s, t, n)
    ensures Agrees(SkipOneList(s, i), SkipOneList(t, i), n)
  {
    hide SkipList;
    var s1, t1 := ReadBit(s).1, ReadBit(t).1;
    BitCut(s, t, n);
    ListGrows(s1, ListSize(i), 8, 8);
    ListGrows(t1, ListSize(i), 8, 8);
    ListCut(s1, t1, n, ListSize(i), 8, 8);
  }

  lemma {:induction false} ListsGrows(r: Reader, i: nat, count: nat)
    ensures Grows(r, SkipLists(r, i, count))
    decreases if i < count then count - i else 0
  {
    hide SkipOneList;
    if i < count && !r.error {
      OneListGrows(r, i);
      ListsGrows(SkipOneList(r, i), i + 1, count);
    }
  }

  lemma {:induction false} ListsCut(s: Reader, t: Reader, n: nat, i: nat, count: nat)
    requires Agrees(s, t, n)
    ensures Agrees(SkipLists(s, i, count), SkipLists(t, i, count), n)
    decreases if i < count then count - i else 0
  {
    hide SkipOneList;
    if i < count && !t.error {
      OneListCut(s, t, n, i);
      ListsCut(SkipOneList(s, i), SkipOneList(t, i), n, i + 1, count);
    } else if i < count {
      ListsGrows(s, i, count);
    }
  }

  lemma MatrixGrows(r: Reader, chroma: int)
    ensures Grows(r, SkipMatrix(r, chroma))
  {
    hide SkipLists;
    ListsGrows(ReadBit(r).1, 0, ListCount(chroma));
  }

  lemma MatrixCut(s: Reader, t: Reader, n: nat, chroma: int)
    requires Agrees(s, t, n)
    ensures Agrees(SkipMatrix(s, chroma), SkipMatrix(t, chroma), n)
  {
    hide SkipLists;
    var s1, t1 := ReadBit(s).1, ReadBit(t).1;
    BitCut(s, t, n);
    ListsGrows(s1, 0, ListCount(chroma));
    ListsGrows(t1, 0, ListCount(chroma));
    ListsCut(s1, t1, n, 0, ListCount(chroma));
  }

  lemma {:induction false} OffsetsGrows(r: Reader, k: nat)
    ensures Grows(r, SkipOffsets(r, k))
    decreases k
  {
    hide ReadSe;
    if k > 0 && !r.error {
      SeGrows(r);
      OffsetsGrows(ReadSe(r).1, k - 1);
    }
  }

  lemma {:induction false} OffsetsCut(s: Reader, t: Reader, n: nat, k: nat)
    requires Agrees(s, t, n)
    ensures Agrees(SkipOffsets(s, k), SkipOffsets(t, k), n)
    decreases k
  {
    hide ReadSe;
    if k > 0 && !t.error {
      SeCut(s, t, n);
      OffsetsCut(ReadSe(s).1, ReadSe(t).1, n, k - 1);
    } else if k > 0 {
      OffsetsGrows(s, k);
    }
  }

  /** Four flags and numbers in front of the matrix: `separate_colour_plane_flag` only when there are three planes. */
  function SkipDepths(r: Reader, chroma: int): Reader {
    var r2 := if chroma == 3 then ReadBit(r).1 else r;
    ReadBit(ReadUe(ReadUe(r2).1).1).1
  }

  lemma DepthsGrows(r: Reader, chroma: int)
    ensures Grows(r, SkipDepths(r, chroma))
  {
    hide ReadUe;
    var r2 := if chroma == 3 then ReadBit(r).1 else r;
    UeGrows(r2);
    UeGrows(ReadUe(r2).1);
  }

  lemma DepthsCut(s: Reader, t: Reader, n: nat, chroma: int)
    requires Agrees(s, t, n)
    ensures Agrees(SkipDepths(s, chroma), SkipDepths(t, chroma), n)
  {
    hide ReadUe;
    var s2, t2 := if chroma == 3 then ReadBit(s).1 else s, if chroma == 3 then ReadBit(t).1 else t;
    BitCut(s, t, n);
    UeCut(s2, t2, n);
    UeCut(ReadUe(s2).1, ReadUe(t2).1, n);
    BitCut(ReadUe(ReadUe(s2).1).1, ReadUe(ReadUe(t2).1).1, n);
  }

  lemma ChromaInTwo(r: Reader)
    ensures var (chroma, r1) := ReadUe(r);
            SkipChroma(r) == SkipMatrix(SkipDepths(r1, chroma), chroma)
  {
    hide ReadUe, SkipMatrix;
  }

  lemma ChromaGrows(r: Reader)
    ensures Grows(r, SkipChroma(r))
  {
    hide ReadUe, SkipDepths, SkipMatrix, SkipChroma;
    var (chroma, r1) := ReadUe(r);
    ChromaInTwo(r);
    UeGrows(r);
    DepthsGrows(r1, chroma);
    MatrixGrows(SkipDepths(r1, chroma), chroma);
  }

  lemma ChromaGrowsOn(r: Reader)
    ensures Grows(ReadUe(r).1, SkipChroma(r))
  {
    hide ReadUe, SkipDepths, SkipMatrix, SkipChroma;
    var (chroma, r1) := ReadUe(r);
    ChromaInTwo(r);
    DepthsGrows(r1, chroma);
    MatrixGrows(SkipDepths(r1, chroma), chroma);
  }

  lemma ChromaCut(s: Reader, t: Reader, n: nat)
    requires Agrees(s, t, n)
    ensures Agrees(SkipChroma(s), SkipChroma(t), n)
  {
    hide ReadUe, SkipDepths, SkipMatrix, SkipChroma;
    var (chroma, s1) := ReadUe(s);
    var t1 := ReadUe(t).1;
    UeCut(s, t, n);
    if t1.error {
      UeGrows(s);
      UeGrows(t);
      ChromaGrowsOn(s);
      ChromaGrowsOn(t);
    } else {
      ChromaInTwo(s);
      ChromaInTwo(t);
      DepthsCut(s1, t1, n, chroma);
      MatrixCut(SkipDepths(s1, chroma), SkipDepths(t1, chroma), n, chroma);
    }
  }

  lemma CycleGrowsOn(r: Reader)
    ensures Grows(ReadUe(ReadSe(ReadSe(ReadBit(r).1).1).1).1, SkipCycle(r))
  {
    hide ReadUe, ReadSe, SkipOffsets;
    var (k, r4) := ReadUe(ReadSe(ReadSe(ReadBit(r).1).1).1);
    OffsetsGrows(r4, k);
  }

  lemma CycleGrows(r: Reader)
    ensures Grows(r, SkipCycle(r))
  {
    hide ReadUe, ReadSe, SkipOffsets;
    CycleGrowsOn(r);
    var r1 := ReadBit(r).1;
    SeGrows(r1);
    SeGrows(ReadSe(r1).1);
    UeGrows(ReadSe(ReadSe(r1).1).1);
  }

  lemma CycleCut(s: Reader, t: Reader, n: nat)
    requires Agrees(s, t, n)
    ensures Agrees(SkipCycle(s), SkipCycle(t), n)
  {
    hide ReadUe, ReadSe, SkipOffsets;
    var s1, t1 := ReadBit(s).1, ReadBit(t).1;
    var s3, t3 := ReadSe(ReadSe(s1).1).1, ReadSe(ReadSe(t1).1).1;
    BitCut(s, t, n);
    SeCut(s1, t1, n);
    SeCut(ReadSe(s1).1, ReadSe(t1).1, n);
    UeCut(s3, t3, n);
    if ReadUe(t3).1.error {
      CycleGrowsOn(s);
      CycleGrowsOn(t);
    } else {
      OffsetsCut(ReadUe(s3).1, ReadUe(t3).1, n, ReadUe(s3).0);
    }
  }

  lemma OrderGrowsOn(r: Reader)
    ensures Grows(ReadUe(r).1, SkipOrder(r))
  {
    hide ReadUe, SkipCycle;
    UeGrows(ReadUe(r).1);
    CycleGrows(ReadUe(r).1);
  }

  lemma OrderGrows(r: Reader)
    ensures Grows(r, SkipOrder(r))
  {
    hide ReadUe, SkipCycle;
    OrderGrowsOn(r);
    UeGrows(r);
  }

  lemma OrderCut(s: Reader, t: Reader, n: nat)
    requires Agrees(s, t, n)
    ensures Agrees(SkipOrder(s), SkipOrder(t), n)
  {
    hide ReadUe, SkipCycle;
    var s1, t1 := ReadUe(s).1, ReadUe(t).1;
    UeCut(s, t, n);
    if t1.error {
      OrderGrowsOn(s);
      OrderGrowsOn(t);
    } else {
      UeCut(s1, t1, n);
      CycleCut(s1, t1, n);
    }
  }

  lemma CropGrows(r: Reader)
    ensures Grows(r, ReadCrop(r).1)
  {
    hide ReadUe;
    UeGrows(r);
    UeGrows(ReadUe(r).1);
    UeGrows(ReadUe(ReadUe(r).1).1);
    UeGrows(ReadUe(ReadUe(ReadUe(r).1).1).1);
  }

  lemma CropCut(s: Reader, t: Reader, n: nat)
    requires Agrees(s, t, n)
    ensures SameRead(ReadCrop(s).0, ReadCrop(s).1, ReadCrop(t).0, ReadCrop(t).1, n)
  {
    hide ReadUe;
    var s1, t1 := ReadUe(s).1, ReadUe(t).1;
    var s2, t2 := ReadUe(s1).1, ReadUe(t1).1;
    var s3, t3 := ReadUe(s2).1, ReadUe(t2).1;
    UeCut(s, t, n);
    UeCut(s1, t1, n);
    UeCut(s2, t2, n);
    UeCut(s3, t3, n);
    UeGrows(t1);
    UeGrows(t2);
    UeGrows(t3);
  }

  lemma CroppingGrows(r: Reader)
    ensures Grows(r, ReadCropping(r).1)
  {
    hide ReadCrop;
    CropGrows(ReadBit(r).1);
  }

  lemma CroppingCut(s: Reader, t: Reader, n: nat)
    requires Agrees(s, t, n)
    ensures SameRead(ReadCropping(s).0, ReadCropping(s).1, ReadCropping(t).0, ReadCropping(t).1, n)
  {
    hide ReadCrop;
    var s1, t1 := ReadBit(s).1, ReadBit(t).1;
    BitCut(s, t, n);
    CropGrows(s1);
    CropGrows(t1);
    CropCut(s1, t1, n);
  }

  /** The last two flags of the size part, one of them only for fields. */
  function SkipFlags(r: Reader, only: bool): Reader {
    ReadBit(if only then r else ReadBit(r).1).1
  }

  function ReadNumbers(r: Reader): ((nat, nat, bool), Reader) {
    var r2 := ReadBit(ReadUe(r).1).1;
    var (w, r3) := ReadUe(r2);
    var (h, r4) := ReadUe(r3);
    var (only, r5) := ReadBit(r4);
    ((w, h, only), r5)
  }

  lemma SizeInTwo(r: Reader)
    ensures var ((w, h, only), r5) := ReadNumbers(r);
            ReadSize(r) == ((w, h, only), SkipFlags(r5, only))
  {
    hide ReadUe;
  }

  lemma FlagsGrows(r: Reader, only: bool)
    ensures Grows(r, SkipFlags(r, only))
  {}

  lemma FlagsCut(s: Reader, t: Reader, n: nat, only: bool)
    requires Agrees(s, t, n)
    ensures Agrees(SkipFlags(s, only), SkipFlags(t, only), n)
  {
    BitCut(s, t, n);
    BitCut(if only then s else ReadBit(s).1, if only then t else ReadBit(t).1, n);
  }

  lemma NumbersGrows(r: Reader)
    ensures Grows(r, ReadNumbers(r).1)
  {
    hide ReadUe;
    var r2 := ReadBit(ReadUe(r).1).1;
    UeGrows(r);
    UeGrows(r2);
    UeGrows(ReadUe(r2).1);
  }

  lemma NumbersCut(s: Reader, t: Reader, n: nat)
    requires Agrees(s, t, n)
    ensures SameRead(ReadNumbers(s).0, ReadNumbers(s).1, ReadNumbers(t).0, ReadNumbers(t).1, n)
  {
    hide ReadUe;
    var s1, t1 := ReadUe(s).1, ReadUe(t).1;
    var s2, t2 := ReadBit(s1).1, ReadBit(t1).1;
    var s3, t3 := ReadUe(s2).1, ReadUe(t2).1;
    var s4, t4 := ReadUe(s3).1, ReadUe(t3).1;
    UeCut(s, t, n);
    BitCut(s1, t1, n);
    UeCut(s2, t2, n);
    UeCut(s3, t3, n);
    BitCut(s4, t4, n);
    UeGrows(t2);
    UeGrows(t3);
  }

  lemma SizeGrows(r: Reader)
    ensures Grows(r, ReadSize(r).1)
  {
    hide ReadNumbers, SkipFlags, ReadSize;
    SizeInTwo(r);
    NumbersGrows(r);
    FlagsGrows(ReadNumbers(r).1, ReadNumbers(r).0.2);
  }

  lemma SizeCut(s: Reader, t: Reader, n: nat)
    requires Agrees(s, t, n)
    ensures SameRead(ReadSize(s).0, ReadSize(s).1, ReadSize(t).0, ReadSize(t).1, n)
  {
    hide ReadNumbers, SkipFlags, ReadSize;
    SizeInTwo(s);
    SizeInTwo(t);
    NumbersCut(s, t, n);
    var s5, t5 := ReadNumbers(s).1, ReadNumbers(t).1;
    FlagsGrows(s5, ReadNumbers(s).0.2);
    FlagsGrows(t5, ReadNumbers(t).0.2);
    if !t5.error {
      FlagsCut(s5, t5, n, ReadNumbers(s).0.2);
    }
  }

  lemma FrameGrows(r: Reader)
    ensures Grows(r, ReadFrame(r).1)
  {
    hide ReadSize, ReadCropping;
    SizeGrows(r);
    CroppingGrows(ReadSize(r).1);
  }

  lemma FrameCut(s: Reader, t: Reader, n: nat)
    requires Agrees(s, t, n)
    ensures SameRead(ReadFrame(s).0, ReadFrame(s).1, ReadFrame(t).0, ReadFrame(t).1, n)
  {
    hide ReadSize, ReadCropping;
    SizeCut(s, t, n);
    CroppingCut(ReadSize(s).1, ReadSize(t).1, n);
    CroppingGrows(ReadSize(t).1);
  }

  lemma BodyCut(s: Reader, t: Reader, n: nat, profile: byte)
    requires Agrees(s, t, n)
    ensures SameRead(ReadBody(s, profile).0, ReadBody(s, profile).1, ReadBody(t, profile).0, ReadBody(t, profile).1, n)
  {
    hide ReadUe, SkipChroma, SkipOrder, ReadFrame;
    var s0, t0 := ReadUe(s).1, ReadUe(t).1;
    var s1, t1 := SkipExtension(s0, profile), SkipExtension(t0, profile);
    UeCut(s, t, n);
    ChromaCut(s0, t0, n);
    UeCut(s1, t1, n);
    OrderCut(ReadUe(s1).1, ReadUe(t1).1, n);
    FrameCut(SkipOrder(ReadUe(s1).1), SkipOrder(ReadUe(t1).1), n);
  }

  // ---------------------------------------------------------------------
  // The standard's syntax
  // ---------------------------------------------------------------------

  datatype Element = OneBit(bit: bool) | Unsigned(k: nat) | SignedValue(v: int)

  function Code(e: Element): seq<bool> {
    match e
    case OneBit(bit) => [bit]
    case Unsigned(k) => UeCode(k)
    case SignedValue(v) => SeCode(v)
  }

  function Codes(es: seq<Element>): seq<bool> {
    if es == [] then [] else Code(es[0]) + Codes(es[1..])
  }

  /** `scaling_list()` of section 7.3.2.1.1.1: one delta for every entry until the scale becomes zero. */
  function ListElements(deltas: seq<int>, last: int, next: int): seq<Element>
    decreases |deltas|
  {
    if deltas == [] || next == 0 then []
    else
      var after := (last + deltas[0] + 256) % 256;
      [SignedValue(deltas[0])] + ListElements(deltas[1..], if after != 0 then after else last, after)
  }

  /** A scaling list that is present has a delta for each of its entries. */
  function MatrixElements(lists: seq<Option<seq<int>>>): seq<Element> {
    if lists == [] then []
    else (match lists[0]
          case None => [OneBit(false)]
          case Some(deltas) => [OneBit(true)] + ListElements(deltas, 8, 8)) + MatrixElements(lists[1..])
  }

  datatype Chroma = Chroma(format: nat, separate: bool, lumaDepth: nat, chromaDepth: nat, bypass: bool,
                           matrix: Option<seq<Option<seq<int>>>>)

  function ChromaElements(c: Chroma): seq<Element> {
    [Unsigned(c.format)] + ((if c.format == 3 then [OneBit(c.separate)] else [])
    + ([Unsigned(c.lumaDepth)] + ([Unsigned(c.chromaDepth)] + ([OneBit(c.bypass)]
    + (match c.matrix
       case None => [OneBit(false)]
       case Some(lists) => [OneBit(true)] + MatrixElements(lists))))))
  }

  datatype Order =
    | Lsb(log2Lsb: nat)
    | Cycle(alwaysZero: bool, nonRef: int, topBottom: int, offsets: seq<int>)
    | Output

  function OffsetElements(offsets: seq<int>): seq<Element> {
    if offsets == [] then [] else [SignedValue(offsets[0])] + OffsetElements(offsets[1..])
  }

  function OrderElements(o: Order): seq<Element> {
    match o
    case Lsb(x) => [Unsigned(0)] + [Unsigned(x)]
    case Cycle(z, a, b, offsets) =>
      [Unsigned(1)] + ([OneBit(z)] + ([SignedValue(a)] + ([SignedValue(b)]
      + ([Unsigned(|offsets|)] + OffsetElements(offsets)))))
    case Output => [Unsigned(2)]
  }

  datatype ParameterSet = ParameterSet(
    profile: byte, constraints: byte, level: byte, id: nat, chroma: Chroma,
    log2FrameNum: nat, order: Order, refFrames: nat, gaps: bool,
    widthMbs: nat, heightUnits: nat, frameMbsOnly: bool, mbAdaptive: bool, direct8x8: bool,
    crop: Option<Crop>)

  function SizeElements(s: ParameterSet): seq<Element> {
    [Unsigned(s.refFrames)] + ([OneBit(s.gaps)] + ([Unsigned(s.widthMbs)] + ([Unsigned(s.heightUnits)]
    + ([OneBit(s.frameMbsOnly)] + ((if s.frameMbsOnly then [] else [OneBit(s.mbAdaptive)])
    + [OneBit(s.direct8x8)])))))
  }

  function CropElements(crop: Option<Crop>): seq<Element> {
    match crop
    case None => [OneBit(false)]
    case Some(c) =>
      [OneBit(true)] + ([Unsigned(c.left)] + ([Unsigned(c.right)] + ([Unsigned(c.top)] + [Unsigned(c.bottom)])))
  }

  /** The values of profile_idc for which section 7.3.2.1.1 prints chroma format, bit depths and scaling matrix. */
  const HIGH_PROFILES: set<int> := {100, 110, 122, 244, 44, 83, 86, 118, 128, 138, 139, 134, 135}

  function ExtensionElements(s: ParameterSet): seq<Element> {
    if s.profile in HIGH_PROFILES then ChromaElements(s.chroma) else []
  }

  /** `seq_parameter_set_data()` after the level, up to the cropping offsets. */
  function SpsElements(s: ParameterSet): seq<Element> {
    [Unsigned(s.id)] + (ExtensionElements(s)
    + ([Unsigned(s.log2FrameNum)] + (OrderElements(s.order) + (SizeElements(s) + CropElements(s.crop)))))
  }

  /** The NAL unit: header, then the escaped bytes; `trailing` holds the VUI part and the stop bits. */
  predicate IsNal(nal: seq<byte>, s: ParameterSet, trailing: seq<bool>) {
    var bits := Codes(SpsElements(s)) + trailing;
    && |bits| % 8 == 0 && |nal| > 0 && nal[0] % 32 == 7
    && nal[1..] == Emulation.Escape([s.profile, s.constraints, s.level] + Pack(bits))
  }

  // ---------------------------------------------------------------------
  // Ranges
  // ---------------------------------------------------------------------

  predicate IsCode(k: nat) {
    k <= MAX_CODE
  }

  predicate IsSigned(v: int) {
    -0x7fff_ffff <= v <= 0x7fff_ffff
  }

  /** A delta of a scaling list is a signed byte. */
  predicate DeltasInRange(deltas: seq<int>) {
    forall j :: 0 <= j < |deltas| ==> -128 <= deltas[j] <= 127
  }

  predicate ListsInRange(lists: seq<Option<seq<int>>>, first: nat) {
    forall i :: 0 <= i < |lists| ==> ListInRange(lists[i], first + i)
  }

  predicate ListInRange(deltas: Option<seq<int>>, i: nat) {
    deltas.Some? ==> |deltas.value| == (if i < 6 then 16 else 64) && DeltasInRange(deltas.value)
  }

  predicate ChromaInRange(c: Chroma) {
    && c.format <= 3 && IsCode(c.lumaDepth) && IsCode(c.chromaDepth)
    && (c.matrix.Some? ==> |c.matrix.value| == (if c.format != 3 then 8 else 12) && ListsInRange(c.matrix.value, 0))
  }

  predicate OrderInRange(o: Order) {
    match o
    case Lsb(x) => IsCode(x)
    case Cycle(_, a, b, offsets) =>
      IsSigned(a) && IsSigned(b) && IsCode(|offsets|) && forall i :: 0 <= i < |offsets| ==> IsSigned(offsets[i])
    case Output => true
  }

  function ChromaFormat(s: ParameterSet): nat {
    if s.profile in HIGH_PROFILES then s.chroma.format else 1
  }

  /** Luma samples per horizontal cropping unit (section 7.4.2.1.1). */
  function UnitX(s: ParameterSet): nat {
    if ChromaFormat(s) == 1 || ChromaFormat(s) == 2 then 2 else 1
  }

  function UnitY(s: ParameterSet): nat {
    (if ChromaFormat(s) == 1 then 2 else 1) * Fields(s)
  }

  function Fields(s: ParameterSet): nat {
    if s.frameMbsOnly then 1 else 2
  }

  function CropX(s: ParameterSet): nat {
    if s.crop.Some? then s.crop.value.left + s.crop.value.right else 0
  }

  function CropY(s: ParameterSet): nat {
    if s.crop.Some? then s.crop.value.top + s.crop.value.bottom else 0
  }

  /** The output picture of section 7.4.2.1.1, in luma samples. */
  function Width(s: ParameterSet): int {
    16 * (s.widthMbs + 1) - UnitX(s) * CropX(s)
  }

  function Height(s: ParameterSet): int {
    16 * Fields(s) * (s.heightUnits + 1) - UnitY(s) * CropY(s)
  }

  predicate CropInRange(crop: Option<Crop>) {
    crop.Some? ==>
      && IsCode(crop.value.left) && IsCode(crop.value.right)
      && IsCode(crop.value.top) && IsCode(crop.value.bottom)
  }

  /** Fields in range, the picture representable in 32 bits, and something left after cropping. */
  predicate InRange(s: ParameterSet) {
    && IsCode(s.id) && IsCode(s.log2FrameNum) && IsCode(s.refFrames)
    && (s.profile in HIGH_PROFILES ==> ChromaInRange(s.chroma))
    && OrderInRange(s.order) && CropInRange(s.crop)
    && 16 * (s.widthMbs + 1) < TWO32 && 16 * Fields(s) * (s.heightUnits + 1) < TWO32
    && Width(s) > 0 && Height(s) > 0
  }

  // ---------------------------------------------------------------------
  // Parsing what was printed
  // ---------------------------------------------------------------------

  /** `es` is what the reader finds next, and nothing follows. */
  predicate Next(r: Reader, es: seq<Element>) {
    At(r, Codes(es)) && r.pos + |Codes(es)| == |r.bits|
  }

  lemma NextSplit(r: Reader, e: Element, rest: seq<Element>)
    requires Next(r, [e] + rest)
    ensures At(r, Code(e)) && Next(Skip(r, |Code(e)|), rest)
  {
    assert ([e] + rest)[1..] == rest;
    AtSplit(r, Code(e), Codes(rest));
  }

  lemma TakeBit(r: Reader, b: bool, rest: seq<Element>)
    requires Next(r, [OneBit(b)] + rest)
    ensures ReadBit(r).0 == b && Next(ReadBit(r).1, rest) && ReadBit(r).1.bits == r.bits
  {
    NextSplit(r, OneBit(b), rest);
    ReadBitAt(r, b);
  }

  lemma TakeUe(r: Reader, k: nat, rest: seq<Element>)
    requires Next(r, [Unsigned(k)] + rest) && IsCode(k)
    ensures ReadUe(r).0 == k && Next(ReadUe(r).1, rest) && ReadUe(r).1.bits == r.bits
  {
    NextSplit(r, Unsigned(k), rest);
    UeRoundTrip(r, k);
  }

  lemma TakeSe(r: Reader, v: int, rest: seq<Element>)
    requires Next(r, [SignedValue(v)] + rest) && IsSigned(v)
    ensures ReadSe(r).0 == v && Next(ReadSe(r).1, rest) && ReadSe(r).1.bits == r.bits
  {
    NextSplit(r, SignedValue(v), rest);
    SeRoundTrip(r, v);
  }

  lemma NoError(r: Reader, es: seq<Element>)
    requires Next(r, es)
    ensures !r.error
    ensures es == [] ==> r.pos == |r.bits|
  {
    if Codes(es) == [] {
    }
  }

  lemma Associate(a: seq<Element>, b: seq<Element>, c: seq<Element>)
    ensures (a + b) + c == a + (b + c)
  {}

  /** Once the scale is zero nothing more is read. */
  lemma {:induction false} SkipZeroList(r: Reader, n: nat, last: int)
    ensures SkipList(r, n, last, 0) == r
    decreases n
  {
    if n > 0 && !r.error {
      SkipZeroList(r, n - 1, last);
    }
  }

  lemma {:induction false} SkipListAt(r: Reader, deltas: seq<int>, last: int, next: int, rest: seq<Element>)
    requires Next(r, ListElements(deltas, last, next) + rest)
    requires DeltasInRange(deltas) && 0 <= last < 256 && 0 <= next < 256
    ensures Next(SkipList(r, |deltas|, last, next), rest)
    decreases |deltas|
  {
    hide ReadSe, Next;
    if deltas == [] || next == 0 {
      assert [] + rest == rest;
      if next == 0 {
        SkipZeroList(r, |deltas|, last);
      }
    } else {
      var more := deltas[1..];
      var after := (last + deltas[0] + 256) % 256;
      var newLast := if after != 0 then after else last;
      SkipListHead(r, deltas, last, next, after, newLast, rest);
      SkipListAt(ReadSe(r).1, more, newLast, after, rest);
    }
  }

  lemma SkipListHead(r: Reader, deltas: seq<int>, last: int, next: int, after: int, newLast: int, rest: seq<Element>)
    requires Next(r, ListElements(deltas, last, next) + rest)
    requires DeltasInRange(deltas) && 0 <= last < 256 && 0 < next < 256 && deltas != []
    requires after == (last + deltas[0] + 256) % 256 && newLast == if after != 0 then after else last
    ensures Next(ReadSe(r).1, ListElements(deltas[1..], newLast, after) + rest)
    ensures SkipList(r, |deltas|, last, next) == SkipList(ReadSe(r).1, |deltas| - 1, newLast, after)
  {
    hide ReadSe, Next;
    NoError(r, ListElements(deltas, last, next) + rest);
    var delta, tail := deltas[0], ListElements(deltas[1..], newLast, after);
    assert ListElements(deltas, last, next) == [SignedValue(delta)] + tail;
    Associate([SignedValue(delta)], tail, rest);
    TakeSe(r, delta, tail + rest);
    SkipListStep(r, |deltas|, last, next, after);
  }

  lemma SkipListStep(r: Reader, n: nat, last: int, next: int, after: int)
    requires n > 0 && !r.error && next != 0
    requires last + ReadSe(r).0 + 256 >= 0 && after == (last + ReadSe(r).0 + 256) % 256
    ensures SkipList(r, n, last, next) == SkipList(ReadSe(r).1, n - 1, if after != 0 then after else last, after)
  {
    TruncModIsMod(last + ReadSe(r).0 + 256, 256);
  }

  lemma TruncModIsMod(a: int, b: int)
    requires a >= 0 && b > 0
    ensures TruncMod(a, b) == a % b
  {}

  /** What one entry of the matrix prints. */
  function EntryElements(deltas: Option<seq<int>>): seq<Element> {
    match deltas
    case None => [OneBit(false)]
    case Some(ds) => [OneBit(true)] + ListElements(ds, 8, 8)
  }

  lemma SkipEntryAt(r: Reader, deltas: Option<seq<int>>, i: nat, rest: seq<Element>)
    requires Next(r, EntryElements(deltas) + rest) && ListInRange(deltas, i)
    ensures Next(SkipOneList(r, i), rest)
  {
    match deltas
    case None =>
      TakeBit(r, false, rest);
    case Some(ds) =>
      Associate([OneBit(true)], ListElements(ds, 8, 8), rest);
      TakeBit(r, true, ListElements(ds, 8, 8) + rest);
      SkipListAt(ReadBit(r).1, ds, 8, 8, rest);
  }

  lemma {:induction false} SkipListsAt(r: Reader, lists: seq<Option<seq<int>>>, i: nat, rest: seq<Element>)
    requires Next(r, MatrixElements(lists) + rest) && ListsInRange(lists, i)
    ensures Next(SkipLists(r, i, i + |lists|), rest)
    decreases |lists|
  {
    NoError(r, MatrixElements(lists) + rest);
    if lists == [] {
      assert [] + rest == rest;
    } else {
      var tail := MatrixElements(lists[1..]);
      Associate(EntryElements(lists[0]), tail, rest);
      assert ListInRange(lists[0], i + 0);
      SkipEntryAt(r, lists[0], i, tail + rest);
      ListsTail(lists, i);
      SkipListsAt(SkipOneList(r, i), lists[1..], i + 1, rest);
    }
  }

  lemma ListsTail(lists: seq<Option<seq<int>>>, i: nat)
    requires lists != [] && ListsInRange(lists, i)
    ensures ListsInRange(lists[1..], i + 1)
  {
    forall j | 0 <= j < |lists| - 1
      ensures ListInRange(lists[1..][j], i + 1 + j)
    {
      assert ListInRange(lists[j + 1], i + (j + 1));
    }
  }

  function MatrixPart(matrix: Option<seq<Option<seq<int>>>>): seq<Element> {
    match matrix
    case None => [OneBit(false)]
    case Some(lists) => [OneBit(true)] + MatrixElements(lists)
  }

  lemma SkipMatrixAt(r: Reader, matrix: Option<seq<Option<seq<int>>>>, chroma: int, rest: seq<Element>)
    requires Next(r, MatrixPart(matrix) + rest)
    requires matrix.Some? ==> |matrix.value| == (if chroma != 3 then 8 else 12) && ListsInRange(matrix.value, 0)
    ensures Next(SkipMatrix(r, chroma), rest)
  {
    match matrix
    case None =>
      TakeBit(r, false, rest);
    case Some(lists) =>
      Associate([OneBit(true)], MatrixElements(lists), rest);
      TakeBit(r, true, MatrixElements(lists) + rest);
      SkipListsAt(ReadBit(r).1, lists, 0, rest);
  }

  lemma ChromaTail(c: Chroma, rest: seq<Element>) returns (tail: seq<Element>)
    ensures tail == [Unsigned(c.lumaDepth)] + ([Unsigned(c.chromaDepth)] + ([OneBit(c.bypass)]
                    + (MatrixPart(c.matrix) + rest)))
    ensures ChromaElements(c) + rest
            == [Unsigned(c.format)] + (if c.format == 3 then [OneBit(c.separate)] + tail else tail)
  {
    tail := [Unsigned(c.lumaDepth)] + ([Unsigned(c.chromaDepth)] + ([OneBit(c.bypass)]
            + (MatrixPart(c.matrix) + rest)));
    var m := MatrixPart(c.matrix);
    var d := [OneBit(c.bypass)] + m;
    var e := [Unsigned(c.chromaDepth)] + d;
    var f := [Unsigned(c.lumaDepth)] + e;
    Associate([OneBit(c.bypass)], m, rest);
    Associate([Unsigned(c.chromaDepth)], d, rest);
    Associate([Unsigned(c.lumaDepth)], e, rest);
    assert f + rest == tail;
    var g := if c.format == 3 then [OneBit(c.separate)] else [];
    Associate(g, f, rest);
    Associate([Unsigned(c.format)], g + f, rest);
    assert [] + tail == tail;
  }

  lemma SkipChromaAt(r: Reader, c: Chroma, rest: seq<Element>)
    requires Next(r, ChromaElements(c) + rest) && ChromaInRange(c)
    ensures Next(SkipChroma(r), rest)
  {
    var tail := ChromaTail(c, rest);
    TakeUe(r, c.format, if c.format == 3 then [OneBit(c.separate)] + tail else tail);
    var r1 := ReadUe(r).1;
    if c.format == 3 {
      TakeBit(r1, c.separate, tail);
    }
    var r2 := if c.format == 3 then ReadBit(r1).1 else r1;
    var m := MatrixPart(c.matrix) + rest;
    TakeUe(r2, c.lumaDepth, [Unsigned(c.chromaDepth)] + ([OneBit(c.bypass)] + m));
    TakeUe(ReadUe(r2).1, c.chromaDepth, [OneBit(c.bypass)] + m);
    var r4 := ReadUe(ReadUe(r2).1).1;
    TakeBit(r4, c.bypass, m);
    SkipMatrixAt(ReadBit(r4).1, c.matrix, c.format, rest);
  }

  lemma {:induction false} SkipOffsetsAt(r: Reader, offsets: seq<int>, rest: seq<Element>)
    requires Next(r, OffsetElements(offsets) + rest)
    requires forall i :: 0 <= i < |offsets| ==> IsSigned(offsets[i])
    ensures Next(SkipOffsets(r, |offsets|), rest)
    decreases |offsets|
  {
    hide ReadSe, Next;
    NoError(r, OffsetElements(offsets) + rest);
    if offsets == [] {
      assert [] + rest == rest;
    } else {
      var tail := OffsetElements(offsets[1..]);
      Associate([SignedValue(offsets[0])], tail, rest);
      TakeSe(r, offsets[0], tail + rest);
      SkipOffsetsAt(ReadSe(r).1, offsets[1..], rest);
    }
  }

  lemma SkipCycleAt(r: Reader, z: bool, a: int, b: int, offsets: seq<int>, rest: seq<Element>)
    requires Next(r, [OneBit(z)] + ([SignedValue(a)] + ([SignedValue(b)]
                     + ([Unsigned(|offsets|)] + (OffsetElements(offsets) + rest)))))
    requires OrderInRange(Cycle(z, a, b, offsets))
    ensures Next(SkipCycle(r), rest)
  {
    hide ReadSe, ReadUe, Next, SkipOffsets, OffsetElements;
    var e := OffsetElements(offsets) + rest;
    var d := [Unsigned(|offsets|)] + e;
    var c := [SignedValue(b)] + d;
    TakeBit(r, z, [SignedValue(a)] + c);
    var r1 := ReadBit(r).1;
    TakeSe(r1, a, c);
    var r2 := ReadSe(r1).1;
    TakeSe(r2, b, d);
    var r3 := ReadSe(r2).1;
    TakeUe(r3, |offsets|, e);
    SkipOffsetsAt(ReadUe(r3).1, offsets, rest);
  }

  lemma CycleElements(z: bool, a: int, b: int, offsets: seq<int>, rest: seq<Element>)
    ensures OrderElements(Cycle(z, a, b, offsets)) + rest
            == [Unsigned(1)] + ([OneBit(z)] + ([SignedValue(a)] + ([SignedValue(b)]
               + ([Unsigned(|offsets|)] + (OffsetElements(offsets) + rest)))))
  {
    var e := OffsetElements(offsets);
    var d := [Unsigned(|offsets|)] + e;
    var c := [SignedValue(b)] + d;
    var f := [SignedValue(a)] + c;
    Associate([Unsigned(|offsets|)], e, rest);
    Associate([SignedValue(b)], d, rest);
    Associate([SignedValue(a)], c, rest);
    Associate([OneBit(z)], f, rest);
    Associate([Unsigned(1)], [OneBit(z)] + f, rest);
  }

  lemma SkipOrderAt(r: Reader, o: Order, rest: seq<Element>)
    requires Next(r, OrderElements(o) + rest) && OrderInRange(o)
    ensures Next(SkipOrder(r), rest)
  {
    match o
    case Lsb(x) =>
      Associate([Unsigned(0)], [Unsigned(x)], rest);
      TakeUe(r, 0, [Unsigned(x)] + rest);
      TakeUe(ReadUe(r).1, x, rest);
    case Cycle(z, a, b, offsets) =>
      CycleElements(z, a, b, offsets, rest);
      TakeUe(r, 1, [OneBit(z)] + ([SignedValue(a)] + ([SignedValue(b)]
                   + ([Unsigned(|offsets|)] + (OffsetElements(offsets) + rest)))));
      SkipCycleAt(ReadUe(r).1, z, a, b, offsets, rest);
    case Output =>
      TakeUe(r, 2, rest);
  }

  function FlagsPart(s: ParameterSet): seq<Element> {
    (if s.frameMbsOnly then [] else [OneBit(s.mbAdaptive)]) + [OneBit(s.direct8x8)]
  }

  lemma SizeSplit(s: ParameterSet, rest: seq<Element>)
    ensures SizeElements(s) + rest
            == [Unsigned(s.refFrames)] + ([OneBit(s.gaps)] + ([Unsigned(s.widthMbs)] + ([Unsigned(s.heightUnits)]
               + ([OneBit(s.frameMbsOnly)] + (FlagsPart(s) + rest)))))
  {
    var f := FlagsPart(s);
    var e := [OneBit(s.frameMbsOnly)] + f;
    var d := [Unsigned(s.heightUnits)] + e;
    var c := [Unsigned(s.widthMbs)] + d;
    Associate([OneBit(s.frameMbsOnly)], f, rest);
    Associate([Unsigned(s.heightUnits)], e, rest);
    Associate([Unsigned(s.widthMbs)], d, rest);
    Associate([OneBit(s.gaps)], c, rest);
    Associate([Unsigned(s.refFrames)], [OneBit(s.gaps)] + c, rest);
  }

  /** The one or two flags after `frame_mbs_only_flag`. */
  lemma SkipFlagsAt(r: Reader, s: ParameterSet, rest: seq<Element>)
    requires Next(r, FlagsPart(s) + rest)
    ensures Next(ReadBit(if s.frameMbsOnly then r else ReadBit(r).1).1, rest)
  {
    var last := [OneBit(s.direct8x8)] + rest;
    if s.frameMbsOnly {
      assert FlagsPart(s) + rest == last;
      TakeBit(r, s.direct8x8, rest);
    } else {
      assert FlagsPart(s) + rest == [OneBit(s.mbAdaptive)] + last;
      TakeBit(r, s.mbAdaptive, last);
      TakeBit(ReadBit(r).1, s.direct8x8, rest);
    }
  }

  lemma ReadSizeAt(r: Reader, s: ParameterSet, rest: seq<Element>)
    requires Next(r, SizeElements(s) + rest)
    requires IsCode(s.refFrames) && IsCode(s.widthMbs) && IsCode(s.heightUnits)
    ensures ReadSize(r).0 == (s.widthMbs, s.heightUnits, s.frameMbsOnly) && Next(ReadSize(r).1, rest)
  {
    SizeSplit(s, rest);
    var f := FlagsPart(s) + rest;
    var e := [OneBit(s.frameMbsOnly)] + f;
    var d := [Unsigned(s.heightUnits)] + e;
    var c := [Unsigned(s.widthMbs)] + d;
    TakeUe(r, s.refFrames, [OneBit(s.gaps)] + c);
    var r1 := ReadUe(r).1;
    TakeBit(r1, s.gaps, c);
    var r2 := ReadBit(r1).1;
    TakeUe(r2, s.widthMbs, d);
    var r3 := ReadUe(r2).1;
    TakeUe(r3, s.heightUnits, e);
    var r4 := ReadUe(r3).1;
    TakeBit(r4, s.frameMbsOnly, f);
    SkipFlagsAt(ReadBit(r4).1, s, rest);
  }

  lemma ReadCroppingAt(r: Reader, crop: Option<Crop>)
    requires Next(r, CropElements(crop)) && CropInRange(crop)
    ensures ReadCropping(r).0 == (crop.Some?, if crop.Some? then crop.value else Crop(0, 0, 0, 0))
    ensures !ReadCropping(r).1.error && ReadCropping(r).1.pos == |r.bits|
  {
    match crop
    case None =>
      assert CropElements(crop) == [OneBit(false)] + [];
      TakeBit(r, false, []);
      NoError(ReadBit(r).1, []);
    case Some(c) =>
      TakeBit(r, true, [Unsigned(c.left)] + ([Unsigned(c.right)] + ([Unsigned(c.top)] + [Unsigned(c.bottom)])));
      ReadCropAt(ReadBit(r).1, c);
      BitGrows(r);
  }

  lemma ReadCropAt(r: Reader, c: Crop)
    requires Next(r, [Unsigned(c.left)] + ([Unsigned(c.right)] + ([Unsigned(c.top)] + [Unsigned(c.bottom)])))
    requires CropInRange(Some(c))
    ensures ReadCrop(r).0 == c && !ReadCrop(r).1.error && ReadCrop(r).1.pos == |r.bits|
  {
    hide ReadUe, Next;
    TakeUe(r, c.left, [Unsigned(c.right)] + ([Unsigned(c.top)] + [Unsigned(c.bottom)]));
    var r1 := ReadUe(r).1;
    TakeUe(r1, c.right, [Unsigned(c.top)] + [Unsigned(c.bottom)]);
    var r2 := ReadUe(r1).1;
    TakeUe(r2, c.top, [Unsigned(c.bottom)]);
    var r3 := ReadUe(r2).1;
    assert [Unsigned(c.bottom)] == [Unsigned(c.bottom)] + [];
    TakeUe(r3, c.bottom, []);
    NoError(ReadUe(r3).1, []);
  }

  function FrameOf(s: ParameterSet): Frame {
    Frame(s.widthMbs, s.heightUnits, s.frameMbsOnly, s.crop.Some?,
          if s.crop.Some? then s.crop.value else Crop(0, 0, 0, 0))
  }

  lemma SkipExtensionAt(r: Reader, s: ParameterSet, rest: seq<Element>)
    requires Next(r, ExtensionElements(s) + rest) && (s.profile in HIGH_PROFILES ==> ChromaInRange(s.chroma))
    ensures Next(SkipExtension(r, s.profile), rest)
  {
    hide SkipChroma, ChromaElements, Next;
    if s.profile in HIGH_PROFILES {
      SkipChromaAt(r, s.chroma, rest);
    } else {
      assert [] + rest == rest;
    }
  }

  lemma ReadFrameAt(r: Reader, s: ParameterSet)
    requires Next(r, SizeElements(s) + CropElements(s.crop)) && CropInRange(s.crop)
    requires IsCode(s.refFrames) && IsCode(s.widthMbs) && IsCode(s.heightUnits)
    ensures ReadFrame(r).0 == FrameOf(s) && !ReadFrame(r).1.error && ReadFrame(r).1.pos == |r.bits|
  {
    hide ReadSize, ReadCropping, Next;
    ReadSizeAt(r, s, CropElements(s.crop));
    SizeGrows(r);
    ReadCroppingAt(ReadSize(r).1, s.crop);
  }

  lemma ReadBodyAt(r: Reader, s: ParameterSet)
    requires Next(r, SpsElements(s)) && InRange(s)
    ensures ReadBody(r, s.profile).0 == FrameOf(s) && !ReadBody(r, s.profile).1.error
    ensures ReadBody(r, s.profile).1.pos == |r.bits|
  {
    hide SkipExtension, SkipOrder, ReadFrame, ReadUe, Next;
    var e := SizeElements(s) + CropElements(s.crop);
    var d := OrderElements(s.order) + e;
    var c := [Unsigned(s.log2FrameNum)] + d;
    TakeUe(r, s.id, ExtensionElements(s) + c);
    SkipExtensionAt(ReadUe(r).1, s, c);
    var r1 := SkipExtension(ReadUe(r).1, s.profile);
    TakeUe(r1, s.log2FrameNum, d);
    SkipOrderAt(ReadUe(r1).1, s.order, e);
    ReadFrameAt(SkipOrder(ReadUe(r1).1), s);
    ExtensionGrows(ReadUe(r).1, s.profile);
    OrderGrows(ReadUe(r1).1);
  }

  lemma ExtensionGrows(r: Reader, profile: byte)
    ensures Grows(r, SkipExtension(r, profile))
  {
    hide SkipChroma;
    ChromaGrows(r);
  }

  /** The parser's size against the standard's, in one direction. */
  lemma CroppedIsExact(mbs: nat, fields: nat, unit: nat, cropping: bool, sum: nat)
    requires 1 <= fields <= 2 && 1 <= unit <= 2 && (!cropping ==> sum == 0)
    requires 16 * fields * (mbs + 1) < TWO32 && unit * fields * sum < 16 * fields * (mbs + 1)
    ensures Cropped(mbs, fields, cropping, sum) == 16 * fields * (mbs + 1) - unit * fields * sum
            <==> unit == 2 || sum == 0
  {
    WrapNone(mbs + 1);
    if fields == 1 {
      WrapNone(16 * (mbs + 1));
    } else {
      WrapNone(32 * (mbs + 1));
    }
    WrapNone(sum);
    assert 2 * Wrap32(sum) * fields == 2 * fields * sum;
  }

  /** What the receiver reports of a parameter set. */
  predicate Reports(out: SpsInfo, s: ParameterSet) {
    && out.profile == s.profile && out.level == s.level && out.interlaced == !s.frameMbsOnly
    && (out.width == Width(s) <==> UnitX(s) == 2 || CropX(s) == 0)
    && (out.height == Height(s) <==> UnitY(s) == 2 * Fields(s) || CropY(s) == 0)
  }

  lemma FrameIsReported(s: ParameterSet, out: SpsInfo)
    requires InRange(s)
    requires out == SpsInfo(s.profile, s.level, FrameWidth(FrameOf(s)), FrameHeight(FrameOf(s)), !s.frameMbsOnly)
    ensures Reports(out, s)
  {
    CroppedIsExact(s.widthMbs, 1, UnitX(s), s.crop.Some?, CropX(s));
    CroppedIsExact(s.heightUnits, Fields(s), if ChromaFormat(s) == 1 then 2 else 1, s.crop.Some?, CropY(s));
  }

  lemma RbspOfNal(nal: seq<byte>, s: ParameterSet, trailing: seq<bool>) returns (rbsp: seq<byte>)
    requires IsNal(nal, s, trailing)
    ensures |nal| >= 4 && rbsp == Emulation.Remove(nal[1..]) && |rbsp| >= 3
    ensures rbsp[0] == s.profile && rbsp[2] == s.level
    ensures BitsOf(rbsp[3..]) == Codes(SpsElements(s)) + trailing
  {
    var bits := Codes(SpsElements(s)) + trailing;
    rbsp := [s.profile, s.constraints, s.level] + Pack(bits);
    Emulation.RoundTrip(rbsp);
    Emulation.RemoveShortens(nal[1..]);
    assert rbsp[3..] == Pack(bits);
    BitsOfPack(bits);
  }

  /** A reader of exactly what was printed gets to the end of it without an error. */
  lemma ReadsToTheEnd(s: ParameterSet)
    requires InRange(s)
    ensures var (f, r) := ReadBody(Reader(Codes(SpsElements(s)), 0, false), s.profile);
            f == FrameOf(s) && !r.error && r.pos == |Codes(SpsElements(s))|
  {
    hide ReadBody, InRange, Codes, SpsElements;
    var code := Codes(SpsElements(s));
    var r := Reader(code, 0, false);
    AtStart([], code, []);
    assert [] + code + [] == code;
    assert Next(r, SpsElements(s));
    ReadBodyAt(r, s);
  }

  lemma ParsesRbsp(rbsp: seq<byte>, s: ParameterSet, trailing: seq<bool>)
    requires |rbsp| >= 3 && rbsp[0] == s.profile && rbsp[2] == s.level && InRange(s)
    requires BitsOf(rbsp[3..]) == Codes(SpsElements(s)) + trailing
    ensures ParseRbsp(rbsp).0 && Reports(ParseRbsp(rbsp).1, s)
  {
    hide ReadBody, Reports, InRange, Codes, SpsElements, FrameWidth, FrameHeight;
    var code := Codes(SpsElements(s));
    var whole, exact := Reader(BitsOf(rbsp[3..]), 0, false), Reader(code, 0, false);
    ReadsToTheEnd(s);
    assert Agrees(whole, exact, |code|);
    BodyCut(whole, exact, |code|, s.profile);
    FrameIsReported(s, ParseRbsp(rbsp).1);
  }

  /** Bits that end before the last code does are refused. */
  lemma CutRbspFails(rbsp: seq<byte>, s: ParameterSet)
    requires |rbsp| >= 3 && rbsp[0] == s.profile && InRange(s)
    requires var code := Codes(SpsElements(s)); 8 * |rbsp[3..]| < |code| && BitsOf(rbsp[3..]) == code[..8 * |rbsp[3..]|]
    ensures !ParseRbsp(rbsp).0
  {
    hide ReadBody, InRange, Codes, SpsElements, FrameWidth, FrameHeight;
    var code := Codes(SpsElements(s));
    var exact, cut := Reader(code, 0, false), Reader(BitsOf(rbsp[3..]), 0, false);
    ReadsToTheEnd(s);
    assert Agrees(exact, cut, 8 * |rbsp[3..]|);
    BodyCut(exact, cut, 8 * |rbsp[3..]|, s.profile);
  }

  /**
    Main result: printing any in-range parameter set by the standard, escaping it
    and parsing the NAL unit gives back the profile, the level and the interlaced
    flag; width and height are the standard's exactly when the cropping unit is
    that of 4:2:0 or nothing is cropped.
   */
  lemma ParsesWhatWasPrinted(nal: seq<byte>, s: ParameterSet, trailing: seq<bool>)
    requires IsNal(nal, s, trailing) && InRange(s)
    ensures Parse(nal).0 && Reports(Parse(nal).1, s)
  {
    var rbsp := RbspOfNal(nal, s, trailing);
    ParsesRbsp(rbsp, s, trailing);
  }

  /** Main result on damaged input: a parameter set cut off before the end of its last code is refused. */
  lemma CutSetIsRefused(nal: seq<byte>, s: ParameterSet, trailing: seq<bool>, kept: nat)
    requires InRange(s) && |nal| > 0
    requires var bits := Codes(SpsElements(s)) + trailing;
             && |bits| % 8 == 0 && 8 * kept < |Codes(SpsElements(s))|
             && nal[1..] == Emulation.Escape([s.profile, s.constraints, s.level] + Pack(bits)[..kept])
    ensures !Parse(nal).0
  {
    hide Codes, SpsElements, InRange;
    var code := Codes(SpsElements(s));
    var bits := code + trailing;
    var rbsp := [s.profile, s.constraints, s.level] + Pack(bits)[..kept];
    Emulation.RoundTrip(rbsp);
    assert rbsp[3..] == Pack(bits)[..kept];
    BitsOfPack(bits);
    BitsOfPrefix(Pack(bits), kept);
    assert bits[..8 * kept] == code[..8 * kept];
    CutRbspFails(rbsp, s);
  }

  lemma BitsOfPrefix(s: seq<byte>, n: nat)
    requires n <= |s|
    ensures BitsOf(s[..n]) == BitsOf(s)[..8 * n]
  {
    assert s == s[..n] + s[n..];
    BitsConcat(s[..n], s[n..]);
  }

  /** When the cropping rectangle would leave nothing, the size before cropping is reported. */
  lemma UncroppableIsKept(mbs: nat, fields: nat, cropping: bool, sum: nat)
    requires 1 <= fields <= 2 && mbs + 1 < TWO32 && 16 * fields * (mbs + 1) < TWO32 && 2 * fields * sum < TWO32
    ensures Cropped(mbs, fields, cropping, sum)
            == if cropping && 2 * fields * sum < 16 * fields * (mbs + 1) then 16 * fields * (mbs + 1) - 2 * fields * sum
               else 16 * fields * (mbs + 1)
  {
    WrapNone(mbs + 1);
    WrapNone(sum);
    if fields == 1 {
      WrapNone(16 * (mbs + 1));
      WrapNone(2 * sum);
    } else {
      WrapNone(32 * (mbs + 1));
      WrapNone(4 * sum);
    }
  }

  /** What is not a sequence parameter set, or too short for one, gives nothing. */
  lemma OthersAreRefused(sps: seq<byte>)
    requires |sps| < 4 || sps[0] % 32 != 7
    ensures Parse(sps) == (false, SpsInfo(0, 0, 0, 0, false))
  {}

  /** Table 6-1: the sampling of chroma formats 0 to 3, in which section 7.4.2.1.1 counts cropping offsets. */
  lemma CropUnits(s: ParameterSet)
    requires s.profile in HIGH_PROFILES ==> s.chroma.format <= 3
    ensures var format := if s.profile in HIGH_PROFILES then s.chroma.format else 1;
            && UnitX(s) == [1, 2, 2, 1][format]
            && UnitY(s) == [1, 2, 1, 1][format] * if s.frameMbsOnly then 1 else 2
  {}

  /** For 4:2:0, the only format of the lower profiles, the parsed size is the standard's. */
  lemma Parses420(nal: seq<byte>, s: ParameterSet, trailing: seq<bool>)
    requires IsNal(nal, s, trailing) && InRange(s) && (s.profile in HIGH_PROFILES ==> s.chroma.format == 1)
    ensures Parse(nal).0 && Parse(nal).1.width == Width(s) && Parse(nal).1.height == Height(s)
    ensures Parse(nal).1.profile == s.profile && Parse(nal).1.level == s.level
    ensures Parse(nal).1.interlaced == !s.frameMbsOnly
  {
    ParsesWhatWasPrinted(nal, s, trailing);
  }
}
