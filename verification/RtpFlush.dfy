/**
  The FLUSH boundary on wrapping RTP timestamps (section 5.1 of RFC 3550):
  trimming a PCM block, and reading the boundary from the request.
 */
module RtpFlush {
  import opened Words

  /** Stereo samples, interleaved; the first pair carries label `rtp`, each later pair one more. */
  datatype Block = Block(rtp: u32, pcm: seq<int16>)

  function Frames(pcm: seq<int16>): nat {
    |pcm| / 2
  }

  predicate Stereo(pcm: seq<int16>) {
    |pcm| % 2 == 0
  }

  /** How many leading frames of a block lie before the boundary. */
  function Lead(rtp: u32, frames: nat, boundary: u32): (n: nat)
    ensures n <= frames
  {
    var difference := Wrap32(boundary - rtp);
    if difference == 0 || difference > 0x7fff_ffff then 0 else Min(difference, frames)
  }

  function Trim(b: Block, boundary: u32): Block {
    Drop(b, Lead(b.rtp, Frames(b.pcm), boundary))
  }

  /** The block without its first `n` frames. */
  function Drop(b: Block, n: nat): Block
    requires n <= Frames(b.pcm)
  {
    Block(Wrap32(b.rtp + n), b.pcm[2 * n..])
  }

  /** `trim_before`: the reference parameters are returned. */
  method TrimBefore(rtp: u32, pcm: seq<int16>, boundary: u32) returns (rtp': u32, pcm': seq<int16>, dropped: nat)
    ensures Block(rtp', pcm') == Trim(Block(rtp, pcm), boundary)
    ensures dropped + |pcm'| == |pcm|
  {
    rtp', pcm' := rtp, pcm;
    var difference := Wrap32(boundary - rtp);
    if difference == 0 || difference > 0x7fff_ffff {
      return rtp', pcm', 0;
    }
    var frames := if difference < |pcm| / 2 then difference else |pcm| / 2;
    pcm' := pcm[frames * 2..];
    var advance := Wrap32(frames);
    assert advance == frames == Lead(rtp, Frames(pcm), boundary);
    rtp' := Wrap32(rtp + advance);
    dropped := frames * 2;
  }

  // ---------------------------------------------------------------------
  // The per-sample meaning
  // ---------------------------------------------------------------------

  /** One stereo sample with its own label. */
  datatype Frame = Frame(rtp: u32, left: int16, right: int16)

  function Labelled(b: Block): (s: seq<Frame>)
    ensures |s| == Frames(b.pcm)
  {
    seq(Frames(b.pcm), i requires 0 <= i < Frames(b.pcm) => Frame(Wrap32(b.rtp + i), b.pcm[2 * i], b.pcm[2 * i + 1]))
  }

  /** Label order in the half range of 32 bits. */
  predicate Precedes(rtp: u32, boundary: u32) {
    1 <= Wrap32(boundary - rtp) <= 0x7fff_ffff
  }

  function Keep(s: seq<Frame>, boundary: u32): seq<Frame> {
    if s == [] then []
    else (if Precedes(s[0].rtp, boundary) then [] else [s[0]]) + Keep(s[1..], boundary)
  }

  /** The block starts past the boundary but reaches the label opposite to it. */
  predicate Straddles(b: Block, boundary: u32) {
    var d := Wrap32(boundary - b.rtp);
    d > 0x7fff_ffff && Frames(b.pcm) > d - 0x7fff_ffff
  }

  lemma DropKeepsLabels(b: Block, n: nat)
    requires n <= Frames(b.pcm)
    ensures Labelled(Drop(b, n)) == Labelled(b)[n..]
  {
    hide Wrap32;
    var s, t := Labelled(Drop(b, n)), Labelled(b);
    assert Frames(b.pcm[2 * n..]) == Frames(b.pcm) - n;
    forall i | 0 <= i < |s|
      ensures s[i] == t[n + i]
    {
      WrapAdd(b.rtp + n, i);
    }
  }

  /** Surviving samples keep their labels, values and order. */
  lemma TrimKeepsLabels(b: Block, boundary: u32)
    ensures Labelled(Trim(b, boundary)) == Labelled(b)[Lead(b.rtp, Frames(b.pcm), boundary)..]
  {
    DropKeepsLabels(b, Lead(b.rtp, Frames(b.pcm), boundary));
  }

  lemma {:induction false} KeepAllOrNothing(s: seq<Frame>, boundary: u32)
    ensures (forall i :: 0 <= i < |s| ==> Precedes(s[i].rtp, boundary)) ==> Keep(s, boundary) == []
    ensures (forall i :: 0 <= i < |s| ==> !Precedes(s[i].rtp, boundary)) ==> Keep(s, boundary) == s
    ensures (exists i :: 0 <= i < |s| && Precedes(s[i].rtp, boundary)) ==> |Keep(s, boundary)| < |s|
    ensures |Keep(s, boundary)| <= |s|
  {
    if s != [] {
      KeepAllOrNothing(s[1..], boundary);
      assert s == [s[0]] + s[1..];
      forall i | 0 < i < |s|
        ensures s[i] == s[1..][i - 1]
      {}
    }
  }

  lemma {:induction false} KeepConcat(s: seq<Frame>, t: seq<Frame>, boundary: u32)
    ensures Keep(s + t, boundary) == Keep(s, boundary) + Keep(t, boundary)
  {
    if s == [] {
      assert s + t == t;
    } else {
      assert (s + t)[1..] == s[1..] + t;
      KeepConcat(s[1..], t, boundary);
    }
  }

  /** Each sample is one label nearer to the boundary than the one before it. */
  lemma LabelDistance(rtp: u32, boundary: u32, i: nat)
    requires i <= HALF32
    ensures var d := Wrap32(boundary - rtp);
            Wrap32(boundary - Wrap32(rtp + i)) == if i <= d then d - i else d - i + TWO32
  {
    WrapSub(boundary, rtp + i);
    WrapBack(boundary - rtp, i);
  }

  /** Which samples of a block precede the boundary. */
  lemma PrecedesInBlock(b: Block, boundary: u32, i: nat)
    requires i < Frames(b.pcm) <= HALF32
    ensures var d := Wrap32(boundary - b.rtp);
            Precedes(Labelled(b)[i].rtp, boundary)
            <==> if d > 0x7fff_ffff then i > d - HALF32 else i < d
  {
    LabelDistance(b.rtp, boundary, i);
  }

  /**
    Main result on trimming: on a block of at most 2^31 stereo samples, dropping a
    prefix equals dropping exactly the samples that precede the boundary, if and
    only if the block does not reach across the label opposite to the boundary.
   */
  lemma TrimIsFilter(b: Block, boundary: u32)
    requires Frames(b.pcm) <= HALF32
    ensures Labelled(Trim(b, boundary)) == Keep(Labelled(b), boundary) <==> !Straddles(b, boundary)
  {
    var s, n, d := Labelled(b), Lead(b.rtp, Frames(b.pcm), boundary), Wrap32(boundary - b.rtp);
    TrimKeepsLabels(b, boundary);
    forall i | 0 <= i < |s|
      ensures Precedes(s[i].rtp, boundary) <==> if d > 0x7fff_ffff then i > d - HALF32 else i < d
    {
      PrecedesInBlock(b, boundary, i);
    }
    FilterSplit(s, n, boundary);
    if Straddles(b, boundary) {
      assert n == 0 && Precedes(s[|s| - 1].rtp, boundary);
      KeepAllOrNothing(s, boundary);
    }
  }

  /** When exactly the first `n` labels precede the boundary, filtering drops them and no others. */
  lemma FilterSplit(s: seq<Frame>, n: nat, boundary: u32)
    requires n <= |s|
    ensures (forall i :: 0 <= i < |s| ==> (Precedes(s[i].rtp, boundary) <==> i < n)) ==> Keep(s, boundary) == s[n..]
  {
    assert s == s[..n] + s[n..];
    KeepConcat(s[..n], s[n..], boundary);
    KeepAllOrNothing(s[..n], boundary);
    KeepAllOrNothing(s[n..], boundary);
  }

  // ---------------------------------------------------------------------
  // The same on an unbounded time axis
  // ---------------------------------------------------------------------

  /** The boundary is within half the label range of the position. */
  predicate Near(boundary: int, pos: int) {
    -HALF32 <= boundary - pos < HALF32
  }

  /** Inside the half range, the leading frames are simply those with smaller positions. */
  lemma LeadOnAxis(pos: int, frames: nat, boundary: int)
    requires Near(boundary, pos)
    ensures Lead(Wrap32(pos), frames, Wrap32(boundary)) == Max(0, Min(boundary - pos, frames))
  {
    WrapSub(boundary, pos);
  }

  /** The leading frames at two boundaries add up to the leading frames at the later one. */
  lemma LeadsAdd(pos: int, f: nat, b1: int, b2: int)
    requires Near(b1, pos) && Near(b2, pos) && -HALF32 <= b2 - b1
    ensures var n := Max(0, Min(b1 - pos, f));
            && Near(b2, pos + n)
            && n + Max(0, Min(b2 - (pos + n), f - n)) == Max(0, Min(Max(b1, b2) - pos, f))
  {}

  lemma LeadsOfTwoTrims(pos: int, f: nat, b1: int, b2: int) returns (n: nat, m: nat)
    requires Near(b1, pos) && Near(b2, pos) && -HALF32 <= b2 - b1
    ensures n + m <= f
    ensures Lead(Wrap32(pos), f, Wrap32(b1)) == n
    ensures Lead(Wrap32(pos + n), f - n, Wrap32(b2)) == m
    ensures Lead(Wrap32(pos), f, Wrap32(Max(b1, b2))) == n + m
  {
    LeadsAdd(pos, f, b1, b2);
    n := Max(0, Min(b1 - pos, f));
    m := Max(0, Min(b2 - (pos + n), f - n));
    LeadOnAxis(pos, f, b1);
    LeadOnAxis(pos, f, Max(b1, b2));
    LeadOnAxis(pos + n, f - n, b2);
  }

  lemma DropTwice(pos: int, pcm: seq<int16>, n: nat, m: nat)
    requires n + m <= Frames(pcm)
    ensures var b := Block(Wrap32(pos), pcm);
            && Drop(b, n).rtp == Wrap32(pos + n)
            && Frames(Drop(b, n).pcm) == Frames(pcm) - n
            && Drop(Drop(b, n), m) == Drop(b, n + m)
  {
    WrapAdd(pos, n);
    WrapAdd(Wrap32(pos) + n, m);
    assert pcm[2 * n..][2 * m..] == pcm[2 * (n + m)..];
  }

  /** Trimming at two boundaries equals trimming at the later one. */
  lemma TrimTwice(pos: int, pcm: seq<int16>, b1: int, b2: int)
    requires Near(b1, pos) && Near(b2, pos) && -HALF32 <= b2 - b1
    ensures Trim(Trim(Block(Wrap32(pos), pcm), Wrap32(b1)), Wrap32(b2))
            == Trim(Block(Wrap32(pos), pcm), Wrap32(Max(b1, b2)))
  {
    var n, m := LeadsOfTwoTrims(pos, Frames(pcm), b1, b2);
    DropTwice(pos, pcm, n, m);
  }

  /** A label names the nearest position with that label. */
  lemma NearestPosition(rtp: u32, boundary: u32) returns (near: int)
    ensures Near(near, rtp) && Wrap32(near) == boundary
  {
    var d := Wrap32(boundary - rtp);
    near := rtp + if d < HALF32 then d else d - TWO32;
  }

  lemma TrimIsIdempotent(b: Block, boundary: u32)
    ensures Trim(Trim(b, boundary), boundary) == Trim(b, boundary)
  {
    var near := NearestPosition(b.rtp, boundary);
    TrimTwice(b.rtp, b.pcm, near, near);
    assert Wrap32(b.rtp) == b.rtp && Block(b.rtp, b.pcm) == b;
  }
}
