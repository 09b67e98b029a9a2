/**
  The recorder's two timelines: millisecond stamps of video frames, and PCM cut into
  AAC frames. The encoders and the muxer succeed; samples are kept as integers.
 */
module Recorder {
  import opened Words
  import opened Wrappers

  const RATE: int := 44100

  // ---------------------------------------------------------------------
  // Video stamps
  // ---------------------------------------------------------------------

  /** The stamp of the n-th frame captured at `ps[n]`. */
  function Stamp(ps: seq<int>, n: nat): int
    requires n < |ps|
    decreases n
  {
    Max(if n == 0 then 0 else Stamp(ps, n - 1) + 1, ps[n] - ps[0])
  }

  function Stamps(ps: seq<int>): (r: seq<int>)
    ensures |r| == |ps|
  {
    seq(|ps|, n requires 0 <= n < |ps| => Stamp(ps, n))
  }

  /** What frame `k` demands of frame `n`: its own time, and one millisecond for each frame in between. */
  function Demand(ps: seq<int>, k: nat, n: nat): int
    requires k < |ps|
  {
    ps[k] - ps[0] + (n - k)
  }

  lemma {:induction false} StampPrefix(ps: seq<int>, p: int, n: nat)
    requires n < |ps|
    ensures Stamp(ps + [p], n) == Stamp(ps, n)
    decreases n
  {
    if n > 0 {
      StampPrefix(ps, p, n - 1);
    }
  }

  lemma StampsAt(ps: seq<int>, n: nat)
    requires n < |ps|
    ensures Stamps(ps)[n] == Stamp(ps, n)
  {
    hide Stamp;
  }

  lemma StampsKept(ps: seq<int>, p: int, n: nat)
    requires n < |ps|
    ensures Stamps(ps + [p])[n] == Stamps(ps)[n]
  {
    hide Stamp, Stamps;
    StampPrefix(ps, p, n);
    StampsAt(ps + [p], n);
    StampsAt(ps, n);
  }

  /** One more frame. */
  lemma StampsAppend(ps: seq<int>, p: int) returns (last: int)
    ensures Stamps(ps + [p]) == Stamps(ps) + [last]
    ensures last == if ps == [] then 0 else Max(Stamps(ps)[|ps| - 1] + 1, p - ps[0])
  {
    hide Stamp, Stamps;
    forall n: nat | n < |ps|
      ensures Stamps(ps + [p])[n] == Stamps(ps)[n]
    {
      StampsKept(ps, p, n);
    }
    OneMore(Stamps(ps), Stamps(ps + [p]));
    last := Stamps(ps + [p])[|ps|];
    StampsAt(ps + [p], |ps|);
    StampLast(ps, p);
    if ps != [] {
      StampsAt(ps, |ps| - 1);
    }
  }

  lemma OneMore(s: seq<int>, t: seq<int>)
    requires |t| == |s| + 1 && forall n :: 0 <= n < |s| ==> t[n] == s[n]
    ensures t == s + [t[|s|]]
  {}

  lemma StampLast(ps: seq<int>, p: int)
    ensures ps != [] ==> Stamp(ps + [p], |ps|) == Max(Stamp(ps, |ps| - 1) + 1, p - ps[0])
    ensures ps == [] ==> Stamp(ps + [p], |ps|) == 0
  {
    if ps != [] {
      StampPrefix(ps, p, |ps| - 1);
    }
  }

  /** The n-th stamp meets every demand and is one of them: it is their maximum. */
  lemma {:induction false} StampIsMaximum(ps: seq<int>, n: nat) returns (best: nat)
    requires n < |ps|
    ensures forall k: nat :: k <= n ==> Demand(ps, k, n) <= Stamp(ps, n)
    ensures best <= n && Stamp(ps, n) == Demand(ps, best, n)
    decreases n
  {
    if n == 0 {
      best := 0;
    } else {
      best := StampIsMaximum(ps, n - 1);
      forall k: nat | k <= n
        ensures Demand(ps, k, n) <= Stamp(ps, n)
      {
        if k < n {
          assert Demand(ps, k, n) == Demand(ps, k, n - 1) + 1;
        }
      }
      if Stamp(ps, n) != Stamp(ps, n - 1) + 1 {
        best := n;
      }
    }
  }

  predicate StrictlyIncreasing(s: seq<int>) {
    forall i, j :: 0 <= i < j < |s| ==> s[i] < s[j]
  }

  lemma {:induction false} StampsGrow(ps: seq<int>, i: nat, j: nat)
    requires i < j < |ps|
    ensures Stamp(ps, i) < Stamp(ps, j)
    decreases j
  {
    if i < j - 1 {
      StampsGrow(ps, i, j - 1);
    }
  }

  lemma StampsIncrease(ps: seq<int>)
    ensures StrictlyIncreasing(Stamps(ps))
  {
    hide Stamp;
    forall i: nat, j: nat | i < j < |ps|
      ensures Stamps(ps)[i] < Stamps(ps)[j]
    {
      StampsGrow(ps, i, j);
    }
  }

  lemma AppendIncreasing(s: seq<int>, x: int)
    requires StrictlyIncreasing(s) && (s != [] ==> s[|s| - 1] < x)
    ensures StrictlyIncreasing(s + [x])
  {}

  /** No stamp is before the capture time, counted from the first frame. */
  predicate NotEarly(s: seq<int>, ps: seq<int>) {
    |s| == |ps| && forall n :: 0 <= n < |ps| ==> ps[n] - ps[0] <= s[n]
  }

  /**
    Main result on video: stamps strictly increase and are never early, and no
    other stamps with both properties are earlier anywhere.
   */
  lemma StampsAreLeast(ps: seq<int>)
    ensures StrictlyIncreasing(Stamps(ps)) && NotEarly(Stamps(ps), ps)
    ensures forall other, n :: StrictlyIncreasing(other) && NotEarly(other, ps) && 0 <= n < |ps| ==>
              Stamps(ps)[n] <= other[n]
  {
    hide Stamp;
    StampsIncrease(ps);
    forall n: nat | n < |ps|
      ensures ps[n] - ps[0] <= Stamps(ps)[n]
    {
      var best := StampIsMaximum(ps, n);
      assert Demand(ps, n, n) <= Stamp(ps, n);
    }
    forall other, n: nat | StrictlyIncreasing(other) && NotEarly(other, ps) && n < |ps|
      ensures Stamps(ps)[n] <= other[n]
    {
      var best := StampIsMaximum(ps, n);
      GapAtLeast(other, best, n);
    }
  }

  lemma {:induction false} GapAtLeast(s: seq<int>, i: nat, j: nat)
    requires StrictlyIncreasing(s) && i <= j < |s|
    ensures s[i] + (j - i) <= s[j]
    decreases j
  {
    if i < j {
      GapAtLeast(s, i, j - 1);
    }
  }

  // ---------------------------------------------------------------------
  // Audio alignment
  // ---------------------------------------------------------------------

  /** A block of interleaved stereo and the estimated time of its first sample. */
  datatype Block = Block(samples: seq<int16>, pts: int)

  function Zeros(n: nat): (s: seq<int16>)
    ensures |s| == n && forall i :: 0 <= i < n ==> s[i] == 0
  {
    seq(n, i => 0)
  }

  /** Stereo frames in a number of milliseconds, rounded down. */
  function FramesIn(ms: nat): nat {
    ms * RATE / 1000
  }

  /** The first block, moved to the zero point of the video: silence in front, or its beginning dropped. */
  function AlignedFirst(b: Block, first: int): seq<int16> {
    var delta := b.pts - first;
    if delta > 0 then Zeros(2 * FramesIn(delta)) + b.samples
    else if delta < 0 then b.samples[2 * Min(|b.samples| / 2, FramesIn(-delta))..]
    else b.samples
  }

  function Samples(blocks: seq<Block>): seq<int16> {
    if blocks == [] then [] else blocks[0].samples + Samples(blocks[1..])
  }

  /** The PCM timeline: later blocks follow without gaps. */
  function Timeline(blocks: seq<Block>, first: int): seq<int16> {
    if blocks == [] then [] else AlignedFirst(blocks[0], first) + Samples(blocks[1..])
  }

  lemma {:induction false} SamplesAppend(blocks: seq<Block>, b: Block)
    ensures Samples(blocks + [b]) == Samples(blocks) + b.samples
  {
    if blocks == [] {
      assert blocks + [b] == [b];
      assert Samples([b][1..]) == [];
    } else {
      assert (blocks + [b])[1..] == blocks[1..] + [b];
      SamplesAppend(blocks[1..], b);
    }
  }

  lemma TimelineAppend(blocks: seq<Block>, b: Block, first: int)
    ensures Timeline(blocks + [b], first)
            == Timeline(blocks, first) + if blocks == [] then AlignedFirst(b, first) else b.samples
  {
    if blocks == [] {
      assert blocks + [b] == [b];
      assert Samples([b][1..]) == [];
      assert AlignedFirst(b, first) + [] == AlignedFirst(b, first);
    } else {
      assert (blocks + [b])[1..] == blocks[1..] + [b];
      SamplesAppend(blocks[1..], b);
    }
  }

  /** The stereo frames dropped from a first block that is early. */
  function Skipped(b: Block, first: int): nat
    requires b.pts < first
  {
    Min(|b.samples| / 2, FramesIn(first - b.pts))
  }

  /** The whole timeline is the PCM as captured, moved by one constant. */
  lemma TimelineIsShifted(blocks: seq<Block>, first: int)
    requires blocks != []
    ensures blocks[0].pts >= first ==>
              Timeline(blocks, first) == Zeros(2 * FramesIn(blocks[0].pts - first)) + Samples(blocks)
    ensures blocks[0].pts < first ==>
              var skip := 2 * Skipped(blocks[0], first);
              skip <= |Samples(blocks)| && Timeline(blocks, first) == Samples(blocks)[skip..]
  {
    hide Samples, FramesIn;
    var b, rest := blocks[0], Samples(blocks[1..]);
    SamplesCons(blocks);
    if b.pts >= first {
      var silence := Zeros(2 * FramesIn(b.pts - first));
      assert FramesIn(0) == 0 by { NoFrames(); }
      assert Zeros(0) + b.samples == b.samples;
      Reassociate(silence, b.samples, rest);
    } else {
      DropFrom(b.samples, rest, 2 * Skipped(b, first));
    }
  }

  lemma NoFrames()
    ensures FramesIn(0) == 0
  {}

  lemma SamplesCons(blocks: seq<Block>)
    requires blocks != []
    ensures Samples(blocks) == blocks[0].samples + Samples(blocks[1..])
  {}

  lemma DropFrom(a: seq<int16>, b: seq<int16>, n: nat)
    requires n <= |a|
    ensures a[n..] + b == (a + b)[n..]
  {}

  /**
    That constant is right to within one sampling period for PCM that starts after the first
    picture. For PCM that starts before it, it is right if and only if the first block is as long
    as what must be skipped: the blocks behind it are never skipped.
   */
  lemma AlignmentIsWithinOneSample(blocks: seq<Block>, first: int)
    requires blocks != []
    ensures var delta, all := blocks[0].pts - first, Samples(blocks);
            && (delta >= 0 ==> exists silence: nat :: Timeline(blocks, first) == Zeros(2 * silence) + all
                                                      && 0 <= delta * RATE - silence * 1000 < 1000)
            && (delta < 0 ==> var k := Skipped(blocks[0], first);
                              && 2 * k <= |all| && Timeline(blocks, first) == all[2 * k..]
                              && (0 <= -delta * RATE - k * 1000 < 1000
                                  <==> FramesIn(-delta) <= |blocks[0].samples| / 2))
  {
    var delta, all := blocks[0].pts - first, Samples(blocks);
    TimelineIsShifted(blocks, first);
    if delta >= 0 {
      var silence := FramesIn(delta);
      assert Timeline(blocks, first) == Zeros(2 * silence) + all;
      assert 0 <= delta * RATE - silence * 1000 < 1000;
    }
  }

  /** A picture five seconds after the sound began: 480 frames are skipped where 220500 should be. */
  lemma LongSkipIsCutShort(b: Block, c: Block)
    requires |b.samples| == |c.samples| == 960 && b.pts == 0 && c.pts == 11
    ensures Timeline([b, c], 5000) == c.samples
    ensures Skipped(b, 5000) == 480 && FramesIn(5000 - b.pts) == 220500
    ensures FramesIn(5000 - c.pts) == 220014
  {
    assert [b, c][1..] == [c];
    assert Samples([c]) == c.samples + Samples([c][1..]);
    assert AlignedFirst(b, 5000) == [];
  }

  // ---------------------------------------------------------------------
  // AAC frames
  // ---------------------------------------------------------------------

  datatype AacFrame = AacFrame(pts: int, left: seq<int16>, right: seq<int16>)

  function Interleave(left: seq<int16>, right: seq<int16>): seq<int16>
    requires |left| == |right|
    decreases |left|
  {
    if left == [] then []
    else Interleave(left[..|left| - 1], right[..|left| - 1]) + [left[|left| - 1], right[|left| - 1]]
  }

  /** Left samples stand at even places, right ones behind them. */
  lemma {:induction false} InterleaveAt(left: seq<int16>, right: seq<int16>, i: nat)
    requires |left| == |right| && i < |left|
    ensures |Interleave(left, right)| == 2 * |left|
    ensures Interleave(left, right)[2 * i] == left[i] && Interleave(left, right)[2 * i + 1] == right[i]
    decreases |left|
  {
    var n := |left| - 1;
    var front := Interleave(left[..n], right[..n]);
    if i < n {
      InterleaveAt(left[..n], right[..n], i);
      assert Interleave(left, right)[2 * i] == front[2 * i] && Interleave(left, right)[2 * i + 1] == front[2 * i + 1];
    } else {
      InterleaveLength(left[..n], right[..n]);
    }
  }

  predicate IsFrame(f: AacFrame, size: nat) {
    |f.left| == |f.right| == size
  }

  predicate AreFrames(fs: seq<AacFrame>, size: nat) {
    forall j :: 0 <= j < |fs| ==> IsFrame(fs[j], size) && fs[j].pts == j * size
  }

  /** All samples of a list of frames, interleaved again. */
  function Played(fs: seq<AacFrame>, size: nat): seq<int16>
    requires AreFrames(fs, size)
    decreases |fs|
  {
    if fs == [] then []
    else Played(fs[..|fs| - 1], size) + Interleave(fs[|fs| - 1].left, fs[|fs| - 1].right)
  }

  lemma InterleaveAppend(left: seq<int16>, right: seq<int16>, l: int16, r: int16)
    requires |left| == |right|
    ensures Interleave(left + [l], right + [r]) == Interleave(left, right) + [l, r]
  {
    assert (left + [l])[..|left|] == left && (right + [r])[..|left|] == right;
  }

  lemma {:induction false} InterleaveLength(left: seq<int16>, right: seq<int16>)
    requires |left| == |right|
    ensures |Interleave(left, right)| == 2 * |left|
    decreases |left|
  {
    if left != [] {
      InterleaveLength(left[..|left| - 1], right[..|left| - 1]);
    }
  }

  lemma PlayedAppend(fs: seq<AacFrame>, f: AacFrame, size: nat)
    requires AreFrames(fs, size) && IsFrame(f, size) && f.pts == |fs| * size
    ensures AreFrames(fs + [f], size) && Played(fs + [f], size) == Played(fs, size) + Interleave(f.left, f.right)
  {
    assert (fs + [f])[..|fs|] == fs;
  }

  // ---------------------------------------------------------------------
  // The worker
  // ---------------------------------------------------------------------

  /** One turn of the worker: a frame from the video queue, if any, and all PCM queued by then. */
  datatype WakeUp = WakeUp(frame: Option<int>, batch: seq<Block>)

  function Captured(wakes: seq<WakeUp>): seq<int> {
    if wakes == [] then []
    else (match wakes[0].frame case None => [] case Some(pts) => [pts]) + Captured(wakes[1..])
  }

  /** PCM is taken from the first video frame on; before that it stays in its queue. */
  function Taken(wakes: seq<WakeUp>, started: bool): seq<Block> {
    if wakes == [] then []
    else
      var now := started || wakes[0].frame.Some?;
      (if now then wakes[0].batch else []) + Taken(wakes[1..], now)
  }

  /** All PCM of some wake-ups, in order. */
  function Batches(wakes: seq<WakeUp>): seq<Block> {
    if wakes == [] then [] else wakes[0].batch + Batches(wakes[1..])
  }

  /** What is taken is everything from the wake-up with the first frame on, and nothing while there is none. */
  lemma {:induction false} TakenFromFirstFrame(wakes: seq<WakeUp>, i: nat)
    requires i <= |wakes| && forall k :: 0 <= k < i ==> wakes[k].frame.None?
    requires i < |wakes| ==> wakes[i].frame.Some?
    ensures Taken(wakes, false) == Batches(wakes[i..])
    decreases |wakes|
  {
    if i == 0 {
      assert wakes[0..] == wakes;
      if wakes != [] {
        TakenOnceStarted(wakes[1..]);
      }
    } else {
      TakenFromFirstFrame(wakes[1..], i - 1);
      assert wakes[1..][i - 1..] == wakes[i..];
    }
  }

  lemma {:induction false} TakenOnceStarted(wakes: seq<WakeUp>)
    ensures Taken(wakes, true) == Batches(wakes)
  {
    if wakes != [] {
      TakenOnceStarted(wakes[1..]);
    }
  }

  lemma WakeStart(wakes: seq<WakeUp>)
    ensures [] + Captured(wakes[0..]) == Captured(wakes) && [] + Taken(wakes[0..], false) == Taken(wakes, false)
  {
    assert wakes[0..] == wakes;
  }

  lemma WakeStep(wakes: seq<WakeUp>, i: nat, captured: seq<int>, blocks: seq<Block>)
    requires i < |wakes|
    ensures var w := wakes[i];
            var frames := match w.frame case None => captured case Some(pts) => captured + [pts];
            && frames + Captured(wakes[i + 1..]) == captured + Captured(wakes[i..])
            && (if frames == [] then blocks else blocks + w.batch) + Taken(wakes[i + 1..], frames != [])
               == blocks + Taken(wakes[i..], captured != [])
  {
    var w, rest := wakes[i], wakes[i + 1..];
    assert wakes[i..][0] == w && wakes[i..][1..] == rest;
    var now := captured != [] || w.frame.Some?;
    assert blocks + (w.batch + Taken(rest, now)) == blocks + w.batch + Taken(rest, now);
    if w.frame.Some? {
      assert captured + ([w.frame.value] + Captured(rest)) == captured + [w.frame.value] + Captured(rest);
    }
  }

  lemma WakeEnd(rest: seq<WakeUp>, captured: seq<int>, blocks: seq<Block>)
    requires rest == []
    ensures captured + Captured(rest) == captured && blocks + Taken(rest, captured != []) == blocks
  {}

  /** What was played is the timeline without an odd last value, then silence for less than a frame. */
  ghost predicate Padding(played: seq<int16>, all: seq<int16>, size: nat) {
    exists pad: nat ::
      && played == all[..|all| / 2 * 2] + Zeros(pad)
      && pad <= 2 * size && (|all| % 2 == 0 && size > 0 ==> pad < 2 * size)
  }

  lemma EndsPadded(played: seq<int16>, pcm: seq<int16>, all: seq<int16>, size: nat)
    requires played + pcm == all && |played| % 2 == 0 && |pcm| < 2 * size
    ensures var pad: nat := if pcm == [] then 0 else 2 * size - |pcm| / 2 * 2;
            Padding(all[..|all| / 2 * 2] + Zeros(pad), all, size)
  {
    var pad: nat := if pcm == [] then 0 else 2 * size - |pcm| / 2 * 2;
    assert |all| % 2 == 0 && size > 0 ==> pad < 2 * size;
    assert all[..|all| / 2 * 2] + Zeros(pad) == all[..|all| / 2 * 2] + Zeros(pad);
  }

  class Worker {
    const frameSamples: nat
    var firstPts: int
    var lastPts: int
    var audioNextPts: int
    var timelineStarted: bool
    var audioPcm: seq<int16>
    var video: seq<int>
    var audio: seq<AacFrame>
    /** Everything taken so far: capture times and PCM blocks. */
    ghost var captured: seq<int>
    ghost var blocks: seq<Block>

    ghost predicate Valid()
      reads this
    {
      && frameSamples > 0 && VideoValid() && (captured == [] ==> blocks == [])
      && AreFrames(audio, frameSamples) && audioNextPts == |audio| * frameSamples
      && timelineStarted == (blocks != [])
      && Played(audio, frameSamples) + audioPcm == Timeline(blocks, firstPts)
      && |audioPcm| < 2 * frameSamples
    }

    ghost predicate VideoValid()
      reads this
    {
      && (forall k :: 0 <= k < |captured| ==> captured[k] >= 0)
      && (if captured == [] then firstPts == -1 && lastPts == -1
          else firstPts == captured[0] && lastPts == Stamps(captured)[|captured| - 1])
      && video == Stamps(captured)
    }

    constructor (frameSamples: nat)
      requires frameSamples > 0
      ensures Valid() && captured == [] && blocks == [] && this.frameSamples == frameSamples
    {
      this.frameSamples := frameSamples;
      firstPts, lastPts, audioNextPts := -1, -1, 0;
      timelineStarted, audioPcm, video, audio := false, [], [], [];
      captured, blocks := [], [];
    }

    method WriteVideo(pts: int)
      requires Valid() && pts >= 0
      modifies this`firstPts, this`lastPts, this`video, this`captured
      ensures Valid() && captured == old(captured) + [pts]
      ensures video == Stamps(captured)
    {
      ghost var last := StampsAppend(captured, pts);
      ghost var after := captured + [pts];
      if firstPts < 0 {
        firstPts := pts;
      }
      var stamp := if lastPts + 1 >= pts - firstPts then lastPts + 1 else pts - firstPts;
      video := video + [stamp];
      lastPts := stamp;
      captured := after;
    }

    /**
      The whole recording up to a normal stop: every captured frame and every PCM block
      that was taken, in order, is in the file.
     */
    method Record(wakes: seq<WakeUp>, elapsed: int)
      requires Valid() && captured == [] && blocks == []
      requires forall i :: 0 <= i < |wakes| ==> wakes[i].frame.Some? ==> wakes[i].frame.value >= 0
      modifies this
      ensures captured == Captured(wakes) && blocks == Taken(wakes, false)
      ensures |captured| <= |video| && video[..|captured|] == Stamps(captured) && StrictlyIncreasing(video)
      ensures AreFrames(audio, frameSamples)
      ensures Padding(Played(audio, frameSamples), Timeline(blocks, firstPts), frameSamples)
    {
      hide Stamps, Played, Timeline, AreFrames, Captured, Taken, Zeros;
      TakeAll(wakes);
      PlayedIsEven(audio, frameSamples);
      EndsPadded(Played(audio, frameSamples), audioPcm, Timeline(blocks, firstPts), frameSamples);
      PadLast();
      RepeatLast(elapsed);
    }

    method TakeAll(wakes: seq<WakeUp>)
      requires Valid() && captured == [] && blocks == []
      requires forall i :: 0 <= i < |wakes| ==> wakes[i].frame.Some? ==> wakes[i].frame.value >= 0
      modifies this
      ensures Valid() && captured == Captured(wakes) && blocks == Taken(wakes, false)
    {
      hide Stamps, Played, Timeline, AreFrames, Captured, Taken;
      var i := 0;
      WakeStart(wakes);
      while i < |wakes|
        invariant 0 <= i <= |wakes| && Valid()
        invariant captured + Captured(wakes[i..]) == Captured(wakes)
        invariant blocks + Taken(wakes[i..], captured != []) == Taken(wakes, false)
      {
        WakeStep(wakes, i, captured, blocks);
        if wakes[i].frame.Some? {
          WriteVideo(wakes[i].frame.value);
        }
        if firstPts >= 0 {
          TakeAudio(wakes[i].batch);
        }
        i := i + 1;
      }
      WakeEnd(wakes[i..], captured, blocks);
    }

    /** The PCM of one wake-up: alignment of the very first block, then whole frames are emitted. */
    method TakeAudio(batch: seq<Block>)
      requires Valid() && captured != []
      modifies this`timelineStarted, this`audioPcm, this`audio, this`audioNextPts, this`blocks
      ensures Valid() && blocks == old(blocks) + batch
    {
      hide Timeline, Stamps, AreFrames, Played;
      Queue(batch);
      while |audioPcm| >= frameSamples * 2
        invariant blocks == old(blocks) + batch && timelineStarted == (blocks != [])
        invariant AreFrames(audio, frameSamples) && audioNextPts == |audio| * frameSamples
        invariant Played(audio, frameSamples) + audioPcm == Timeline(blocks, firstPts)
        decreases |audioPcm|
      {
        EmitFrame();
      }
    }

    method Queue(batch: seq<Block>)
      requires frameSamples > 0 && AreFrames(audio, frameSamples)
      requires timelineStarted == (blocks != [])
      requires Played(audio, frameSamples) + audioPcm == Timeline(blocks, firstPts)
      modifies this`timelineStarted, this`audioPcm, this`blocks
      ensures blocks == old(blocks) + batch && timelineStarted == (blocks != [])
      ensures Played(audio, frameSamples) + audioPcm == Timeline(blocks, firstPts)
    {
      hide Timeline, AlignedFirst, Played, AreFrames;
      ghost var was := blocks;
      var i := 0;
      assert was + batch[..0] == was;
      while i < |batch|
        invariant 0 <= i <= |batch|
        invariant blocks == was + batch[..i] && timelineStarted == (blocks != [])
        invariant Played(audio, frameSamples) + audioPcm == Timeline(blocks, firstPts)
      {
        var b := batch[i];
        TimelineAppend(blocks, b, firstPts);
        var own := b.samples;
        if !timelineStarted {
          own := Align(b, firstPts);
        }
        assert Played(audio, frameSamples) + (audioPcm + own) == Played(audio, frameSamples) + audioPcm + own;
        audioPcm := audioPcm + own;
        timelineStarted := true;
        blocks := blocks + [b];
        assert was + batch[..i] + [b] == was + batch[..i + 1];
        i := i + 1;
      }
      assert batch[..i] == batch;
    }

    /** One AAC frame from the front of the PCM queue. */
    method EmitFrame()
      requires frameSamples > 0 && |audioPcm| >= frameSamples * 2
      requires AreFrames(audio, frameSamples) && audioNextPts == |audio| * frameSamples
      modifies this`audioPcm, this`audio, this`audioNextPts
      ensures AreFrames(audio, frameSamples) && audioNextPts == |audio| * frameSamples
      ensures |audio| == |old(audio)| + 1 && |audioPcm| == |old(audioPcm)| - 2 * frameSamples
      ensures Played(audio, frameSamples) + audioPcm == Played(old(audio), frameSamples) + old(audioPcm)
    {
      hide Played, AreFrames, Interleave;
      var left, right := PopFrame();
      var f := AacFrame(audioNextPts, left, right);
      PlayedAppend(audio, f, frameSamples);
      Reassociate(Played(audio, frameSamples), Interleave(left, right), audioPcm);
      audio := audio + [f];
      NextStart(|audio|, frameSamples);
      audioNextPts := audioNextPts + frameSamples;
    }

    method PopFrame() returns (left: seq<int16>, right: seq<int16>)
      requires |audioPcm| >= frameSamples * 2
      modifies this`audioPcm
      ensures |left| == |right| == frameSamples && |audioPcm| == |old(audioPcm)| - 2 * frameSamples
      ensures Interleave(left, right) + audioPcm == old(audioPcm)
    {
      hide Interleave;
      left, right := [], [];
      var i := 0;
      InterleaveNothing();
      assert Interleave(left, right) + audioPcm == audioPcm;
      while i < frameSamples
        invariant 0 <= i <= frameSamples && |left| == |right| == i
        invariant |audioPcm| == |old(audioPcm)| - 2 * i
        invariant Interleave(left, right) + audioPcm == old(audioPcm)
      {
        PopPair(left, right, audioPcm);
        left := left + [audioPcm[0]];
        audioPcm := audioPcm[1..];
        right := right + [audioPcm[0]];
        audioPcm := audioPcm[1..];
        i := i + 1;
      }
    }

    /** The last frame: what is left of the PCM, padded with silence. */
    method PadLast()
      requires Valid()
      modifies this`audioPcm, this`audio, this`audioNextPts
      ensures AreFrames(audio, frameSamples)
      ensures var all := Timeline(blocks, firstPts);
              var pad := if old(audioPcm) == [] then 0 else 2 * frameSamples - |old(audioPcm)| / 2 * 2;
              Played(audio, frameSamples) == all[..|all| / 2 * 2] + Zeros(pad)
      ensures |audioPcm| <= 1 && |audio| == |old(audio)| + if old(audioPcm) == [] then 0 else 1
    {
      hide Played, Timeline, Stamps, AreFrames, Interleave;
      ghost var all, pcm := Timeline(blocks, firstPts), audioPcm;
      PlayedIsEven(audio, frameSamples);
      if audioPcm == [] {
        NoPadding(Played(audio, frameSamples), all);
        return;
      }
      var left, right := PopPadded();
      var f := AacFrame(audioNextPts, left, right);
      PlayedAppend(audio, f, frameSamples);
      WithPadding(Played(audio, frameSamples), pcm, all, frameSamples);
      audio := audio + [f];
      audioNextPts := audioNextPts + frameSamples;
    }

    /** One frame's worth of samples, with zeros once fewer than two values are left. */
    method PopPadded() returns (left: seq<int16>, right: seq<int16>)
      requires |audioPcm| < 2 * frameSamples
      modifies this`audioPcm
      ensures |left| == |right| == frameSamples && |audioPcm| <= 1
      ensures Interleave(left, right) == Padded(old(audioPcm), frameSamples)
    {
      hide Interleave, Padded;
      ghost var pcm, n := audioPcm, |audioPcm| / 2;
      left, right := [], [];
      var i := 0;
      PadNothing(pcm);
      while i < frameSamples
        invariant 0 <= i <= frameSamples && |left| == |right| == i
        invariant audioPcm == pcm[2 * (if i < n then i else n)..]
        invariant Interleave(left, right) == Padded(pcm, i)
      {
        if |audioPcm| >= 2 {
          PadPair(left, right, pcm, i, audioPcm);
          left := left + [audioPcm[0]];
          audioPcm := audioPcm[1..];
          right := right + [audioPcm[0]];
          audioPcm := audioPcm[1..];
        } else {
          PadZero(left, right, pcm, i);
          left := left + [0];
          right := right + [0];
        }
        i := i + 1;
      }
    }

    /** The video's last frame is repeated at the end of the recording when that is later than the next stamp. */
    method RepeatLast(elapsed: int)
      requires VideoValid()
      modifies this`video
      ensures var end := Max(lastPts + 1, elapsed - Max(0, firstPts));
              video == old(video) + if captured != [] && end > lastPts + 1 then [end] else []
      ensures StrictlyIncreasing(video)
    {
      hide Stamps, Played, Timeline, AreFrames;
      StampsIncrease(captured);
      var start := if 0 >= firstPts then 0 else firstPts;
      var finalPts := if lastPts + 1 >= elapsed - start then lastPts + 1 else elapsed - start;
      if video != [] && finalPts > lastPts + 1 {
        AppendIncreasing(video, finalPts);
        video := video + [finalPts];
      }
    }
  }

  method Align(b: Block, first: int) returns (s: seq<int16>)
    ensures s == AlignedFirst(b, first)
  {
    var delta := b.pts - first;
    s := b.samples;
    if delta > 0 {
      var silence := delta * RATE / 1000;
      s := Zeros(silence * 2) + b.samples;
    } else if delta < 0 {
      var skip := if |b.samples| / 2 <= -delta * RATE / 1000 then |b.samples| / 2 else -delta * RATE / 1000;
      s := b.samples[skip * 2..];
    }
  }

  lemma NextStart(n: nat, size: nat)
    ensures n * size + size == (n + 1) * size
    ensures n >= 1 ==> (n - 1) * size + size == n * size
  {}

  lemma Reassociate(a: seq<int16>, b: seq<int16>, c: seq<int16>)
    ensures a + (b + c) == a + b + c
  {}

  lemma PopPair(left: seq<int16>, right: seq<int16>, pcm: seq<int16>)
    requires |left| == |right| && |pcm| >= 2
    ensures Interleave(left + [pcm[0]], right + [pcm[1..][0]]) + pcm[1..][1..] == Interleave(left, right) + pcm
  {
    hide Interleave;
    InterleaveAppend(left, right, pcm[0], pcm[1]);
    Reassociate(Interleave(left, right), [pcm[0], pcm[1]], pcm[2..]);
    assert pcm == [pcm[0], pcm[1]] + pcm[2..];
    assert pcm[1..][1..] == pcm[2..];
  }

  lemma {:induction false} PlayedIsEven(fs: seq<AacFrame>, size: nat)
    requires AreFrames(fs, size)
    ensures |Played(fs, size)| % 2 == 0
    decreases |fs|
  {
    if fs != [] {
      PlayedIsEven(fs[..|fs| - 1], size);
      InterleaveLength(fs[|fs| - 1].left, fs[|fs| - 1].right);
    }
  }

  /** The first `i` stereo samples of a queue that is continued with silence; an odd last value is dropped. */
  function Padded(pcm: seq<int16>, i: nat): seq<int16> {
    if i <= |pcm| / 2 then pcm[..2 * i] else pcm[..|pcm| / 2 * 2] + Zeros(2 * (i - |pcm| / 2))
  }

  lemma PadNothing(pcm: seq<int16>)
    ensures Interleave([], []) == Padded(pcm, 0) && pcm == pcm[0..]
  {
    assert pcm[..0] == [];
  }

  lemma PadPair(left: seq<int16>, right: seq<int16>, pcm: seq<int16>, i: nat, rest: seq<int16>)
    requires |left| == |right| == i && Interleave(left, right) == Padded(pcm, i) && i < |pcm| / 2
    requires rest == pcm[2 * i..]
    ensures |rest| >= 2 && Interleave(left + [rest[0]], right + [rest[1..][0]]) == Padded(pcm, i + 1)
    ensures rest[1..][1..] == pcm[2 * (i + 1)..]
  {
    hide Interleave;
    InterleaveAppend(left, right, pcm[2 * i], pcm[2 * i + 1]);
    assert pcm[..2 * (i + 1)] == pcm[..2 * i] + [pcm[2 * i], pcm[2 * i + 1]];
  }

  lemma PadZero(left: seq<int16>, right: seq<int16>, pcm: seq<int16>, i: nat)
    requires |left| == |right| == i && Interleave(left, right) == Padded(pcm, i) && i >= |pcm| / 2
    ensures Interleave(left + [0], right + [0]) == Padded(pcm, i + 1)
  {
    hide Interleave;
    var n := |pcm| / 2;
    InterleaveAppend(left, right, 0, 0);
    assert Padded(pcm, i) == pcm[..2 * n] + Zeros(2 * (i - n)) by {
      assert pcm[..2 * n] + Zeros(0) == pcm[..2 * n];
    }
    assert Zeros(2 * (i + 1 - n)) == Zeros(2 * (i - n)) + [0, 0];
  }

  lemma InterleaveNothing()
    ensures Interleave([], []) == []
  {}

  lemma NoPadding(played: seq<int16>, all: seq<int16>)
    requires |played| % 2 == 0 && played + [] == all
    ensures played == all[..|all| / 2 * 2] + Zeros(0)
  {}

  lemma WithPadding(played: seq<int16>, pcm: seq<int16>, all: seq<int16>, size: nat)
    requires |played| % 2 == 0 && played + pcm == all && |pcm| < 2 * size
    ensures played + Padded(pcm, size) == all[..|all| / 2 * 2] + Zeros(2 * size - |pcm| / 2 * 2)
  {
    var n := |pcm| / 2;
    assert |all| / 2 * 2 == |played| + 2 * n;
    assert all[..|all| / 2 * 2] == played + pcm[..2 * n];
    assert Padded(pcm, size) == pcm[..2 * n] + Zeros(2 * (size - n));
  }
}
