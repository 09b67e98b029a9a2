/**
  What the steps of the audio receiver are for: a pause loses no audio, a carried-over tail ends
  when its stream says, a saved tail grows exactly by what continues it, and blocks leave in the
  order in which they came.
 */
module AudioMeaning {
  import opened Wrappers
  import opened Words
  import opened Arithmetic
  import opened RtpFlush
  import opened AudioQueue
  import opened AudioAxis
  import opened AudioOrder
  import opened AudioReceivers
  import opened AudioRuns

  // ---------------------------------------------------------------------
  // Pause and resume
  // ---------------------------------------------------------------------

  /** The blocks, later by `shift` and without a deadline of their own. */
  function Later(q: seq<Piece>, shift: int): seq<Piece> {
    seq(|q|, i requires 0 <= i < |q| => Piece(q[i].pos + shift, q[i].samples, 0))
  }

  /** Only a synchronised receiver that keeps paused audio saves it. */
  predicate Saves(cfg: Config, a: Axis) {
    cfg.preserve && a.sync && !a.imported && a.queue != []
  }

  /**
    Main result on pauses: a FLUSH to any boundary and a resume after 200 ms to 120 s leave every
    block that was queued, in order, with its samples, later by the length of the pause; the next
    packet is taken from where they end.
   */
  lemma PauseLosesNothing(cfg: Config, a: Axis, hi: int, b: int, now: int, pause: int)
    requires cfg.Valid() && Saves(cfg, a) && InOrder(a.queue, hi)
    requires 200_000_000 <= pause <= 120_000_000_000
    ensures var shift := pause * cfg.rate / 1_000_000_000 % 4294967296;
            var after := ResumeAxis(cfg, FlushAxis(cfg, a, Some(b), now), now + pause);
            && after.queue == Later(a.queue, shift)
            && after.boundary == Some(End(a.queue) + shift) && after.paused == []
  {
    hide TrimPieces, Wrap32;
    var f := FlushAxis(cfg, a, Some(b), now);
    var shift := PauseShift(cfg, pause);
    PauseShiftIsExact(cfg, pause);
    var tail := ShiftedPieces(a.queue, shift);
    ShiftedEnd(a.queue, shift);
    TrimmedEndsThere(a.queue, b, hi, End(tail));
    assert tail == Later(a.queue, shift);
    assert tail + [] == tail;
  }

  lemma PauseShiftIsExact(cfg: Config, pause: int)
    ensures PauseShift(cfg, pause) == pause * cfg.rate / 1_000_000_000 % 4294967296
  {}

  /** What is left of an ordered queue at one boundary is nothing at a later one past its end. */
  lemma TrimmedEndsThere(q: seq<Piece>, b: int, hi: int, end: int)
    requires InOrder(q, hi) && q != [] && End(q) <= end
    ensures TrimPieces(TrimPieces(q, b), end) == []
  {
    var f := TrimPieces(q, b);
    InOrderTighten(q, hi, End(q));
    TrimInOrder(q, b, End(q));
    if f != [] {
      TilesBounds(f, f[0].pos, End(q));
      TrimAll(f, end, f[0].pos, End(q));
    } else {
      TrimAll(f, end, 0, 0);
    }
  }

  /** A pause that is shorter or longer, or of audio that was not saved, leaves what the FLUSH left. */
  lemma OtherPausesRestoreNothing(cfg: Config, a: Axis, b: int, now: int, pause: int)
    requires cfg.Valid() && !a.imported
    requires !Saves(cfg, a) || pause < 200_000_000 || 120_000_000_000 < pause
    ensures var f := FlushAxis(cfg, a, Some(b), now);
            var after := ResumeAxis(cfg, f, now + pause);
            after.queue == TrimPieces(a.queue, b) && after.boundary == Some(b) && after.paused == []
  {
    hide TrimPieces;
  }

  /** A FLUSH without a boundary empties everything, and so does a change of mode, but nothing else of mode setting. */
  lemma ModeChangeEmpties(cfg: Config, s: Rx, enabled: bool, now: int)
    ensures var on := enabled && cfg.hasNtp;
            var after := SetSynchronized(cfg, s, enabled, now);
            && after.sync == on
            && (s.sync == on ==> after == s)
            && (s.sync != on ==> after.queue == [] && after.paused == [] && !after.imported && after.boundary.None?)
  {}

  // ---------------------------------------------------------------------
  // The saved tail
  // ---------------------------------------------------------------------

  /** The packet `p` reaches past the end of the tail without a gap, and the boundary lies at most 5 s behind it. */
  predicate Continues(cfg: Config, boundary: Option<int>, end: int, p: Piece) {
    p.pos <= end < Stop(p) && boundary.Some? && 0 < boundary.value - end <= cfg.rate * 5
  }

  /** The part of `p` from position `from` to position `to`. */
  function Part(p: Piece, from: int, to: int): Piece
    requires p.pos <= from <= to <= Stop(p)
  {
    Piece(from, p.samples[2 * (from - p.pos)..2 * (to - p.pos)], p.target)
  }

  /** Main result on late packets: a saved tail grows if and only if the packet continues it, up to the boundary. */
  lemma GrowthIsExact(cfg: Config, boundary: Option<int>, paused: seq<Piece>, p: Piece)
    requires cfg.Valid() && paused != [] && Stereo(p.samples)
    ensures var end := End(paused);
            ExtendedAxis(cfg, boundary, paused, p)
            == if Continues(cfg, boundary, end, p)
               then paused + [Part(p, end, Min(Stop(p), boundary.value))]
               else paused
  {
    hide TrimPiece, GrownPieces, Stereo;
    var end := End(paused);
    DrainIsExact(p, end);
    if Continues(cfg, boundary, end, p) {
      GrownIsExact(paused, p, end, boundary.value);
    } else if boundary.Some? && p.pos <= end < Stop(p) && boundary.value == end {
      NothingGrows(paused, TrimPiece(p, end));
    }
  }

  lemma DrainIsExact(p: Piece, end: int)
    requires Stereo(p.samples)
    ensures var drain := TrimPiece(p, end);
            && (drain.pos == end && drain.samples != [] <==> p.pos <= end < Stop(p))
            && Stereo(drain.samples)
            && (p.pos <= end < Stop(p) ==> drain == Piece(end, p.samples[2 * (end - p.pos)..], p.target))
  {
    var n := Max(0, Min(end - p.pos, Frames(p.samples)));
    assert |p.samples[2 * n..]| == |p.samples| - 2 * n;
    if p.pos <= end < Stop(p) {
      assert n == end - p.pos;
    } else if end >= Stop(p) {
      assert 2 * n == |p.samples| || n == 0;
    }
  }

  lemma SliceOfSlice<T>(s: seq<T>, a: nat, k: nat)
    requires a + k <= |s|
    ensures s[a..][..k] == s[a..a + k]
  {}

  lemma NothingGrows(q: seq<Piece>, drain: Piece)
    requires Stereo(drain.samples)
    ensures GrownPieces(q, drain, 0) == q
  {
    assert drain.samples[..2 * 0] == [];
  }

  lemma GrownIsExact(q: seq<Piece>, p: Piece, end: int, b: int)
    requires Stereo(p.samples) && p.pos <= end < Stop(p) && end < b
    ensures GrownPieces(q, Piece(end, p.samples[2 * (end - p.pos)..], p.target), b - end)
            == q + [Part(p, end, Min(Stop(p), b))]
  {
    var n := end - p.pos;
    var drain := p.samples[2 * n..];
    assert |drain| == |p.samples| - 2 * n && Frames(drain) == Stop(p) - end;
    if Stop(p) > b {
      SliceOfSlice(p.samples, 2 * n, 2 * (b - end));
      assert |drain[..2 * (b - end)]| == 2 * (b - end);
    } else {
      assert 2 * (Stop(p) - p.pos) == |p.samples|;
      assert p.samples[2 * n..|p.samples|] == drain;
    }
  }

  /**
    Main result on the first packet of a new stream: the carried-over tail starts now, or so that
    its end meets the packet's time by the sender's clock, plus what the sink still holds, to
    within 2 ns.
   */
  lemma RestoreIsOnTime(cfg: Config, s: Rx, first: int, pos: int, now: int, pending: int) returns (start: int)
    requires cfg.Valid() && s.firstRtp == Wrap32(first) && Near(pos, first)
    ensures RestoreTarget(cfg, s, Wrap32(pos), now, pending) == Max(now, start)
    ensures var end := (start - pending - s.firstNs) * cfg.rate + TotalFrames(s.paused) * 1_000_000_000;
            -cfg.rate < end - (pos - first + s.lead) * 1_000_000_000 < 2 * cfg.rate
  {
    hide TruncDiv, Wrap32;
    var x, tail := (pos - first + s.lead) * NS, TotalFrames(s.paused) * NS;
    SignedOnAxis(pos, first);
    TruncDivIsClose(x, cfg.rate);
    DivBounds(tail, cfg.rate);
    var estimate, length := TruncDiv(x, cfg.rate), tail / cfg.rate;
    start := s.firstNs + estimate - length + pending;
    Distribute(estimate, length, cfg.rate);
  }

  lemma Distribute(x: int, y: int, d: int)
    ensures (x - y) * d == x * d - y * d
  {}

  /** A timing packet sets the lead if and only if the next packet is zero to five seconds ahead of it. */
  lemma LeadIsExact(cfg: Config, s: Rx, x: int, ahead: int)
    requires cfg.Valid() && -HALF32 <= ahead < HALF32
    ensures Anchored(cfg, s, Wrap32(x), Wrap32(x + ahead)).lead == if 0 <= ahead <= cfg.rate * 5 then ahead else s.lead
  {
    WrapSub(x + ahead, x);
  }

  // ---------------------------------------------------------------------
  // First in, first out
  // ---------------------------------------------------------------------

  /** The blocks of the packets, as they arrive. */
  function Arriving(steps: seq<Step>): seq<Piece>
    decreases |steps|
  {
    if steps == [] then []
    else (if steps[0].PacketStep? then [Piece(steps[0].pos, steps[0].pcm, 0)] else []) + Arriving(steps[1..])
  }

  predicate Streaming(steps: seq<Step>) {
    forall i :: 0 <= i < |steps| ==> steps[i].PopStep? || (steps[i].PacketStep? && steps[i].pcm != [])
  }

  lemma {:induction false} EvictLeavesSuffix(q: seq<Piece>, have: nat, limit: int) returns (k: nat)
    ensures k <= |q| && EvictPieces(q, have, limit) == q[k..]
    ensures Values(q) + have <= limit ==> k == 0
  {
    k := 0;
    if q != [] && Values(q) + have > limit {
      var n := EvictLeavesSuffix(q[1..], have, limit);
      k := n + 1;
    }
  }

  lemma StreamStep(cfg: Config, a: Axis, step: Step) returns (k: nat)
    requires cfg.Valid() && a.boundary.None? && !a.imported
    requires step.PopStep? || (step.PacketStep? && step.pcm != [])
    ensures var next, entering := Apply(cfg, a, step), Arriving([step]);
            && next.boundary.None? && !next.imported
            && k <= |a.queue| && next.queue == a.queue[k..] + entering
            && (step.PopStep? ==> k == Min(1, |a.queue|))
            && (step.PacketStep? && Values(a.queue) + |step.pcm| <= Limit(cfg) ==> k == 0)
  {
    hide EvictPieces, Values;
    assert [step][1..] == [];
    if step.PopStep? {
      k := Min(1, |a.queue|);
      assert a.queue[k..] + [] == PopAxis(a).queue;
    } else {
      k := EvictLeavesSuffix(a.queue, |step.pcm|, Limit(cfg));
      var p := Piece(step.pos, step.pcm, 0);
      assert a.queue[k..] + [] + [p] == a.queue[k..] + [p];
    }
  }

  function Pops(steps: seq<Step>): nat {
    if steps == [] then 0 else (if steps[0].PopStep? then 1 else 0) + Pops(steps[1..])
  }

  lemma {:induction false} ValuesConcat(q: seq<Piece>, r: seq<Piece>)
    ensures Values(q + r) == Values(q) + Values(r)
  {
    if q == [] {
      assert q + r == r;
    } else {
      assert (q + r)[1..] == q[1..] + r;
      ValuesConcat(q[1..], r);
    }
  }

  /** While all of it together fits, the packet fits and what is left still does. */
  lemma StillFits(q: seq<Piece>, m: nat, entering: seq<Piece>, more: seq<Piece>)
    requires m <= |q|
    ensures Values(q) + Values(entering) <= Values(q + (entering + more))
    ensures Values(q[m..] + entering + more) <= Values(q + (entering + more))
  {
    hide Values;
    ValuesConcat(q, entering + more);
    ValuesConcat(entering, more);
    ValuesConcat(q[m..] + entering, more);
    ValuesConcat(q[m..], entering);
    ValuesConcat(q[..m], q[m..]);
    assert q == q[..m] + q[m..];
  }

  lemma OneArrives(step: Step)
    ensures Values(Arriving([step])) == if step.PacketStep? then |step.pcm| else 0
  {
    hide Arriving;
    ArrivingOne(step);
    if step.PacketStep? {
      var p := Piece(step.pos, step.pcm, 0);
      assert [p][1..] == [];
    }
  }

  /**
    Main result on streaming: whatever has been queued or has arrived leaves from the front only,
    in that order, and nothing is changed; while all of it fits, only what is taken leaves.
   */
  lemma {:induction false} BlocksLeaveInOrder(cfg: Config, a: Axis, steps: seq<Step>) returns (k: nat)
    requires cfg.Valid() && a.boundary.None? && !a.imported && Streaming(steps)
    ensures var all := a.queue + Arriving(steps);
            && k <= |all| && Run(cfg, a, steps).queue == all[k..]
            && (Values(all) <= Limit(cfg) ==> k <= Pops(steps))
    decreases |steps|
  {
    hide Apply, Values, Limit, Arriving;
    if steps == [] {
      k := 0;
      assert Arriving(steps) == [] by { NothingArrives(); }
      assert a.queue + [] == a.queue;
    } else {
      var m := StreamStep(cfg, a, steps[0]);
      var next := Apply(cfg, a, steps[0]);
      var n := BlocksLeaveInOrder(cfg, next, steps[1..]);
      k := m + n;
      ArrivingFirst(steps);
      assert a.queue + (Arriving([steps[0]]) + Arriving(steps[1..])) == a.queue + Arriving(steps);
      Suffixes(a.queue, m, Arriving([steps[0]]), Arriving(steps[1..]), n);
      StillFits(a.queue, m, Arriving([steps[0]]), Arriving(steps[1..]));
      OneArrives(steps[0]);
    }
  }

  lemma NothingArrives()
    ensures Arriving([]) == []
  {}

  lemma ArrivingOne(step: Step)
    ensures Arriving([step]) == if step.PacketStep? then [Piece(step.pos, step.pcm, 0)] else []
  {
    assert [step][1..] == [];
    NothingArrives();
  }

  lemma ArrivingFirst(steps: seq<Step>)
    requires steps != []
    ensures Arriving(steps) == Arriving([steps[0]]) + Arriving(steps[1..])
  {
    ArrivingOne(steps[0]);
  }

  lemma Suffixes(q: seq<Piece>, m: nat, entering: seq<Piece>, more: seq<Piece>, n: nat)
    requires m <= |q| && n <= |q[m..] + entering + more|
    ensures m + n <= |q + (entering + more)|
    ensures (q[m..] + entering + more)[n..] == (q + (entering + more))[m + n..]
  {
    assert q[m..] + entering + more == (q + (entering + more))[m..];
  }
}
