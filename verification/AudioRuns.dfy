/**
  Whole runs of the audio receiver: order along every run, the exact rule for a FLUSH
  boundary, and the fence that a FLUSH or a resume puts up.
 */
module AudioRuns {
  import opened Wrappers
  import opened Words
  import opened RtpFlush
  import opened AudioQueue
  import opened AudioAxis
  import opened AudioOrder

  // ---------------------------------------------------------------------
  // Runs
  // ---------------------------------------------------------------------

  function Run(cfg: Config, a: Axis, steps: seq<Step>): Axis
    requires cfg.Valid()
    decreases |steps|
  {
    if steps == [] then a else Run(cfg, Apply(cfg, a, steps[0]), steps[1..])
  }

  function ExecuteAll(cfg: Config, s: Rx, steps: seq<Step>): Rx
    requires cfg.Valid()
    decreases |steps|
  {
    if steps == [] then s else ExecuteAll(cfg, Execute(cfg, s, steps[0]), steps[1..])
  }

  function Arrivals(arrive: int, steps: seq<Step>): int
    decreases |steps|
  {
    if steps == [] then arrive else Arrivals(Arrive(arrive, steps[0]), steps[1..])
  }

  /** Every step of the run is admissible and stays inside the half-range window. */
  predicate Proper(cfg: Config, a: Axis, arrive: int, steps: seq<Step>)
    requires cfg.Valid()
    decreases |steps|
  {
    steps != [] ==>
      && Admissible(a, arrive, steps[0]) && InWindow(cfg, a, steps[0])
      && Proper(cfg, Apply(cfg, a, steps[0]), Arrive(arrive, steps[0]), steps[1..])
  }

  /**
    Main result on the queue: along every proper run, the receiver that sees only
    wrapping labels holds exactly the labelled state of the unbounded machine,
    whose queue is in RTP order without overlap; and while a tail from an earlier
    stream is waiting, the queue is empty.
   */
  lemma {:induction false} RunsKeepOrder(cfg: Config, a: Axis, arrive: int, steps: seq<Step>)
    requires cfg.Valid() && Inv(a, arrive) && Proper(cfg, a, arrive, steps)
    ensures ExecuteAll(cfg, Labels(a), steps) == Labels(Run(cfg, a, steps))
    ensures Inv(Run(cfg, a, steps), Arrivals(arrive, steps))
    decreases |steps|
  {
    if steps != [] {
      StepRefines(cfg, a, steps[0]);
      StepKeeps(cfg, a, arrive, steps[0]);
      RunsKeepOrder(cfg, Apply(cfg, a, steps[0]), Arrive(arrive, steps[0]), steps[1..]);
    }
  }

  // ---------------------------------------------------------------------
  // The boundary rule is exact
  // ---------------------------------------------------------------------

  ghost predicate Ordered(q: seq<Piece>) {
    exists hi :: InOrder(q, hi)
  }

  /** A packet that may come next. */
  predicate IsNext(a: Axis, arrive: int, next: Step) {
    next.PacketStep? && Admissible(a, arrive, next)
  }

  /** The queue after a FLUSH to `b` and then the packet `next`. */
  function Probed(cfg: Config, a: Axis, b: int, now: int, next: Step): seq<Piece>
    requires cfg.Valid() && next.PacketStep?
  {
    PacketAxis(cfg, FlushAxis(cfg, a, Some(b), now), next.pos, next.pcm, next.now, next.pending).queue
  }

  /** What the FLUSH and then the five-second limit leave in front of a packet of `have` values. */
  function Kept(cfg: Config, a: Axis, b: int, have: nat): seq<Piece> {
    EvictPieces(TrimPieces(a.queue, b), have, Limit(cfg))
  }

  /** Nothing is left in front of the packet, nothing of the packet is let through, or the queue ends before what is. */
  predicate StaysClear(cfg: Config, a: Axis, b: int, next: Step)
    requires next.PacketStep?
  {
    || a.queue == [] || Kept(cfg, a, b, |next.pcm|) == []
    || next.pos + Frames(next.pcm) <= b || End(a.queue) <= Max(next.pos, b)
  }

  lemma LaterArrival(a: Axis, arrive: int, pos: int)
    requires Inv(a, arrive) && arrive <= pos
    ensures Inv(a, pos)
  {
    InOrderWiden(a.queue, Reach(a, arrive), Reach(a, pos));
    if !a.imported && a.paused != [] {
      InOrderWiden(a.queue, Max(arrive, End(a.paused)), Max(pos, End(a.paused)));
    }
  }

  lemma SafeBoundaryKeepsOrder(cfg: Config, a: Axis, arrive: int, b: int, now: int, next: Step)
    requires cfg.Valid() && Inv(a, arrive) && SafeBoundary(a, arrive, b) && IsNext(a, arrive, next)
    ensures Ordered(Probed(cfg, a, b, now, next))
  {
    hide FlushAxis;
    var f := FlushAxis(cfg, a, Some(b), now);
    FlushKeeps(cfg, a, arrive, Some(b), now);
    EnteredKeeps(cfg, f, arrive, next.pos, next.pcm, next.now, next.pending);
    var after := PacketAxis(cfg, f, next.pos, next.pcm, next.now, next.pending);
    assert InOrder(after.queue, Reach(after, next.pos + Frames(next.pcm)));
  }

  /** When something is queued, the packet's admitted part is appended to what is kept. */
  lemma ProbedQueue(cfg: Config, a: Axis, arrive: int, b: int, now: int, next: Step)
    requires cfg.Valid() && Inv(a, arrive) && a.queue != [] && IsNext(a, arrive, next)
    ensures var t := TrimPiece(Piece(next.pos, next.pcm, 0), b);
            && Probed(cfg, a, b, now, next) == Kept(cfg, a, b, |next.pcm|) + (if t.samples == [] then [] else [t])
            && Stereo(t.samples) && (t.samples == [] <==> next.pos + Frames(next.pcm) <= b)
            && (t.samples != [] ==> t.pos == Max(next.pos, b))
  {
    hide TrimPieces, EvictPieces;
    var kept := Kept(cfg, a, b, |next.pcm|);
    TrimPieceFacts(Piece(next.pos, next.pcm, 0), b);
    assert kept + [] == kept;
  }

  lemma KeptInOrder(cfg: Config, a: Axis, arrive: int, b: int, have: nat)
    requires Inv(a, arrive)
    ensures Ordered(Kept(cfg, a, b, have))
  {
    TrimInOrder(a.queue, b, Reach(a, arrive));
    EvictInOrder(TrimPieces(a.queue, b), have, Limit(cfg), Reach(a, arrive));
  }

  /** A queue that reaches beyond where the next block starts is not in order any more. */
  lemma OverlapIsNotOrdered(f: seq<Piece>, t: Piece)
    requires f != [] && t.pos < End(f)
    ensures !Ordered(f + [t])
  {
    var q, n := f + [t], |f|;
    forall hi
      ensures !InOrder(q, hi)
    {
      if InOrder(q, hi) {
        TilesAreDisjoint(q, q[0].pos, hi, n - 1, n);
      }
    }
  }

  lemma KeptEnd(cfg: Config, a: Axis, arrive: int, b: int, have: nat)
    requires Inv(a, arrive) && a.queue != [] && b < End(a.queue) && Kept(cfg, a, b, have) != []
    ensures End(Kept(cfg, a, b, have)) == End(a.queue)
  {
    TrimEnd(a.queue, b, a.queue[0].pos, Reach(a, arrive));
    EvictEnd(TrimPieces(a.queue, b), have, Limit(cfg));
  }

  lemma UnsafeBoundaryOverlaps(cfg: Config, a: Axis, arrive: int, b: int, now: int, next: Step)
    requires cfg.Valid() && Inv(a, arrive) && IsNext(a, arrive, next) && !StaysClear(cfg, a, b, next)
    ensures !Ordered(Probed(cfg, a, b, now, next))
  {
    hide TrimPiece, Probed, Kept, Inv, Ordered;
    ProbedQueue(cfg, a, arrive, b, now, next);
    KeptEnd(cfg, a, arrive, b, |next.pcm|);
    OverlapIsNotOrdered(Kept(cfg, a, b, |next.pcm|), TrimPiece(Piece(next.pos, next.pcm, 0), b));
  }

  lemma LonePieceIsOrdered(p: Piece)
    requires p.samples != [] && Stereo(p.samples)
    ensures Ordered([p])
  {
    AppendInOrder([], p, p.pos);
    assert [] + [p] == [p];
    assert InOrder([p], Stop(p));
  }

  /**
    A FLUSH inside a restored tail that live packets have not reached lets the next packet in
    on top of that tail. Whatever packet comes next, it leaves the queue in order if and only if
    the five-second limit evicts all that the FLUSH kept, or the boundary refuses the whole
    packet, or the queue ends before the part it lets through.
   */
  lemma BoundaryRuleIsExact(cfg: Config, a: Axis, arrive: int, b: int, now: int, next: Step)
    requires cfg.Valid() && Inv(a, arrive) && IsNext(a, arrive, next)
    ensures Ordered(Probed(cfg, a, b, now, next)) <==> StaysClear(cfg, a, b, next)
  {
    hide TrimPiece, Probed, Kept, Ordered, Inv;
    var kept, t := Kept(cfg, a, b, |next.pcm|), TrimPiece(Piece(next.pos, next.pcm, 0), b);
    if a.queue == [] || End(a.queue) <= Max(next.pos, b) {
      LaterArrival(a, arrive, next.pos);
      SafeBoundaryKeepsOrder(cfg, a, next.pos, b, now, next);
    } else if !StaysClear(cfg, a, b, next) {
      UnsafeBoundaryOverlaps(cfg, a, arrive, b, now, next);
    } else {
      ProbedQueue(cfg, a, arrive, b, now, next);
      if t.samples == [] {
        KeptInOrder(cfg, a, arrive, b, |next.pcm|);
        assert kept + [] == kept;
      } else {
        LonePieceIsOrdered(t);
        assert [] + [t] == [t];
      }
    }
  }

  lemma {:induction false} EvictMore(q: seq<Piece>, have: nat, more: nat, limit: int)
    requires EvictPieces(q, have, limit) == [] && have <= more
    ensures EvictPieces(q, more, limit) == []
  {
    if q != [] {
      EvictMore(q[1..], have, more, limit);
    }
  }

  /**
    Over all packets: no packet that may come next disturbs the order if and only if the boundary
    is safe, or a single frame already evicts all that the FLUSH kept.
   */
  lemma SafeBoundaryIsExact(cfg: Config, a: Axis, arrive: int, b: int, now: int)
    requires cfg.Valid() && Inv(a, arrive)
    ensures (forall next :: IsNext(a, arrive, next) ==> Ordered(Probed(cfg, a, b, now, next)))
       <==> SafeBoundary(a, arrive, b) || Kept(cfg, a, b, 2) == []
  {
    hide Probed, Ordered, Inv;
    if SafeBoundary(a, arrive, b) || Kept(cfg, a, b, 2) == [] {
      forall next | IsNext(a, arrive, next)
        ensures Ordered(Probed(cfg, a, b, now, next))
      {
        BoundaryRuleIsExact(cfg, a, arrive, b, now, next);
        if Kept(cfg, a, b, 2) == [] {
          EvictMore(TrimPieces(a.queue, b), 2, |next.pcm|, Limit(cfg));
        }
      }
    } else {
      var frame := PacketStep(Max(arrive, b), [0, 0], 0, 0);
      assert IsNext(a, arrive, frame);
      BoundaryRuleIsExact(cfg, a, arrive, b, now, frame);
    }
  }

  /** One block arrives, a FLUSH saves it, and a resume puts it back after a pause of `elapsed` ns. */
  function Pause(blk: Piece, elapsed: int): seq<Step> {
    [PacketStep(blk.pos, blk.samples, 0, 0), FlushStep(Some(blk.pos), 0), ResumeStep(elapsed)]
  }

  /** A receiver that keeps paused audio, with an empty queue and no boundary pending. */
  predicate Idle(cfg: Config, a: Axis) {
    cfg.Valid() && cfg.preserve && a.sync && a.queue == [] && a.boundary.None? && !a.imported && a.paused == []
  }

  predicate FreshBlock(blk: Piece) {
    blk.samples != [] && Stereo(blk.samples) && blk.target == 0
  }

  lemma FirstBlockIsQueued(cfg: Config, a: Axis, blk: Piece)
    requires Idle(cfg, a) && FreshBlock(blk)
    ensures PacketAxis(cfg, a, blk.pos, blk.samples, 0, 0) == a.(queue := [blk])
  {
    assert [] + [] + [blk] == [blk];
  }

  lemma TrimOne(blk: Piece, b: int)
    requires FreshBlock(blk)
    ensures b <= blk.pos ==> TrimPieces([blk], b) == [blk]
    ensures Stop(blk) <= b ==> TrimPieces([blk], b) == []
  {
    TrimPieceFacts(blk, b);
    assert [blk][1..] == [];
    assert [blk] + [] == [blk];
  }

  lemma FlushSavesBlock(cfg: Config, a: Axis, blk: Piece)
    requires Idle(cfg, a) && FreshBlock(blk)
    ensures FlushAxis(cfg, a.(queue := [blk]), Some(blk.pos), 0)
            == a.(queue := [blk], paused := [blk], pausedAt := 0, boundary := Some(blk.pos))
  {
    TrimOne(blk, blk.pos);
  }

  lemma ResumeMovesBlock(a: Axis, blk: Piece, shift: u32)
    requires FreshBlock(blk) && a.queue == [blk] && a.paused == [blk]
    ensures ResumeAxisBy(a, shift)
            == a.(queue := [blk.(pos := blk.pos + shift)], paused := [], boundary := Some(Stop(blk) + shift))
  {
    ShiftedEnd([blk], shift);
    var tail := [blk.(pos := blk.pos + shift)];
    assert ShiftedPieces([blk], shift) == tail;
    TrimOne(blk, Stop(blk) + shift);
    assert tail + [] == tail;
  }

  /**
    The overlap is real: one block, a FLUSH, and a resume after any accepted pause
    reach a state in which every boundary before the restored end is unsafe.
   */
  lemma OverlapIsReachable(cfg: Config, a: Axis, blk: Piece, elapsed: int, b: int)
    requires Idle(cfg, a) && FreshBlock(blk) && MIN_PAUSE <= elapsed <= MAX_PAUSE
    requires 0 < PauseShift(cfg, elapsed) && Frames(blk.samples) + PauseShift(cfg, elapsed) < HALF32
    requires b < Stop(blk) + PauseShift(cfg, elapsed)
    ensures Inv(a, blk.pos) && Proper(cfg, a, blk.pos, Pause(blk, elapsed))
    ensures !SafeBoundary(Run(cfg, a, Pause(blk, elapsed)), Arrivals(blk.pos, Pause(blk, elapsed)), b)
  {
    var steps, shift := Pause(blk, elapsed), PauseShift(cfg, elapsed);
    var a1 := a.(queue := [blk]);
    var a2 := a1.(paused := [blk], pausedAt := 0, boundary := Some(blk.pos));
    FirstBlockIsQueued(cfg, a, blk);
    FlushSavesBlock(cfg, a, blk);
    ResumeMovesBlock(a2, blk, shift);
    var r1, r2 := steps[1..], steps[1..][1..];
    assert r1[0] == steps[1] && r2[0] == steps[2] && r2[1..] == [];
    var a3 := Apply(cfg, a2, steps[2]);
    assert Run(cfg, a, steps) == Run(cfg, a1, r1) == Run(cfg, a2, r2) == Run(cfg, a3, r2[1..]) == a3;
    var at := Stop(blk);
    assert Arrivals(blk.pos, steps) == Arrivals(at, r1) == Arrivals(at, r2) == at;
    assert Proper(cfg, a2, at, r2);
    assert Proper(cfg, a1, at, r1);
  }

  // ---------------------------------------------------------------------
  // The fence
  // ---------------------------------------------------------------------

  /** Nothing before `fence` can still be admitted. */
  predicate Fenced(a: Axis, arrive: int, fence: int) {
    match a.boundary case None => fence <= arrive case Some(b) => fence <= b
  }

  /** Steps other than FLUSH and resume. */
  predicate Quiet(step: Step) {
    step.PacketStep? || step.PopStep? || step.DiscardStep? || step.AnchorStep? || step.FirstPacketStep?
  }

  /** A FLUSH with a boundary raises the fence to it; a resume raises it to the restored end. */
  lemma FencesGoUp(cfg: Config, a: Axis, arrive: int, b: int, now: int)
    requires cfg.Valid()
    ensures Fenced(FlushAxis(cfg, a, Some(b), now), arrive, b)
    ensures ResumesAxis(a, now) ==> Fenced(ResumeAxis(cfg, a, now), arrive, ResumeEnd(cfg, a, now))
  {
    if ResumesAxis(a, now) {
      ShiftedEnd(a.paused, PauseShift(cfg, now - a.pausedAt));
    }
  }

  lemma {:induction false} EvictKeepsPieces(q: seq<Piece>, have: nat, limit: int)
    ensures forall p :: p in EvictPieces(q, have, limit) ==> p in q
  {
    if q != [] && Values(q) + have > limit {
      EvictKeepsPieces(q[1..], have, limit);
    }
  }

  /** The blocks of a tail from an earlier stream that a step puts back. */
  function RestoredBy(cfg: Config, a: Axis, step: Step): seq<Piece>
    requires cfg.Valid()
  {
    match step
    case PacketStep(pos, _, now, pending) => RestoredAxis(cfg, a, pos, now, pending)
    case _ => []
  }

  lemma QuietStepKeepsFence(cfg: Config, a: Axis, arrive: int, fence: int, step: Step)
    requires cfg.Valid() && Fenced(a, arrive, fence)
    requires Quiet(step) && Admissible(a, arrive, step)
    ensures var next := Apply(cfg, a, step);
            && Fenced(next, Arrive(arrive, step), fence)
            && (next.imported ==> a.imported && !step.PacketStep?)
            && forall p :: p in next.queue ==> p in a.queue || fence <= p.pos || p in RestoredBy(cfg, a, step)
  {
    hide EvictPieces, RestoredAxis, TrimPiece;
    if step.PacketStep? {
      var p := Piece(step.pos, step.pcm, 0);
      EvictKeepsPieces(a.queue, |step.pcm|, Limit(cfg));
      if a.boundary.Some? {
        TrimPieceFacts(p, a.boundary.value);
      }
    }
  }

  function RestoredAlong(cfg: Config, a: Axis, steps: seq<Step>): seq<Piece>
    requires cfg.Valid()
    decreases |steps|
  {
    if steps == [] then []
    else RestoredBy(cfg, a, steps[0]) + RestoredAlong(cfg, Apply(cfg, a, steps[0]), steps[1..])
  }

  predicate AllQuiet(steps: seq<Step>) {
    forall i :: 0 <= i < |steps| ==> Quiet(steps[i])
  }

  /**
    Main result on FLUSH and resume: until the next one, every block in the queue was
    there before, starts at or after the fence, or belongs to a tail restored meanwhile.
   */
  lemma {:induction false} NothingOlderEnters(cfg: Config, a: Axis, arrive: int, fence: int, steps: seq<Step>)
    requires cfg.Valid() && Fenced(a, arrive, fence)
    requires Proper(cfg, a, arrive, steps) && AllQuiet(steps)
    ensures forall p :: p in Run(cfg, a, steps).queue ==>
              p in a.queue || fence <= p.pos || p in RestoredAlong(cfg, a, steps)
    decreases |steps|
  {
    hide Fenced, Apply, RestoredBy, Admissible, InWindow, Arrive;
    if steps != [] {
      QuietStepKeepsFence(cfg, a, arrive, fence, steps[0]);
      NothingOlderEnters(cfg, Apply(cfg, a, steps[0]), Arrive(arrive, steps[0]), fence, steps[1..]);
    }
  }

  /** The step puts a block into the queue that starts before the fence. */
  ghost predicate OlderEnters(cfg: Config, a: Axis, fence: int, step: Step)
    requires cfg.Valid()
  {
    exists p :: p in Apply(cfg, a, step).queue && p !in a.queue && p.pos < fence
  }

  /** The packet at `pos` brings back a tail that then starts before the fence. */
  predicate TailReturnsBefore(a: Axis, fence: int, pos: int, now: int) {
    RestoresAxis(a, now) && a.paused[0].pos + (pos - End(a.paused)) < fence
  }

  lemma RestoredStart(cfg: Config, a: Axis, pos: int, now: int, pending: int)
    requires cfg.Valid() && RestoresAxis(a, now) && InOrder(a.paused, End(a.paused))
    ensures var r, start := RestoredAxis(cfg, a, pos, now, pending), a.paused[0].pos + (pos - End(a.paused));
            && r != [] && r[0].pos == start
            && forall p :: p in r ==> start <= p.pos
  {
    var shift := pos - End(a.paused);
    var r := RestoredAxis(cfg, a, pos, now, pending);
    var target := RestoreTarget(cfg, Labels(a), Wrap32(pos), now, pending);
    RestampTiles(cfg, a.paused, shift, target, a.paused[0].pos, End(a.paused));
    forall p | p in r
      ensures a.paused[0].pos + shift <= p.pos
    {
      var j :| 0 <= j < |r| && r[j] == p;
      TilesAfter(r, a.paused[0].pos + shift, End(a.paused) + shift, j);
    }
  }

  lemma EmptyQueueStaysEmpty(cfg: Config, a: Axis, have: nat)
    requires a.queue == []
    ensures EvictPieces(a.queue, have, Limit(cfg)) == []
  {}

  /** Exactly one thing brings an older block in: a returning tail that reaches back before the fence. */
  lemma OlderEntersExactly(cfg: Config, a: Axis, arrive: int, fence: int, step: Step)
    requires cfg.Valid() && Inv(a, arrive) && Fenced(a, arrive, fence)
    requires Quiet(step) && Admissible(a, arrive, step)
    ensures OlderEnters(cfg, a, fence, step)
       <==> step.PacketStep? && TailReturnsBefore(a, fence, step.pos, step.now)
  {
    hide EvictPieces, RestoredAxis, InOrder, Fenced;
    QuietStepKeepsFence(cfg, a, arrive, fence, step);
    if step.PacketStep? && RestoresAxis(a, step.now) {
      RestoredStart(cfg, a, step.pos, step.now, step.pending);
      EmptyQueueStaysEmpty(cfg, a, |step.pcm|);
      assert RestoredAxis(cfg, a, step.pos, step.now, step.pending)[0] in Apply(cfg, a, step).queue;
    } else if step.PacketStep? {
      assert RestoredBy(cfg, a, step) == [] by { NothingRestored(cfg, a, step.pos, step.now, step.pending); }
    }
  }

  lemma NothingRestored(cfg: Config, a: Axis, pos: int, now: int, pending: int)
    requires cfg.Valid() && !RestoresAxis(a, now)
    ensures RestoredAxis(cfg, a, pos, now, pending) == []
  {}

  ghost predicate OlderEntersRun(cfg: Config, a: Axis, fence: int, steps: seq<Step>)
    requires cfg.Valid()
    decreases |steps|
  {
    steps != [] &&
    (OlderEnters(cfg, a, fence, steps[0]) || OlderEntersRun(cfg, Apply(cfg, a, steps[0]), fence, steps[1..]))
  }

  /** Read off the state before the run: the tail still waiting returns with the first packet, unless discarded. */
  predicate TailReturnsInRun(a: Axis, fence: int, steps: seq<Step>)
    decreases |steps|
  {
    steps != [] &&
    match steps[0]
    case PacketStep(pos, _, now, _) => TailReturnsBefore(a, fence, pos, now)
    case DiscardStep => false
    case _ => TailReturnsInRun(a, fence, steps[1..])
  }

  lemma NoStepsNoReturn(a: Axis, fence: int, steps: seq<Step>)
    requires steps == []
    ensures !TailReturnsInRun(a, fence, steps)
  {}

  lemma {:induction false} NoTailNoReturn(a: Axis, fence: int, steps: seq<Step>)
    requires !a.imported
    ensures !TailReturnsInRun(a, fence, steps)
    decreases |steps|
  {
    if steps != [] {
      NoTailNoReturn(a, fence, steps[1..]);
    }
  }

  /** Only the saved tail decides. */
  lemma {:induction false} SameTailSameReturn(a: Axis, c: Axis, fence: int, steps: seq<Step>)
    requires a.imported == c.imported && a.paused == c.paused && a.pausedAt == c.pausedAt
    ensures TailReturnsInRun(a, fence, steps) == TailReturnsInRun(c, fence, steps)
    decreases |steps|
  {
    if steps != [] {
      SameTailSameReturn(a, c, fence, steps[1..]);
    }
  }

  lemma ReturnsInRunStep(cfg: Config, a: Axis, fence: int, steps: seq<Step>)
    requires cfg.Valid() && steps != [] && Quiet(steps[0])
    ensures var next := Apply(cfg, a, steps[0]);
            var now := steps[0].PacketStep? && TailReturnsBefore(a, fence, steps[0].pos, steps[0].now);
            TailReturnsInRun(a, fence, steps) <==> now || TailReturnsInRun(next, fence, steps[1..])
  {
    hide TailReturnsBefore;
    var next := Apply(cfg, a, steps[0]);
    if steps[0].PacketStep? || steps[0].DiscardStep? {
      NoTailNoReturn(next, fence, steps[1..]);
    } else {
      SameTailSameReturn(a, next, fence, steps[1..]);
    }
  }

  /**
    Main result on the fence of a stream that took over a saved tail: between one FLUSH or
    resume and the next, a block from before the fence enters if and only if that tail is
    still waiting when the first packet comes, and is long enough to reach back past the fence.
   */
  lemma {:induction false} OlderEntersRunExactly(cfg: Config, a: Axis, arrive: int, fence: int, steps: seq<Step>)
    requires cfg.Valid() && Inv(a, arrive) && Fenced(a, arrive, fence)
    requires Proper(cfg, a, arrive, steps) && AllQuiet(steps)
    ensures OlderEntersRun(cfg, a, fence, steps) <==> TailReturnsInRun(a, fence, steps)
    decreases |steps|
  {
    hide Fenced, Apply, Inv, Admissible, InWindow, Arrive, OlderEnters, TailReturnsBefore, TailReturnsInRun, RestoredBy;
    if steps == [] {
      NoStepsNoReturn(a, fence, steps);
    } else {
      OlderEntersExactly(cfg, a, arrive, fence, steps[0]);
      QuietStepKeepsFence(cfg, a, arrive, fence, steps[0]);
      StepKeeps(cfg, a, arrive, steps[0]);
      ReturnsInRunStep(cfg, a, fence, steps);
      OlderEntersRunExactly(cfg, Apply(cfg, a, steps[0]), Arrive(arrive, steps[0]), fence, steps[1..]);
    }
  }

  /**
    Such a run: a stream takes over one frame of saved audio, is flushed to 1000 before its
    first packet, and the packet at 500, itself refused, puts that frame at 499.
   */
  lemma OlderTailEnters(cfg: Config, lead: u32)
    requires cfg.Valid()
    ensures var a := Axis([], None, [Piece(100, [0, 0], 0)], 0, true, true, lead, 0, 0);
            var steps := [FlushStep(Some(1000), 0), PacketStep(500, [0, 0], 0, 0)];
            var flushed := Apply(cfg, a, steps[0]);
            && Inv(a, 500) && Proper(cfg, a, 500, steps)
            && Fenced(flushed, 500, 1000) && Quiet(steps[1])
            && |Apply(cfg, flushed, steps[1]).queue| == 1
            && Apply(cfg, flushed, steps[1]).queue[0].pos == 499
  {
    var tail := [Piece(100, [0, 0], 0)];
    var a := Axis([], None, tail, 0, true, true, lead, 0, 0);
    var steps := [FlushStep(Some(1000), 0), PacketStep(500, [0, 0], 0, 0)];
    var flushed := Apply(cfg, a, steps[0]);
    assert flushed == a.(boundary := Some(1000));
    assert tail[1..] == [];
    assert End(tail) == 101;
    var target := RestoreTarget(cfg, Labels(flushed), 500, 0, 0);
    assert RestampPieces(cfg, tail, 399, target) == [Piece(499, [0, 0], target)];
    EmptyQueueStaysEmpty(cfg, flushed, 2);
    TrimPieceFacts(Piece(500, [0, 0], 0), 1000);
    assert steps[1..][0] == steps[1] && steps[1..][1..] == [];
    assert Proper(cfg, flushed, 500, steps[1..]);
  }

  // ---------------------------------------------------------------------
  // Across streams
  // ---------------------------------------------------------------------

  /** The state a new receiver starts in when it takes over the saved tail of `a`. */
  function Successor(a: Axis, lead: u32): Axis {
    Axis([], None, a.paused, a.pausedAt, a.paused != [], true, lead, 0, 0)
  }

  /** A receiver may take over a saved tail from any state a run reaches; the new stream may start anywhere. */
  lemma SuccessorStartsInOrder(a: Axis, arrive: int, lead: u32, start: int)
    requires Inv(a, arrive)
    ensures Inv(Successor(a, lead), start)
  {}
}
