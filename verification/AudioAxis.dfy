/**
  The audio queue on an unbounded time axis: the same steps with positions in
  place of wrapping labels. Inside the half range the receiver is this machine
  with every position reduced modulo 2^32.
 */
module AudioAxis {
  import opened Wrappers
  import opened Words
  import opened RtpFlush
  import opened AudioQueue

  datatype Piece = Piece(pos: int, samples: seq<int16>, target: int)

  datatype Axis = Axis(
    queue: seq<Piece>, boundary: Option<int>,
    paused: seq<Piece>, pausedAt: int, imported: bool,
    sync: bool, lead: u32, firstRtp: u32, firstNs: int)

  // ---------------------------------------------------------------------
  // The machine
  // ---------------------------------------------------------------------

  function Stop(p: Piece): int {
    p.pos + Frames(p.samples)
  }

  /** The position just past a non-empty queue. */
  function End(q: seq<Piece>): int
    requires q != []
  {
    Stop(q[|q| - 1])
  }

  function TrimPiece(p: Piece, boundary: int): Piece {
    var n := Max(0, Min(boundary - p.pos, Frames(p.samples)));
    Piece(p.pos + n, p.samples[2 * n..], p.target)
  }

  function TrimPieces(q: seq<Piece>, boundary: int): seq<Piece> {
    if q == [] then []
    else
      var p := TrimPiece(q[0], boundary);
      (if p.samples == [] then [] else [p]) + TrimPieces(q[1..], boundary)
  }

  function FlushAxis(cfg: Config, a: Axis, boundary: Option<int>, now: int): Axis {
    var imported := a.imported && boundary.Some?;
    var save := !imported && cfg.preserve && a.sync && boundary.Some? && a.queue != [];
    a.(imported := imported,
       paused := if save then a.queue else if imported then a.paused else [],
       pausedAt := if save then now else if imported then a.pausedAt else 0,
       boundary := boundary,
       queue := match boundary case None => [] case Some(b) => TrimPieces(a.queue, b))
  }

  function ShiftedPieces(q: seq<Piece>, shift: int): seq<Piece> {
    seq(|q|, i requires 0 <= i < |q| => Piece(q[i].pos + shift, q[i].samples, 0))
  }

  predicate ResumesAxis(a: Axis, now: int) {
    !a.imported && a.paused != [] && a.sync && MIN_PAUSE <= now - a.pausedAt <= MAX_PAUSE
  }

  function ResumeAxis(cfg: Config, a: Axis, now: int): Axis {
    if a.imported || a.paused == [] then a
    else if !ResumesAxis(a, now) then a.(paused := [])
    else ResumeAxisBy(a, PauseShift(cfg, now - a.pausedAt))
  }

  function ResumeAxisBy(a: Axis, shift: u32): Axis
    requires a.paused != []
  {
    var tail := ShiftedPieces(a.paused, shift);
    a.(queue := RejoinedPieces(tail, a.queue), paused := [], boundary := Some(End(tail)))
  }

  function RejoinedPieces(tail: seq<Piece>, q: seq<Piece>): seq<Piece>
    requires tail != []
  {
    tail + TrimPieces(q, End(tail))
  }

  function PopAxis(a: Axis): Axis {
    if a.queue == [] then a else a.(queue := a.queue[1..])
  }

  function Values(q: seq<Piece>): nat {
    if q == [] then 0 else |q[0].samples| + Values(q[1..])
  }

  function EvictPieces(q: seq<Piece>, have: nat, limit: int): seq<Piece> {
    if q != [] && Values(q) + have > limit then EvictPieces(q[1..], have, limit) else q
  }

  /** The saved tail grows by what continues it, up to the boundary. */
  function ExtendedAxis(cfg: Config, boundary: Option<int>, paused: seq<Piece>, p: Piece): seq<Piece> {
    if boundary.None? || paused == [] then paused
    else
      var drain := TrimPiece(p, End(paused));
      var remaining := boundary.value - drain.pos;
      if drain.pos == End(paused) && 0 <= remaining <= cfg.rate * 5 && drain.samples != []
      then GrownPieces(paused, drain, remaining)
      else paused
  }

  function GrownPieces(q: seq<Piece>, drain: Piece, remaining: nat): seq<Piece> {
    var kept := if Frames(drain.samples) > remaining then drain.samples[..2 * remaining] else drain.samples;
    if kept == [] then q else q + [drain.(samples := kept)]
  }

  function RestampPieces(cfg: Config, q: seq<Piece>, shift: int, target: int): seq<Piece>
    requires cfg.Valid()
  {
    if q == [] then []
    else
      [Piece(q[0].pos + shift, q[0].samples, target)]
      + RestampPieces(cfg, q[1..], shift, target + Duration(cfg, q[0].samples))
  }

  predicate RestoresAxis(a: Axis, now: int) {
    a.imported && a.paused != [] && now - a.pausedAt < MAX_PAUSE
  }

  /** The tail of the old stream, moved so that it ends where the packet at `pos` begins. */
  function RestoredAxis(cfg: Config, a: Axis, pos: int, now: int, pending: int): seq<Piece>
    requires cfg.Valid()
  {
    if RestoresAxis(a, now)
    then RestampPieces(cfg, a.paused, pos - End(a.paused), RestoreTarget(cfg, Labels(a), Wrap32(pos), now, pending))
    else []
  }

  function AdmittedAxis(boundary: Option<int>, p: Piece): Piece {
    match boundary case None => p case Some(b) => TrimPiece(p, b)
  }

  function EnteredAxis(cfg: Config, a: Axis, pos: int, pcm: seq<int16>, now: int, pending: int): seq<Piece>
    requires cfg.Valid()
  {
    var admitted := AdmittedAxis(a.boundary, Piece(pos, pcm, 0));
    EvictPieces(a.queue, |pcm|, Limit(cfg)) + RestoredAxis(cfg, a, pos, now, pending)
    + if admitted.samples == [] then [] else [admitted]
  }

  function PacketAxis(cfg: Config, a: Axis, pos: int, pcm: seq<int16>, now: int, pending: int): Axis
    requires cfg.Valid()
  {
    var p := Piece(pos, pcm, 0);
    a.(queue := EnteredAxis(cfg, a, pos, pcm, now, pending),
       paused := if a.imported then [] else ExtendedAxis(cfg, a.boundary, a.paused, p),
       imported := false,
       boundary := if AdmittedAxis(a.boundary, p).samples == [] then a.boundary else None)
  }

  // ---------------------------------------------------------------------
  // Labels
  // ---------------------------------------------------------------------

  function LabelPiece(p: Piece): PcmFrame {
    PcmFrame(Wrap32(p.pos), p.samples, p.target)
  }

  function LabelAll(q: seq<Piece>): (r: seq<PcmFrame>)
    ensures |r| == |q|
    ensures forall i :: 0 <= i < |q| ==> r[i] == LabelPiece(q[i])
  {
    if q == [] then [] else [LabelPiece(q[0])] + LabelAll(q[1..])
  }

  /** The receiver's state: positions become labels. */
  function Labels(a: Axis): Rx {
    Rx(LabelAll(a.queue), LabelBoundary(a.boundary),
       LabelAll(a.paused), a.pausedAt, a.imported, a.sync, a.lead, a.firstRtp, a.firstNs)
  }

  lemma LabelConcat(q: seq<Piece>, r: seq<Piece>)
    ensures LabelAll(q + r) == LabelAll(q) + LabelAll(r)
  {
  }

  lemma {:induction false} LabelValues(q: seq<Piece>)
    ensures Total(LabelAll(q)) == Values(q)
  {
    if q != [] {
      LabelTail(q);
      LabelValues(q[1..]);
    }
  }

  lemma LabelTail(q: seq<Piece>)
    requires q != []
    ensures LabelAll(q)[0] == LabelPiece(q[0]) && LabelAll(q)[1..] == LabelAll(q[1..])
  {}

  predicate AllNear(q: seq<Piece>, boundary: int) {
    forall i :: 0 <= i < |q| ==> Near(boundary, q[i].pos)
  }

  lemma TrimPieceRefines(p: Piece, boundary: int)
    requires Near(boundary, p.pos)
    ensures LabelPiece(TrimPiece(p, boundary)) == TrimFrame(LabelPiece(p), Wrap32(boundary))
  {
    LeadOnAxis(p.pos, Frames(p.samples), boundary);
    WrapAdd(p.pos, Max(0, Min(boundary - p.pos, Frames(p.samples))));
  }

  lemma {:induction false} TrimPiecesRefines(q: seq<Piece>, boundary: int)
    requires AllNear(q, boundary)
    ensures LabelAll(TrimPieces(q, boundary)) == TrimQueue(LabelAll(q), Wrap32(boundary))
  {
    if q != [] {
      var p := TrimPiece(q[0], boundary);
      var head := if p.samples == [] then [] else [p];
      TrimPieceRefines(q[0], boundary);
      TrimPiecesRefines(q[1..], boundary);
      LabelTail(q);
      LabelConcat(head, TrimPieces(q[1..], boundary));
      assert LabelAll(head) == if p.samples == [] then [] else [LabelPiece(p)];
    }
  }

  lemma EndRefines(q: seq<Piece>)
    requires q != []
    ensures EndLabel(LabelAll(q)) == Wrap32(End(q))
  {
    var p := q[|q| - 1];
    WrapAdd(Frames(p.samples), Wrap32(p.pos));
    WrapAdd(p.pos, Frames(p.samples));
  }

  lemma {:induction false} EvictRefines(q: seq<Piece>, have: nat, limit: int)
    ensures LabelAll(EvictPieces(q, have, limit)) == Evict(LabelAll(q), have, limit)
  {
    LabelValues(q);
    if q != [] && Values(q) + have > limit {
      LabelTail(q);
      EvictRefines(q[1..], have, limit);
    }
  }

  lemma ShiftRefines(q: seq<Piece>, shift: u32)
    ensures LabelAll(ShiftedPieces(q, shift)) == Shifted(LabelAll(q), shift)
  {
    hide Wrap32;
    var r := LabelAll(ShiftedPieces(q, shift));
    forall i | 0 <= i < |q|
      ensures r[i] == Shifted(LabelAll(q), shift)[i]
    {
      assert r[i] == LabelPiece(ShiftedPieces(q, shift)[i]);
      WrapAdd(q[i].pos, shift);
    }
  }

  lemma {:induction false} RestampRefines(cfg: Config, q: seq<Piece>, shift: int, target: int)
    requires cfg.Valid()
    ensures LabelAll(RestampPieces(cfg, q, shift, target)) == Restamp(cfg, LabelAll(q), Wrap32(shift), target)
  {
    if q != [] {
      LabelTail(q);
      var head := Piece(q[0].pos + shift, q[0].samples, target);
      var next := target + Duration(cfg, q[0].samples);
      RestampRefines(cfg, q[1..], shift, next);
      LabelTail([head] + RestampPieces(cfg, q[1..], shift, next));
      assert ([head] + RestampPieces(cfg, q[1..], shift, next))[1..] == RestampPieces(cfg, q[1..], shift, next);
      WrapAdd(q[0].pos, Wrap32(shift));
      WrapAdd(shift, q[0].pos);
    }
  }

  // ---------------------------------------------------------------------
  // Every step refines
  // ---------------------------------------------------------------------

  datatype Step =
    | PacketStep(pos: int, pcm: seq<int16>, now: int, pending: int)
    | PopStep
    | FlushStep(boundary: Option<int>, now: int)
    | ResumeStep(now: int)
    | DiscardStep
    | SyncStep(enabled: bool, now: int)
    | AnchorStep(rtp: u32, nextRtp: u32)
    | FirstPacketStep(rtp: u32, now: int)

  function Apply(cfg: Config, a: Axis, step: Step): Axis
    requires cfg.Valid()
  {
    match step
    case PacketStep(pos, pcm, now, pending) => PacketAxis(cfg, a, pos, pcm, now, pending)
    case PopStep => PopAxis(a)
    case FlushStep(boundary, now) => FlushAxis(cfg, a, boundary, now)
    case ResumeStep(now) => ResumeAxis(cfg, a, now)
    case DiscardStep => a.(paused := [], imported := false)
    case SyncStep(enabled, now) =>
      var on := enabled && cfg.hasNtp;
      if a.sync == on then a else FlushAxis(cfg, a.(sync := on), None, now)
    case AnchorStep(rtp, nextRtp) => a.(lead := SourceLead(cfg, a.lead, rtp, nextRtp))
    case FirstPacketStep(rtp, now) => a.(firstRtp := rtp, firstNs := now)
  }

  /** The receiver's own step: positions are known only by their labels. */
  function Execute(cfg: Config, s: Rx, step: Step): Rx
    requires cfg.Valid()
  {
    match step
    case PacketStep(pos, pcm, now, pending) => Packet(cfg, s, Wrap32(pos), pcm, now, pending)
    case PopStep => Pop(s)
    case FlushStep(boundary, now) =>
      Flush(cfg, s, LabelBoundary(boundary), now)
    case ResumeStep(now) => Resume(cfg, s, now)
    case DiscardStep => Discard(s)
    case SyncStep(enabled, now) => SetSynchronized(cfg, s, enabled, now)
    case AnchorStep(rtp, nextRtp) => Anchored(cfg, s, rtp, nextRtp)
    case FirstPacketStep(rtp, now) => FirstSeen(s, rtp, now)
  }

  /** The end of the tail that a resume puts back. */
  function ResumeEnd(cfg: Config, a: Axis, now: int): int
    requires ResumesAxis(a, now)
  {
    End(a.paused) + PauseShift(cfg, now - a.pausedAt)
  }

  /** The positions a step compares lie within half the label range of each other. */
  predicate InWindow(cfg: Config, a: Axis, step: Step) {
    match step
    case PacketStep(pos, _, _, _) =>
      a.boundary.Some? ==>
        && Near(a.boundary.value, pos)
        && (!a.imported && a.paused != [] ==> Near(End(a.paused), pos) && Near(a.boundary.value, End(a.paused)))
    case FlushStep(boundary, _) => boundary.Some? ==> AllNear(a.queue, boundary.value)
    case ResumeStep(now) => ResumesAxis(a, now) ==> AllNear(a.queue, ResumeEnd(cfg, a, now))
    case _ => true
  }

  lemma ShiftedEnd(q: seq<Piece>, shift: int)
    requires q != []
    ensures ShiftedPieces(q, shift) != [] && End(ShiftedPieces(q, shift)) == End(q) + shift
  {}

  lemma RejoinedRefines(tail: seq<Piece>, q: seq<Piece>)
    requires tail != [] && AllNear(q, End(tail))
    ensures LabelAll(RejoinedPieces(tail, q)) == Rejoined(LabelAll(tail), LabelAll(q))
  {
    EndRefines(tail);
    TrimPiecesRefines(q, End(tail));
    LabelConcat(tail, TrimPieces(q, End(tail)));
  }

  lemma ResumeByRefines(a: Axis, shift: u32)
    requires a.paused != [] && AllNear(a.queue, End(a.paused) + shift)
    ensures Labels(ResumeAxisBy(a, shift)) == ResumeBy(Labels(a), shift)
  {
    ShiftedEnd(a.paused, shift);
    ShiftRefines(a.paused, shift);
    RejoinedRefines(ShiftedPieces(a.paused, shift), a.queue);
    EndRefines(ShiftedPieces(a.paused, shift));
  }

  lemma ResumeRefines(cfg: Config, a: Axis, now: int)
    requires cfg.Valid() && InWindow(cfg, a, ResumeStep(now))
    ensures Labels(ResumeAxis(cfg, a, now)) == Resume(cfg, Labels(a), now)
  {
    if ResumesAxis(a, now) {
      ResumeByRefines(a, PauseShift(cfg, now - a.pausedAt));
    }
  }

  lemma SameLabelIsSamePosition(x: int, y: int)
    requires -HALF32 <= x - y <= HALF32
    ensures Wrap32(x) == Wrap32(y) <==> x == y
  {
    WrapSub(x, y);
  }

  /** Inside the window a short forward distance is read correctly, and a backward one never looks short. */
  lemma RemainingRefines(b: int, end: int, most: int)
    requires Near(b, end) && most <= 0x7fff_ffff
    ensures Wrap32(Wrap32(b) - Wrap32(end)) <= most <==> 0 <= b - end <= most
    ensures 0 <= b - end ==> Wrap32(Wrap32(b) - Wrap32(end)) == b - end
  {
    WrapSub(b, end);
  }

  lemma DrainPosition(p: Piece, end: int)
    requires Near(end, p.pos)
    ensures Wrap32(TrimPiece(p, end).pos) == Wrap32(end) <==> TrimPiece(p, end).pos == end
  {
    SameLabelIsSamePosition(TrimPiece(p, end).pos, end);
  }

  lemma AppendRefines(q: seq<Piece>, p: Piece)
    ensures LabelAll(q + [p]) == LabelAll(q) + [LabelPiece(p)]
  {
    LabelConcat(q, [p]);
    assert LabelAll([p]) == [LabelPiece(p)];
  }

  lemma GrownRefines(q: seq<Piece>, drain: Piece, remaining: nat)
    ensures LabelAll(GrownPieces(q, drain, remaining)) == Grown(LabelAll(q), LabelPiece(drain), remaining)
  {
    var kept := if Frames(drain.samples) > remaining then drain.samples[..2 * remaining] else drain.samples;
    AppendRefines(q, drain.(samples := kept));
  }

  function LabelBoundary(b: Option<int>): Option<u32> {
    match b case None => None case Some(pos) => Some(Wrap32(pos))
  }

  lemma ExtendedRefines(cfg: Config, boundary: Option<int>, paused: seq<Piece>, p: Piece)
    requires cfg.Valid()
    requires boundary.Some? && paused != [] ==> Near(End(paused), p.pos) && Near(boundary.value, End(paused))
    ensures LabelAll(ExtendedAxis(cfg, boundary, paused, p))
            == Extended(cfg, LabelBoundary(boundary), LabelAll(paused), LabelPiece(p))
  {
    hide Wrap32, TrimPiece, TrimFrame, GrownPieces, Grown, End, EndLabel;
    if boundary.Some? && paused != [] {
      var end, b := End(paused), boundary.value;
      var drain := TrimPiece(p, end);
      EndRefines(paused);
      TrimPieceRefines(p, end);
      DrainPosition(p, end);
      RemainingRefines(b, end, cfg.rate * 5);
      if drain.pos == end && 0 <= b - end <= cfg.rate * 5 {
        GrownRefines(paused, drain, b - end);
      }
    }
  }

  lemma RestoredRefines(cfg: Config, a: Axis, pos: int, now: int, pending: int)
    requires cfg.Valid()
    ensures LabelAll(RestoredAxis(cfg, a, pos, now, pending)) == Restored(cfg, Labels(a), Wrap32(pos), now, pending)
  {
    hide RestampPieces, Restamp, RestoreTarget, End, EndLabel;
    if RestoresAxis(a, now) {
      EndRefines(a.paused);
      WrapSub(pos, End(a.paused));
      RestampRefines(cfg, a.paused, pos - End(a.paused), RestoreTarget(cfg, Labels(a), Wrap32(pos), now, pending));
    }
  }

  lemma EnteredRefines(cfg: Config, a: Axis, pos: int, pcm: seq<int16>, now: int, pending: int)
    requires cfg.Valid() && InWindow(cfg, a, PacketStep(pos, pcm, now, pending))
    ensures LabelAll(EnteredAxis(cfg, a, pos, pcm, now, pending))
            == Entered(cfg, Labels(a), Wrap32(pos), pcm, now, pending)
    ensures LabelPiece(AdmittedAxis(a.boundary, Piece(pos, pcm, 0)))
            == Admitted(LabelBoundary(a.boundary), PcmFrame(Wrap32(pos), pcm, 0))
  {
    hide Wrap32, EvictPieces, Evict, RestoredAxis, Restored, TrimPiece, TrimFrame;
    var p := Piece(pos, pcm, 0);
    var kept, restored := EvictPieces(a.queue, |pcm|, Limit(cfg)), RestoredAxis(cfg, a, pos, now, pending);
    EvictRefines(a.queue, |pcm|, Limit(cfg));
    RestoredRefines(cfg, a, pos, now, pending);
    LabelConcat(kept, restored);
    if a.boundary.Some? {
      TrimPieceRefines(p, a.boundary.value);
    }
    AppendRefines(kept + restored, AdmittedAxis(a.boundary, p));
    assert kept + restored + [] == kept + restored;
  }

  lemma PacketRefines(cfg: Config, a: Axis, pos: int, pcm: seq<int16>, now: int, pending: int)
    requires cfg.Valid() && InWindow(cfg, a, PacketStep(pos, pcm, now, pending))
    ensures Labels(PacketAxis(cfg, a, pos, pcm, now, pending)) == Packet(cfg, Labels(a), Wrap32(pos), pcm, now, pending)
  {
    EnteredRefines(cfg, a, pos, pcm, now, pending);
    if !a.imported {
      ExtendedRefines(cfg, a.boundary, a.paused, Piece(pos, pcm, 0));
    }
  }

  /** Main refinement: inside the window, a step on labels is the step on positions. */
  lemma StepRefines(cfg: Config, a: Axis, step: Step)
    requires cfg.Valid() && InWindow(cfg, a, step)
    ensures Labels(Apply(cfg, a, step)) == Execute(cfg, Labels(a), step)
  {
    hide TrimPieces, TrimQueue, PacketAxis, Packet, ResumeAxis, Resume;
    match step
    case PacketStep(pos, pcm, now, pending) => PacketRefines(cfg, a, pos, pcm, now, pending);
    case PopStep =>
      if a.queue != [] {
        LabelTail(a.queue);
      }
    case FlushStep(boundary, now) =>
      if boundary.Some? {
        TrimPiecesRefines(a.queue, boundary.value);
      }
    case ResumeStep(now) => ResumeRefines(cfg, a, now);
    case DiscardStep =>
    case SyncStep(enabled, now) =>
    case AnchorStep(rtp, nextRtp) =>
    case FirstPacketStep(rtp, now) =>
  }
}
