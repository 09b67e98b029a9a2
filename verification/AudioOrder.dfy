/**
  What every step of the audio receiver keeps: the queue stays in RTP order without
  overlap, and the saved tail grows contiguously.
 */
module AudioOrder {
  import opened Wrappers
  import opened Words
  import opened RtpFlush
  import opened AudioQueue
  import opened AudioAxis

  /** The pieces are non-empty stereo blocks, in order, without overlap, inside [lo, hi]. */
  predicate Tiles(q: seq<Piece>, lo: int, hi: int) {
    if q == [] then lo <= hi
    else lo <= q[0].pos && q[0].samples != [] && Stereo(q[0].samples) && Tiles(q[1..], Stop(q[0]), hi)
  }

  /** In order and ending by `hi`. */
  predicate InOrder(q: seq<Piece>, hi: int) {
    q != [] ==> Tiles(q, q[0].pos, hi)
  }

  // ---------------------------------------------------------------------
  // Tilings
  // ---------------------------------------------------------------------

  lemma {:induction false} TilesWiden(q: seq<Piece>, lo: int, hi: int, lo': int, hi': int)
    requires Tiles(q, lo, hi) && lo' <= lo && hi <= hi'
    ensures Tiles(q, lo', hi')
  {
    if q != [] {
      TilesWiden(q[1..], Stop(q[0]), hi, Stop(q[0]), hi');
    }
  }

  lemma {:induction false} TilesBounds(q: seq<Piece>, lo: int, hi: int)
    requires Tiles(q, lo, hi)
    ensures lo <= hi
    ensures q != [] ==> lo <= q[0].pos < Stop(q[0]) <= End(q) <= hi
    ensures q != [] ==> Tiles(q, lo, End(q))
  {
    if q != [] {
      TilesBounds(q[1..], Stop(q[0]), hi);
      if |q| > 1 {
        assert End(q[1..]) == End(q);
      }
    }
  }

  lemma {:induction false} TilesConcat(q: seq<Piece>, r: seq<Piece>, lo: int, mid: int, hi: int)
    requires Tiles(q, lo, mid) && Tiles(r, mid, hi)
    ensures Tiles(q + r, lo, hi)
  {
    if q == [] {
      assert q + r == r;
      TilesWiden(r, mid, hi, lo, hi);
    } else {
      assert (q + r)[1..] == q[1..] + r;
      TilesConcat(q[1..], r, Stop(q[0]), mid, hi);
    }
  }

  lemma TilesCons(p: Piece, rest: seq<Piece>, lo: int, hi: int)
    requires lo <= p.pos && p.samples != [] && Stereo(p.samples) && Tiles(rest, Stop(p), hi)
    ensures Tiles([p] + rest, lo, hi)
  {
    assert ([p] + rest)[1..] == rest;
  }

  lemma TrimPieceFacts(p: Piece, b: int)
    requires Stereo(p.samples)
    ensures var t := TrimPiece(p, b);
            && Stereo(t.samples) && Stop(t) == Stop(p) && p.pos <= t.pos
            && (t.samples != [] ==> b <= t.pos)
            && (t.samples == [] <==> p.samples == [] || Stop(p) <= b)
            && (b <= p.pos ==> t == p)
  {
    var n := Max(0, Min(b - p.pos, Frames(p.samples)));
    assert |p.samples[2 * n..]| == |p.samples| - 2 * n;
  }

  /** The head of a trimmed tiling: gone, or an in-order block in front of the rest. */
  lemma TrimHead(p: Piece, rest: seq<Piece>, b: int, lo: int, hi: int)
    requires lo <= p.pos && p.samples != [] && Stereo(p.samples)
    requires Tiles(rest, Max(Stop(p), b), hi)
    ensures Tiles((if TrimPiece(p, b).samples == [] then [] else [TrimPiece(p, b)]) + rest, Max(lo, b), hi)
  {
    var t := TrimPiece(p, b);
    TrimPieceFacts(p, b);
    if t.samples == [] {
      assert [] + rest == rest;
      TilesWiden(rest, Max(Stop(p), b), hi, Max(lo, b), hi);
    } else {
      TilesCons(t, rest, Max(lo, b), hi);
    }
  }

  lemma {:induction false} TrimTiles(q: seq<Piece>, b: int, lo: int, hi: int)
    requires Tiles(q, lo, hi)
    ensures Tiles(TrimPieces(q, b), Max(lo, b), Max(b, hi))
  {
    if q == [] {
      assert TrimPieces(q, b) == [];
    } else {
      TrimTiles(q[1..], b, Stop(q[0]), hi);
      TrimHead(q[0], TrimPieces(q[1..], b), b, lo, Max(b, hi));
    }
  }

  /** A boundary past the whole queue empties it. */
  lemma {:induction false} TrimAll(q: seq<Piece>, b: int, lo: int, hi: int)
    requires Tiles(q, lo, hi) && (q != [] ==> End(q) <= b)
    ensures TrimPieces(q, b) == []
  {
    if q != [] {
      TilesBounds(q, lo, hi);
      TrimPieceFacts(q[0], b);
      if |q| > 1 {
        assert End(q[1..]) == End(q);
        TilesBounds(q[1..], Stop(q[0]), hi);
      }
      TrimAll(q[1..], b, Stop(q[0]), hi);
    }
  }

  /** A boundary before the queue's end leaves the end in place. */
  lemma {:induction false} TrimEnd(q: seq<Piece>, b: int, lo: int, hi: int)
    requires Tiles(q, lo, hi) && q != [] && b < End(q)
    ensures TrimPieces(q, b) != [] && End(TrimPieces(q, b)) == End(q)
  {
    hide TrimPiece;
    TrimPieceFacts(q[0], b);
    if |q| > 1 {
      assert End(q[1..]) == End(q);
      TrimEnd(q[1..], b, Stop(q[0]), hi);
      EndOfConcat(if TrimPiece(q[0], b).samples == [] then [] else [TrimPiece(q[0], b)], TrimPieces(q[1..], b));
    } else {
      assert TrimPieces(q[1..], b) == [];
    }
  }

  /** As long as eviction leaves something, it leaves the end in place. */
  lemma {:induction false} EvictEnd(q: seq<Piece>, have: nat, limit: int)
    requires EvictPieces(q, have, limit) != []
    ensures q != [] && End(EvictPieces(q, have, limit)) == End(q)
  {
    if q != [] && Values(q) + have > limit {
      EvictEnd(q[1..], have, limit);
      assert End(q[1..]) == End(q);
    }
  }

  lemma EndOfConcat(head: seq<Piece>, rest: seq<Piece>)
    requires rest != []
    ensures End(head + rest) == End(rest)
  {}

  lemma {:induction false} ShiftTiles(q: seq<Piece>, shift: int, lo: int, hi: int)
    requires Tiles(q, lo, hi)
    ensures Tiles(ShiftedPieces(q, shift), lo + shift, hi + shift)
  {
    if q != [] {
      ShiftTiles(q[1..], shift, Stop(q[0]), hi);
      assert ShiftedPieces(q, shift)[1..] == ShiftedPieces(q[1..], shift);
    }
  }

  lemma {:induction false} RestampTiles(cfg: Config, q: seq<Piece>, shift: int, target: int, lo: int, hi: int)
    requires cfg.Valid() && Tiles(q, lo, hi)
    ensures Tiles(RestampPieces(cfg, q, shift, target), lo + shift, hi + shift)
  {
    if q != [] {
      RestampTiles(cfg, q[1..], shift, target + Duration(cfg, q[0].samples), Stop(q[0]), hi);
      assert RestampPieces(cfg, q, shift, target)[1..]
             == RestampPieces(cfg, q[1..], shift, target + Duration(cfg, q[0].samples));
    }
  }

  lemma InOrderWiden(q: seq<Piece>, hi: int, hi': int)
    requires InOrder(q, hi) && hi <= hi'
    ensures InOrder(q, hi')
  {
    if q != [] {
      TilesWiden(q, q[0].pos, hi, q[0].pos, hi');
    }
  }

  /** An ordered queue is ordered up to any bound its end meets. */
  lemma InOrderTighten(q: seq<Piece>, hi: int, hi': int)
    requires InOrder(q, hi) && (q != [] ==> End(q) <= hi')
    ensures InOrder(q, hi')
  {
    if q != [] {
      TilesBounds(q, q[0].pos, hi);
      TilesWiden(q, q[0].pos, End(q), q[0].pos, hi');
    }
  }

  lemma TilesAreInOrder(q: seq<Piece>, lo: int, hi: int)
    requires Tiles(q, lo, hi)
    ensures InOrder(q, hi)
  {}

  lemma TailInOrder(q: seq<Piece>, hi: int)
    requires q != [] && InOrder(q, hi)
    ensures InOrder(q[1..], hi)
  {
    TilesAreInOrder(q[1..], Stop(q[0]), hi);
  }

  lemma {:induction false} EvictInOrder(q: seq<Piece>, have: nat, limit: int, hi: int)
    requires InOrder(q, hi)
    ensures InOrder(EvictPieces(q, have, limit), hi)
  {
    if q != [] && Values(q) + have > limit {
      TailInOrder(q, hi);
      EvictInOrder(q[1..], have, limit, hi);
    }
  }

  lemma TrimInOrder(q: seq<Piece>, b: int, hi: int)
    requires InOrder(q, hi)
    ensures InOrder(TrimPieces(q, b), hi)
  {
    if q != [] {
      TilesBounds(q, q[0].pos, hi);
      if b < End(q) {
        TrimTiles(q, b, q[0].pos, hi);
        TilesAreInOrder(TrimPieces(q, b), Max(q[0].pos, b), hi);
      } else {
        TrimAll(q, b, q[0].pos, hi);
      }
    }
  }

  lemma AppendInOrder(q: seq<Piece>, p: Piece, hi: int)
    requires InOrder(q, hi) && hi <= p.pos && p.samples != [] && Stereo(p.samples)
    ensures InOrder(q + [p], Stop(p))
  {
    assert [p] + [] == [p];
    TilesCons(p, [], hi, Stop(p));
    if q != [] {
      TilesConcat(q, [p], q[0].pos, hi, Stop(p));
    } else {
      assert q + [p] == [p];
    }
  }

  // ---------------------------------------------------------------------
  // The invariant
  // ---------------------------------------------------------------------

  /** Everything queued ends by here: the next packet, or the pending boundary if later. */
  function Reach(a: Axis, arrive: int): int {
    match a.boundary case None => arrive case Some(b) => Max(arrive, b)
  }

  /** `arrive` is the end of the latest packet; later packets do not start before it. */
  predicate Inv(a: Axis, arrive: int) {
    && (a.imported ==> a.queue == [])
    && InOrder(a.queue, Reach(a, arrive))
    && (a.paused != [] ==> InOrder(a.paused, End(a.paused)))
    && (!a.imported && a.paused != [] ==> InOrder(a.queue, Max(arrive, End(a.paused))))
  }

  /** A FLUSH that keeps later packets from overlapping the queue. */
  predicate SafeBoundary(a: Axis, arrive: int, b: int) {
    a.queue != [] ==> End(a.queue) <= Max(arrive, b)
  }

  /** Packets are non-empty stereo blocks in RTP order; a FLUSH boundary is safe. */
  predicate Admissible(a: Axis, arrive: int, step: Step) {
    match step
    case PacketStep(pos, pcm, _, _) => arrive <= pos && pcm != [] && Stereo(pcm)
    case FlushStep(Some(b), _) => SafeBoundary(a, arrive, b)
    case _ => true
  }

  function Arrive(arrive: int, step: Step): int {
    match step
    case PacketStep(pos, pcm, _, _) => pos + Frames(pcm)
    case _ => arrive
  }

  lemma FlushKeeps(cfg: Config, a: Axis, arrive: int, boundary: Option<int>, now: int)
    requires Inv(a, arrive)
    requires boundary.Some? ==> SafeBoundary(a, arrive, boundary.value)
    ensures Inv(FlushAxis(cfg, a, boundary, now), arrive)
  {
    match boundary
    case None =>
    case Some(b) =>
      InOrderTighten(a.queue, Reach(a, arrive), Max(arrive, b));
      TrimInOrder(a.queue, b, Max(arrive, b));
      if a.queue != [] {
        InOrderTighten(a.queue, Reach(a, arrive), End(a.queue));
        TrimInOrder(a.queue, b, End(a.queue));
        InOrderWiden(TrimPieces(a.queue, b), End(a.queue), Max(arrive, End(a.queue)));
      }
  }

  lemma RejoinedKeeps(tail: seq<Piece>, q: seq<Piece>, lo: int, hi: int)
    requires tail != [] && Tiles(tail, lo, End(tail)) && InOrder(q, hi)
    ensures InOrder(RejoinedPieces(tail, q), Max(hi, End(tail)))
  {
    var end := End(tail);
    var rest := TrimPieces(q, end);
    if q == [] {
      assert rest == [];
    } else {
      TrimTiles(q, end, q[0].pos, hi);
      TilesWiden(rest, Max(q[0].pos, end), Max(end, hi), end, Max(end, hi));
    }
    TilesConcat(tail, rest, lo, end, Max(end, hi));
    TilesAreInOrder(tail + rest, lo, Max(end, hi));
  }

  lemma ResumeKeeps(a: Axis, arrive: int, shift: u32)
    requires Inv(a, arrive) && !a.imported && a.paused != []
    ensures Inv(ResumeAxisBy(a, shift), arrive)
  {
    var tail := ShiftedPieces(a.paused, shift);
    ShiftedEnd(a.paused, shift);
    ShiftTiles(a.paused, shift, a.paused[0].pos, End(a.paused));
    InOrderWiden(a.queue, Max(arrive, End(a.paused)), Max(arrive, End(tail)));
    RejoinedKeeps(tail, a.queue, a.paused[0].pos + shift, Max(arrive, End(tail)));
  }

  /** What a packet does to the saved tail: at most one block more, continuing it, within the boundary. */
  lemma TailGrowsContiguously(cfg: Config, boundary: Option<int>, paused: seq<Piece>, p: Piece)
    requires cfg.Valid() && paused != [] && Stereo(p.samples)
    ensures var grown := ExtendedAxis(cfg, boundary, paused, p);
            || grown == paused
            || (&& boundary.Some?
                && |grown| == |paused| + 1 && grown[..|paused|] == paused
                && grown[|paused|].pos == End(paused)
                && grown[|paused|].samples != [] && Stereo(grown[|paused|].samples)
                && End(grown) <= boundary.value
                && p.pos <= End(paused) < End(grown) <= Stop(p))
  {
    if boundary.Some? {
      var drain := TrimPiece(p, End(paused));
      var remaining := boundary.value - drain.pos;
      TrimPieceFacts(p, End(paused));
      if drain.pos == End(paused) && 0 <= remaining <= cfg.rate * 5 && drain.samples != [] {
        var kept := if Frames(drain.samples) > remaining then drain.samples[..2 * remaining] else drain.samples;
        if kept != [] {
          assert Frames(kept) == Min(remaining, Frames(drain.samples));
        }
      }
    }
  }

  lemma ExtendedKeeps(cfg: Config, boundary: Option<int>, paused: seq<Piece>, p: Piece)
    requires cfg.Valid() && Stereo(p.samples)
    requires paused != [] ==> InOrder(paused, End(paused))
    ensures var grown := ExtendedAxis(cfg, boundary, paused, p);
            && (grown != [] <==> paused != [])
            && (grown != [] ==> InOrder(grown, End(grown)) && End(paused) <= End(grown))
  {
    if paused != [] {
      TailGrowsContiguously(cfg, boundary, paused, p);
      var grown := ExtendedAxis(cfg, boundary, paused, p);
      if grown != paused {
        var last := grown[|paused|];
        assert grown == paused + [last];
        AppendInOrder(paused, last, End(paused));
      }
    }
  }

  lemma RestoredKeeps(cfg: Config, a: Axis, pos: int, now: int, pending: int)
    requires cfg.Valid() && (a.paused != [] ==> InOrder(a.paused, End(a.paused)))
    ensures InOrder(RestoredAxis(cfg, a, pos, now, pending), pos)
  {
    if RestoresAxis(a, now) {
      RestampTiles(cfg, a.paused, pos - End(a.paused), RestoreTarget(cfg, Labels(a), Wrap32(pos), now, pending),
                   a.paused[0].pos, End(a.paused));
      TilesAreInOrder(RestoredAxis(cfg, a, pos, now, pending), a.paused[0].pos + pos - End(a.paused), pos);
    }
  }

  /** What eviction and restore leave in front of a packet starting at `pos`. */
  lemma FrontKeeps(cfg: Config, a: Axis, arrive: int, pos: int, pcm: seq<int16>, now: int, pending: int)
    requires cfg.Valid() && Inv(a, arrive) && arrive <= pos
    ensures InOrder(EvictPieces(a.queue, |pcm|, Limit(cfg)) + RestoredAxis(cfg, a, pos, now, pending), Reach(a, pos))
  {
    var kept, restored := EvictPieces(a.queue, |pcm|, Limit(cfg)), RestoredAxis(cfg, a, pos, now, pending);
    EvictInOrder(a.queue, |pcm|, Limit(cfg), Reach(a, arrive));
    InOrderWiden(kept, Reach(a, arrive), Reach(a, pos));
    RestoredKeeps(cfg, a, pos, now, pending);
    InOrderWiden(restored, pos, Reach(a, pos));
    if RestoresAxis(a, now) {
      assert kept == [] && kept + restored == restored;
    } else {
      assert kept + restored == kept;
    }
  }

  lemma AdmittedFacts(a: Axis, p: Piece)
    requires p.samples != [] && Stereo(p.samples)
    ensures var t := AdmittedAxis(a.boundary, p);
            Stereo(t.samples) && Stop(t) == Stop(p) && (t.samples != [] ==> Reach(a, p.pos) <= t.pos)
  {
    if a.boundary.Some? {
      TrimPieceFacts(p, a.boundary.value);
    }
  }

  /** The queue after a packet is ordered up to the packet's end or the boundary still pending. */
  lemma EnteredKeeps(cfg: Config, a: Axis, arrive: int, pos: int, pcm: seq<int16>, now: int, pending: int)
    requires cfg.Valid() && Inv(a, arrive)
    requires arrive <= pos && pcm != [] && Stereo(pcm)
    ensures var after := PacketAxis(cfg, a, pos, pcm, now, pending);
            InOrder(after.queue, Reach(after, pos + Frames(pcm)))
  {
    var p := Piece(pos, pcm, 0);
    var front := EvictPieces(a.queue, |pcm|, Limit(cfg)) + RestoredAxis(cfg, a, pos, now, pending);
    var admitted := AdmittedAxis(a.boundary, p);
    FrontKeeps(cfg, a, arrive, pos, pcm, now, pending);
    AdmittedFacts(a, p);
    if admitted.samples != [] {
      AppendInOrder(front, admitted, Reach(a, pos));
    } else {
      assert front + [] == front;
      InOrderWiden(front, Reach(a, pos), Reach(a, pos + Frames(pcm)));
    }
  }

  lemma PacketKeeps(cfg: Config, a: Axis, arrive: int, pos: int, pcm: seq<int16>, now: int, pending: int)
    requires cfg.Valid() && Inv(a, arrive)
    requires arrive <= pos && pcm != [] && Stereo(pcm)
    ensures Inv(PacketAxis(cfg, a, pos, pcm, now, pending), pos + Frames(pcm))
  {
    var after := PacketAxis(cfg, a, pos, pcm, now, pending);
    EnteredKeeps(cfg, a, arrive, pos, pcm, now, pending);
    ExtendedKeeps(cfg, a.boundary, a.paused, Piece(pos, pcm, 0));
    if after.paused != [] {
      var hi := Max(pos + Frames(pcm), End(after.paused));
      if after.boundary.None? {
        InOrderWiden(after.queue, pos + Frames(pcm), hi);
      } else {
        assert after.queue == EvictPieces(a.queue, |pcm|, Limit(cfg));
        EvictInOrder(a.queue, |pcm|, Limit(cfg), Max(arrive, End(a.paused)));
        InOrderWiden(after.queue, Max(arrive, End(a.paused)), hi);
      }
    }
  }

  lemma PopKeeps(a: Axis, arrive: int)
    requires Inv(a, arrive)
    ensures Inv(PopAxis(a), arrive)
  {
    if a.queue != [] {
      TailInOrder(a.queue, Reach(a, arrive));
      if !a.imported && a.paused != [] {
        TailInOrder(a.queue, Max(arrive, End(a.paused)));
      }
    }
  }

  lemma ResumeStepKeeps(cfg: Config, a: Axis, arrive: int, now: int)
    requires Inv(a, arrive)
    ensures Inv(ResumeAxis(cfg, a, now), arrive)
  {
    if ResumesAxis(a, now) {
      ResumeKeeps(a, arrive, PauseShift(cfg, now - a.pausedAt));
    }
  }

  lemma SyncKeeps(cfg: Config, a: Axis, arrive: int, on: bool, now: int)
    requires Inv(a, arrive)
    ensures Inv(FlushAxis(cfg, a.(sync := on), None, now), arrive)
  {
    FlushKeeps(cfg, a.(sync := on), arrive, None, now);
  }

  /** Every admissible step keeps the invariant. */
  lemma StepKeeps(cfg: Config, a: Axis, arrive: int, step: Step)
    requires cfg.Valid() && Inv(a, arrive) && Admissible(a, arrive, step)
    ensures Inv(Apply(cfg, a, step), Arrive(arrive, step))
  {
    match step
    case PacketStep(pos, pcm, now, pending) => PacketKeeps(cfg, a, arrive, pos, pcm, now, pending);
    case PopStep => PopKeeps(a, arrive);
    case FlushStep(boundary, now) => FlushKeeps(cfg, a, arrive, boundary, now);
    case ResumeStep(now) => ResumeStepKeeps(cfg, a, arrive, now);
    case DiscardStep =>
    case SyncStep(enabled, now) => SyncKeeps(cfg, a, arrive, enabled && cfg.hasNtp, now);
    case AnchorStep(_, _) =>
    case FirstPacketStep(_, _) =>
  }

  /** The order invariant, read per pair of blocks. */
  lemma {:induction false} TilesAreDisjoint(q: seq<Piece>, lo: int, hi: int, i: nat, j: nat)
    requires Tiles(q, lo, hi) && i < j < |q|
    ensures q[i].pos < Stop(q[i]) <= q[j].pos
  {
    if i == 0 {
      TilesAfter(q[1..], Stop(q[0]), hi, j - 1);
    } else {
      TilesAreDisjoint(q[1..], Stop(q[0]), hi, i - 1, j - 1);
    }
  }

  lemma {:induction false} TilesAfter(q: seq<Piece>, lo: int, hi: int, j: nat)
    requires Tiles(q, lo, hi) && j < |q|
    ensures lo <= q[j].pos
  {
    if j > 0 {
      TilesAfter(q[1..], Stop(q[0]), hi, j - 1);
    }
  }
}
