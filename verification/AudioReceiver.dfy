/**
  The audio receiver's mutex-protected blocks, each one atomic. Time, the sink's
  backlog and the sender-clock lookup are inputs.
 */
module AudioReceivers {
  import opened Wrappers
  import opened Words
  import opened RtpFlush
  import opened AudioQueue
  import opened Arithmetic

  const LATE: int := -250_000_000
  const EARLY: int := 1_000_000
  const BROKEN: int := 5_000_000_000
  const SINK_FULL: int := 60_000_000

  /** What a suspended receiver hands to its successor. */
  datatype PauseState = PauseState(pcm: seq<PcmFrame>, sampleRate: int, pausedAt: int, lead: u32)

  const NO_PAUSE := PauseState([], 0, 0, 0)

  datatype Decision = Wait | DropLate | Play

  /** The local deadline of a block: its own, or the anchor's time plus the label distance. */
  function Target(cfg: Config, front: PcmFrame, sync: bool, anchorRtp: u32, anchorTime: Option<int>): Option<int>
    requires cfg.Valid()
  {
    if front.target != 0 then Some(front.target)
    else if !sync then None
    else match anchorTime
      case None => None
      case Some(t) => Some(t + TruncDiv(Signed32(Wrap32(front.rtp - anchorRtp)) * NS, cfg.rate))
  }

  /** What the playout thread does with the front block. */
  function Decide(sync: bool, target: Option<int>, acquiring: bool, pending: int, now: int): Decision {
    if sync && target.None? && acquiring then Wait
    else if sync && pending > SINK_FULL then Wait
    else match target
      case None => Play
      case Some(t) =>
        var advance := t - now - pending;
        if advance > BROKEN then Play
        else if advance > EARLY then Wait
        else if advance < LATE then DropLate
        else Play
  }

  /** A block with deadline `t` is heard at `now + pending`: at most 1 ms before the deadline and 250 ms after it. */
  predicate OnTime(t: int, pending: int, now: int) {
    -1_000_000 <= now + pending - t <= 250_000_000
  }

  /** When a block is played: the sink has room, and the block is on time, or has no deadline worth waiting for. */
  predicate PlaysNow(sync: bool, deadline: Option<int>, acquiring: bool, pending: int, now: int) {
    && (sync ==> pending <= 60_000_000)
    && match deadline
       case None => !(sync && acquiring)
       case Some(t) => OnTime(t, pending, now) || t - (now + pending) > 5_000_000_000
  }

  /** When it is thrown away: the sink has room, and the block would be heard more than 250 ms late. */
  predicate DropsNow(sync: bool, deadline: Option<int>, pending: int, now: int) {
    (sync ==> pending <= 60_000_000) && deadline.Some? && now + pending - deadline.value > 250_000_000
  }

  lemma TurnIsExact(sync: bool, deadline: Option<int>, acquiring: bool, pending: int, now: int)
    ensures Decide(sync, deadline, acquiring, pending, now).Play? <==> PlaysNow(sync, deadline, acquiring, pending, now)
    ensures Decide(sync, deadline, acquiring, pending, now).DropLate? <==> DropsNow(sync, deadline, pending, now)
  {}

  /** A deadline from the anchor is the anchor's time plus the distance of the labels, to less than a nanosecond. */
  lemma DeadlineIsExact(cfg: Config, samples: seq<int16>, anchor: int, x: int, t: int)
    requires cfg.Valid() && Near(x, anchor)
    ensures var deadline := Target(cfg, PcmFrame(Wrap32(x), samples, 0), true, Wrap32(anchor), Some(t));
            && deadline.Some?
            && -cfg.rate < (deadline.value - t) * cfg.rate - (x - anchor) * 1_000_000_000 < cfg.rate
  {
    SignedOnAxis(x, anchor);
    TruncDivIsClose((x - anchor) * NS, cfg.rate);
  }

  /** A block that brings its own deadline keeps it; without synchronisation no other has one. */
  lemma OwnDeadline(cfg: Config, f: PcmFrame, sync: bool, anchorRtp: u32, anchorTime: Option<int>)
    requires cfg.Valid()
    ensures f.target != 0 ==> Target(cfg, f, sync, anchorRtp, anchorTime) == Some(f.target)
    ensures f.target == 0 && (!sync || anchorTime.None?) ==> Target(cfg, f, sync, anchorRtp, anchorTime).None?
  {}

  lemma TruncDivIsClose(a: int, d: int)
    requires d > 0
    ensures -d < TruncDiv(a, d) * d - a < d
  {
    if a >= 0 {
      DivBounds(a, d);
    } else {
      DivBounds(-a, d);
      assert TruncDiv(a, d) * d == -((-a) / d * d);
    }
  }

  lemma TruncDivMonotone(a: int, b: int, d: int)
    requires d > 0 && a <= b
    ensures TruncDiv(a, d) <= TruncDiv(b, d)
  {
    if a >= 0 {
      DivMonotone(a, b, d);
    } else if b < 0 {
      DivMonotone(-b, -a, d);
    } else {
      DivMonotone(0, b, d);
      DivMonotone(0, -a, d);
    }
  }

  /** Under one anchor, blocks later in the stream never get earlier deadlines. */
  lemma DeadlinesFollowPositions(
    cfg: Config, anchor: int, t: int, x: int, y: int, samples: seq<int16>, samples': seq<int16>)
    requires cfg.Valid() && x <= y
    requires Near(x, anchor) && Near(y, anchor)
    ensures var dx := Target(cfg, PcmFrame(Wrap32(x), samples, 0), true, Wrap32(anchor), Some(t));
            var dy := Target(cfg, PcmFrame(Wrap32(y), samples', 0), true, Wrap32(anchor), Some(t));
            dx.Some? && dy.Some? && dx.value <= dy.value
  {
    SignedOnAxis(x, anchor);
    SignedOnAxis(y, anchor);
    TruncDivMonotone((x - anchor) * NS, (y - anchor) * NS, cfg.rate);
  }

  lemma SignedOnAxis(x: int, anchor: int)
    requires Near(x, anchor)
    ensures Signed32(Wrap32(Wrap32(x) - Wrap32(anchor))) == x - anchor
  {
    WrapSub(x, anchor);
  }

  class AudioReceiver {
    const cfg: Config
    var pcmQueue: seq<PcmFrame>
    var queuedSamples: nat
    var syncRtp: u32
    var syncNtp: u64
    var haveAnchor: bool
    var clearOutput: bool
    var flushBoundary: Option<u32>
    var pausedPcm: seq<PcmFrame>
    var pausedAtNs: int
    var importedPause: bool
    var sourceLeadFrames: u32
    var haveFirstPacket: bool
    var firstPacketRtp: u32
    var firstPacketNs: int
    var synchronize: bool

    /** The running count of queued values is exact. */
    predicate Valid()
      reads this
    {
      cfg.Valid() && queuedSamples == Total(pcmQueue)
    }

    function State(): Rx
      reads this
    {
      Rx(pcmQueue, flushBoundary, pausedPcm, pausedAtNs, importedPause, synchronize,
         sourceLeadFrames, firstPacketRtp, firstPacketNs)
    }

    constructor (cfg: Config, sync: bool, state: PauseState)
      requires cfg.Valid()
      ensures Valid() && this.cfg == cfg && synchronize == (sync && cfg.hasNtp)
      ensures pcmQueue == [] && flushBoundary.None?
      ensures importedPause <==> cfg.preserve && sync && state.sampleRate == cfg.rate && state.pcm != []
      ensures importedPause ==> pausedPcm == state.pcm && pausedAtNs == state.pausedAt && sourceLeadFrames == state.lead
      ensures !importedPause ==> pausedPcm == []
    {
      this.cfg := cfg;
      pcmQueue, queuedSamples, flushBoundary := [], 0, None;
      pausedPcm, pausedAtNs, importedPause, sourceLeadFrames := [], 0, false, 0;
      if cfg.preserve && sync && state.sampleRate == cfg.rate {
        pausedPcm := state.pcm;
        pausedAtNs := state.pausedAt;
        importedPause := state.pcm != [];
        sourceLeadFrames := state.lead;
      }
      syncRtp, syncNtp, haveAnchor, clearOutput := 0, 0, false, false;
      haveFirstPacket, firstPacketRtp, firstPacketNs := false, 0, 0;
      synchronize := sync && cfg.hasNtp;
    }

    method FlushQueue(boundary: Option<u32>, now: int)
      requires Valid()
      modifies this`pcmQueue, this`queuedSamples, this`flushBoundary, this`pausedPcm, this`pausedAtNs,
               this`importedPause, this`clearOutput
      ensures Valid() && clearOutput
      ensures State() == Flush(cfg, old(State()), boundary, now)
    {
      hide TrimQueue;
      SaveTail(boundary.Some?, now);
      flushBoundary := boundary;
      if boundary.None? {
        pcmQueue := [];
        queuedSamples := 0;
      } else {
        TrimInPlace(boundary.value);
      }
      clearOutput := true;
    }

    /** The queue becomes the saved tail, unless a tail of an earlier stream is still waiting. */
    method SaveTail(bounded: bool, now: int)
      requires Valid()
      modifies this`importedPause, this`pausedPcm, this`pausedAtNs
      ensures importedPause == (old(importedPause) && bounded)
      ensures if !importedPause && cfg.preserve && synchronize && bounded && pcmQueue != []
              then pausedPcm == pcmQueue && pausedAtNs == now
              else if importedPause then pausedPcm == old(pausedPcm) && pausedAtNs == old(pausedAtNs)
              else pausedPcm == [] && pausedAtNs == 0
    {
      if !bounded {
        importedPause := false;
      }
      if !importedPause {
        pausedPcm := [];
        pausedAtNs := 0;
      }
      if !importedPause && cfg.preserve && synchronize && bounded && pcmQueue != [] {
        pausedPcm := pcmQueue;
        pausedAtNs := now;
      }
    }

    /** The erase-while-trimming loop of a FLUSH; the unsigned count never wraps. */
    method TrimInPlace(boundary: u32)
      requires Valid()
      modifies this`pcmQueue, this`queuedSamples
      ensures Valid()
      ensures pcmQueue == TrimQueue(old(pcmQueue), boundary)
    {
      hide TrimFrame, Total;
      var i := 0;
      assert pcmQueue[..0] == [] && pcmQueue[0..] == pcmQueue;
      assert [] + TrimQueue(pcmQueue, boundary) == TrimQueue(pcmQueue, boundary);
      while i < |pcmQueue|
        invariant 0 <= i <= |pcmQueue|
        invariant queuedSamples == Total(pcmQueue)
        invariant pcmQueue[..i] + TrimQueue(pcmQueue[i..], boundary) == TrimQueue(old(pcmQueue), boundary)
        decreases |pcmQueue| - i
      {
        var g, dropped := Trimmed(pcmQueue[i], boundary);
        TotalSplice(pcmQueue, i, g);
        TrimSplice(pcmQueue, i, boundary);
        queuedSamples := queuedSamples - dropped;
        if g.samples == [] {
          pcmQueue := pcmQueue[..i] + pcmQueue[i + 1..];
        } else {
          pcmQueue := pcmQueue[i := g];
          i := i + 1;
        }
      }
      assert pcmQueue[i..] == [];
      assert pcmQueue[..i] + [] == pcmQueue;
    }

    static method Trimmed(f: PcmFrame, boundary: u32) returns (g: PcmFrame, dropped: nat)
      ensures g == TrimFrame(f, boundary)
      ensures dropped + |g.samples| == |f.samples|
    {
      var rtp, samples;
      rtp, samples, dropped := TrimBefore(f.rtp, f.samples, boundary);
      g := PcmFrame(rtp, samples, f.target);
    }

    /** Trimming position `i` of a queue whose front is already trimmed: erase, or replace and move on. */
    static lemma TrimSplice(q: seq<PcmFrame>, i: nat, boundary: u32)
      requires i < |q|
      ensures var g := TrimFrame(q[i], boundary);
              var whole := q[..i] + TrimQueue(q[i..], boundary);
              && (g.samples == [] ==>
                    (q[..i] + q[i + 1..])[..i] + TrimQueue((q[..i] + q[i + 1..])[i..], boundary) == whole)
              && (g.samples != [] ==> q[i := g][..i + 1] + TrimQueue(q[i := g][i + 1..], boundary) == whole)
    {
      hide TrimFrame;
      var g := TrimFrame(q[i], boundary);
      var rest := TrimQueue(q[i + 1..], boundary);
      TrimQueueStep(q[i..], boundary);
      assert q[i..][1..] == q[i + 1..];
      if g.samples == [] {
        assert (q[..i] + q[i + 1..])[i..] == q[i + 1..];
        assert (q[..i] + q[i + 1..])[..i] == q[..i];
        assert [] + rest == rest;
      } else {
        assert q[i := g][i + 1..] == q[i + 1..];
        assert q[i := g][..i + 1] == q[..i] + [g];
        assert q[..i] + ([g] + rest) == q[..i] + [g] + rest;
      }
    }

    static lemma TrimQueueStep(q: seq<PcmFrame>, boundary: u32)
      requires q != []
      ensures TrimQueue(q, boundary)
              == (if TrimFrame(q[0], boundary).samples == [] then [] else [TrimFrame(q[0], boundary)])
                 + TrimQueue(q[1..], boundary)
    {}

    static lemma TotalSplice(q: seq<PcmFrame>, i: nat, g: PcmFrame)
      requires i < |q|
      ensures Total(q[..i] + q[i + 1..]) == Total(q) - |q[i].samples|
      ensures Total(q[i := g]) == Total(q) - |q[i].samples| + |g.samples|
      ensures |q[i].samples| <= Total(q)
    {
      assert q == q[..i] + ([q[i]] + q[i + 1..]);
      assert q[i := g] == q[..i] + ([g] + q[i + 1..]);
      TotalConcat(q[..i], [q[i]] + q[i + 1..]);
      TotalConcat(q[..i], [g] + q[i + 1..]);
      TotalConcat(q[..i], q[i + 1..]);
    }

    method ResumePlayback(now: int)
      requires Valid()
      modifies this`pcmQueue, this`queuedSamples, this`pausedPcm, this`flushBoundary
      ensures Valid()
      ensures State() == Resume(cfg, old(State()), now)
    {
      if importedPause || pausedPcm == [] {
        return;
      }
      var elapsed := now - pausedAtNs;
      if elapsed < MIN_PAUSE || elapsed > MAX_PAUSE || !synchronize {
        pausedPcm := [];
        return;
      }
      Rejoin(Wrap32(elapsed * cfg.rate / NS));
    }

    method Rejoin(shift: u32)
      requires Valid() && pausedPcm != []
      modifies this`pcmQueue, this`queuedSamples, this`pausedPcm, this`flushBoundary
      ensures Valid()
      ensures State() == ResumeBy(old(State()), shift)
    {
      hide TrimQueue, Total, Wrap32;
      ShiftPaused(shift);
      var last := pausedPcm[|pausedPcm| - 1];
      var end := Wrap32(last.rtp + Wrap32(|last.samples| / 2));
      TrimInPlace(end);
      pcmQueue := pausedPcm + pcmQueue;
      pausedPcm := [];
      Recount();
      flushBoundary := Some(end);
    }

    method ShiftPaused(shift: u32)
      modifies this`pausedPcm
      ensures pausedPcm == Shifted(old(pausedPcm), shift)
    {
      var i := 0;
      ghost var was, goal := pausedPcm, Shifted(pausedPcm, shift);
      while i < |pausedPcm|
        invariant 0 <= i <= |pausedPcm| == |was|
        invariant forall k :: 0 <= k < i ==> pausedPcm[k] == goal[k]
        invariant forall k :: i <= k < |was| ==> pausedPcm[k] == was[k]
      {
        var f := PcmFrame(Wrap32(pausedPcm[i].rtp + shift), pausedPcm[i].samples, 0);
        assert f == goal[i];
        pausedPcm := pausedPcm[i := f];
        i := i + 1;
      }
    }

    /** Counts the queued values afresh. */
    method Recount()
      modifies this`queuedSamples
      ensures queuedSamples == Total(pcmQueue)
    {
      queuedSamples := 0;
      var i := 0;
      assert pcmQueue[0..] == pcmQueue;
      while i < |pcmQueue|
        invariant 0 <= i <= |pcmQueue|
        invariant queuedSamples + Total(pcmQueue[i..]) == Total(pcmQueue)
      {
        assert pcmQueue[i..][1..] == pcmQueue[i + 1..];
        queuedSamples := queuedSamples + |pcmQueue[i].samples|;
        i := i + 1;
      }
    }

    method DiscardPause()
      requires Valid()
      modifies this`pausedPcm, this`importedPause
      ensures Valid() && clearOutput == old(clearOutput)
      ensures State() == Discard(old(State()))
    {
      pausedPcm := [];
      importedPause := false;
    }

    method SetSync(enabled: bool, now: int)
      requires Valid()
      modifies this`pcmQueue, this`queuedSamples, this`flushBoundary, this`pausedPcm, this`pausedAtNs,
               this`importedPause, this`clearOutput, this`synchronize
      ensures Valid()
      ensures State() == SetSynchronized(cfg, old(State()), enabled, now)
      ensures clearOutput == (old(clearOutput) || synchronize != old(synchronize))
    {
      var was := synchronize;
      synchronize := enabled && cfg.hasNtp;
      if was != synchronize {
        FlushQueue(None, now);
      }
    }

    /** The first packet of the stream fixes the reference for the restore estimate. */
    method NoteFirstPacket(rtp: u32, now: int)
      requires Valid()
      modifies this`firstPacketRtp, this`firstPacketNs, this`haveFirstPacket
      ensures Valid() && haveFirstPacket
      ensures old(haveFirstPacket) ==> State() == old(State())
      ensures !old(haveFirstPacket) ==> State() == FirstSeen(old(State()), rtp, now)
    {
      if !haveFirstPacket {
        firstPacketRtp := rtp;
        firstPacketNs := now;
        haveFirstPacket := true;
      }
    }

    /** A timing packet: the anchor, and the sender's lead when it is at most five seconds. */
    method Anchor(rtp: u32, ntp: u64, nextRtp: u32)
      requires Valid()
      modifies this`syncRtp, this`syncNtp, this`haveAnchor, this`sourceLeadFrames
      ensures Valid() && syncRtp == rtp && syncNtp == ntp && haveAnchor == (ntp != 0)
      ensures State() == Anchored(cfg, old(State()), rtp, nextRtp)
    {
      syncRtp := rtp;
      syncNtp := ntp;
      haveAnchor := ntp != 0;
      var lead := Wrap32(nextRtp - rtp);
      if lead <= cfg.rate * 5 {
        sourceLeadFrames := lead;
      }
    }

    /** A block of decoded PCM enters the queue. */
    method Enqueue(rtp: u32, pcm: seq<int16>, now: int, pending: int)
      requires Valid()
      modifies this`pcmQueue, this`queuedSamples, this`flushBoundary, this`pausedPcm, this`importedPause
      ensures Valid() && clearOutput == old(clearOutput)
      ensures State() == Packet(cfg, old(State()), rtp, pcm, now, pending)
      ensures !Restores(old(State()), now) ==> queuedSamples <= Max(10 * cfg.rate, |pcm|)
    {
      if !Restores(State(), now) {
        PacketBoundsQueue(cfg, State(), rtp, pcm, now, pending);
      }
      EnterQueue(rtp, pcm, now, pending);
    }

    method EnterQueue(rtp: u32, pcm: seq<int16>, now: int, pending: int)
      requires Valid()
      modifies this`pcmQueue, this`queuedSamples, this`flushBoundary, this`pausedPcm, this`importedPause
      ensures Valid() && clearOutput == old(clearOutput)
      ensures State() == Packet(cfg, old(State()), rtp, pcm, now, pending)
    {
      hide Evict, Extended, Restored, Admitted, Total;
      ghost var was := State();
      var frame := PcmFrame(rtp, pcm, 0);
      EvictFor(|pcm|);
      ghost var kept := pcmQueue;
      ExtendTail(frame);
      ghost var middle := State();
      RestoreTail(rtp, now, pending);
      SameRestored(cfg, was, middle, rtp, now, pending);
      assert pcmQueue == kept + Restored(cfg, was, rtp, now, pending);
      Admit(frame);
      assert pcmQueue == Entered(cfg, was, rtp, pcm, now, pending);
    }

    /** Eviction and the growth of the saved tail do not change what a restore would do. */
    static lemma SameRestored(cfg: Config, s: Rx, t: Rx, rtp: u32, now: int, pending: int)
      requires cfg.Valid()
      requires t == s.(queue := t.queue, paused := t.paused) && (s.imported ==> t.paused == s.paused)
      ensures Restored(cfg, t, rtp, now, pending) == Restored(cfg, s, rtp, now, pending)
    {}

    /** The part of the block that the pending boundary lets through is queued and clears the boundary. */
    method Admit(frame: PcmFrame)
      requires Valid()
      modifies this`pcmQueue, this`queuedSamples, this`flushBoundary
      ensures Valid()
      ensures var admitted := Admitted(old(flushBoundary), frame);
              && pcmQueue == old(pcmQueue) + (if admitted.samples == [] then [] else [admitted])
              && flushBoundary == if admitted.samples == [] then old(flushBoundary) else None
    {
      var admitted := frame;
      if flushBoundary.Some? {
        var r, s, dropped := TrimBefore(frame.rtp, frame.samples, flushBoundary.value);
        admitted := PcmFrame(r, s, frame.target);
      }
      if admitted.samples != [] {
        flushBoundary := None;
        TotalConcat(pcmQueue, [admitted]);
        queuedSamples := queuedSamples + |admitted.samples|;
        pcmQueue := pcmQueue + [admitted];
      } else {
        assert pcmQueue + [] == pcmQueue;
      }
    }

    method EvictFor(have: nat)
      requires Valid()
      modifies this`pcmQueue, this`queuedSamples
      ensures Valid()
      ensures pcmQueue == Evict(old(pcmQueue), have, Limit(cfg))
    {
      var limit := cfg.rate * 2 * 5;
      while pcmQueue != [] && queuedSamples + have > limit
        invariant queuedSamples == Total(pcmQueue)
        invariant Evict(pcmQueue, have, limit) == Evict(old(pcmQueue), have, limit)
        decreases |pcmQueue|
      {
        queuedSamples := queuedSamples - |pcmQueue[0].samples|;
        pcmQueue := pcmQueue[1..];
      }
    }

    /** Keeps the pre-boundary suffix of a late packet in the saved tail. */
    method ExtendTail(frame: PcmFrame)
      requires Valid()
      modifies this`pausedPcm
      ensures pausedPcm == if importedPause then old(pausedPcm) else Extended(cfg, flushBoundary, old(pausedPcm), frame)
    {
      hide Wrap32, Total;
      if importedPause || flushBoundary.None? || pausedPcm == [] {
        return;
      }
      var last := pausedPcm[|pausedPcm| - 1];
      var end := Wrap32(last.rtp + Wrap32(|last.samples| / 2));
      var r, s, dropped := TrimBefore(frame.rtp, frame.samples, end);
      var remaining := Wrap32(flushBoundary.value - r);
      if r == end && remaining <= cfg.rate * 5 && s != [] {
        if |s| / 2 > remaining {
          s := s[..remaining * 2];
        }
        if s != [] {
          pausedPcm := pausedPcm + [PcmFrame(r, s, frame.target)];
        }
      }
    }

    /** Moves a tail of an earlier stream in front of the first new packet. */
    method RestoreTail(rtp: u32, now: int, pending: int)
      requires Valid()
      modifies this`pcmQueue, this`queuedSamples, this`pausedPcm, this`importedPause
      ensures Valid() && !importedPause
      ensures pcmQueue == old(pcmQueue) + Restored(cfg, old(State()), rtp, now, pending)
      ensures pausedPcm == if old(importedPause) then [] else old(pausedPcm)
    {
      hide Restamp, Wrap32, Signed32, TruncDiv, TotalFrames, Total;
      if !importedPause {
        assert pcmQueue + [] == pcmQueue;
        return;
      }
      if now - pausedAtNs < MAX_PAUSE && pausedPcm != [] {
        var last := pausedPcm[|pausedPcm| - 1];
        var oldEnd := Wrap32(last.rtp + Wrap32(|last.samples| / 2));
        var frames := CountFrames();
        var delta := Signed32(Wrap32(rtp - firstPacketRtp));
        var estimate := firstPacketNs + TruncDiv((delta + sourceLeadFrames) * NS, cfg.rate);
        var duration := frames * NS / cfg.rate;
        var target := if estimate - duration + pending > now then estimate - duration + pending else now;
        MoveTail(Wrap32(rtp - oldEnd), target);
      } else {
        assert pcmQueue + [] == pcmQueue;
      }
      pausedPcm := [];
      importedPause := false;
    }

    method CountFrames() returns (frames: nat)
      ensures frames == TotalFrames(pausedPcm)
    {
      frames := 0;
      var i := 0;
      assert pausedPcm[0..] == pausedPcm;
      while i < |pausedPcm|
        invariant 0 <= i <= |pausedPcm|
        invariant frames + TotalFrames(pausedPcm[i..]) == TotalFrames(pausedPcm)
      {
        assert pausedPcm[i..][1..] == pausedPcm[i + 1..];
        frames := frames + |pausedPcm[i].samples| / 2;
        i := i + 1;
      }
    }

    method MoveTail(shift: u32, first: int)
      requires Valid()
      modifies this`pcmQueue, this`queuedSamples
      ensures Valid()
      ensures pcmQueue == old(pcmQueue) + Restamp(cfg, pausedPcm, shift, first)
    {
      hide Wrap32;
      var i, target := 0, first;
      assert pausedPcm[0..] == pausedPcm;
      while i < |pausedPcm|
        invariant 0 <= i <= |pausedPcm|
        invariant queuedSamples == Total(pcmQueue)
        invariant pcmQueue + Restamp(cfg, pausedPcm[i..], shift, target)
                  == old(pcmQueue) + Restamp(cfg, pausedPcm, shift, first)
      {
        var saved := pausedPcm[i];
        var moved := PcmFrame(Wrap32(saved.rtp + shift), saved.samples, target);
        ghost var rest := Restamp(cfg, pausedPcm[i + 1..], shift, target + Duration(cfg, saved.samples));
        assert pausedPcm[i..][1..] == pausedPcm[i + 1..];
        assert Restamp(cfg, pausedPcm[i..], shift, target) == [moved] + rest;
        assert pcmQueue + ([moved] + rest) == pcmQueue + [moved] + rest;
        TotalConcat(pcmQueue, [moved]);
        target := target + |saved.samples| / 2 * NS / cfg.rate;
        queuedSamples := queuedSamples + |saved.samples|;
        pcmQueue := pcmQueue + [moved];
        i := i + 1;
      }
      assert pcmQueue + [] == pcmQueue;
    }

    /** One turn of the playout thread: the front block stays, is dropped, or goes to the sink. */
    method Playout(anchorTime: Option<int>, acquiring: bool, pending: int, now: int) returns (played: Option<PcmFrame>)
      requires Valid()
      modifies this`pcmQueue, this`queuedSamples
      ensures Valid()
      ensures old(pcmQueue) == [] ==> State() == old(State()) && played.None?
      ensures old(pcmQueue) != [] ==>
              var front := old(pcmQueue)[0];
              var at := if cfg.hasNtp && haveAnchor then anchorTime else None;
              var target := Target(cfg, front, synchronize, syncRtp, at);
              match Decide(synchronize, target, acquiring && cfg.hasNtp, pending, now)
              case Wait => State() == old(State()) && played.None?
              case DropLate => State() == Pop(old(State())) && played.None?
              case Play => State() == Pop(old(State())) && played == Some(front)
      ensures old(pcmQueue) != [] ==>
              var front := old(pcmQueue)[0];
              var at := if cfg.hasNtp && haveAnchor then anchorTime else None;
              var deadline := Target(cfg, front, synchronize, syncRtp, at);
              var plays := PlaysNow(synchronize, deadline, acquiring && cfg.hasNtp, pending, now);
              var drops := DropsNow(synchronize, deadline, pending, now);
              && played == (if plays then Some(front) else None)
              && pcmQueue == if plays || drops then old(pcmQueue)[1..] else old(pcmQueue)
    {
      hide TruncDiv, Wrap32;
      played := None;
      if pcmQueue == [] {
        return;
      }
      var front := pcmQueue[0];
      var target: Option<int> := None;
      if front.target != 0 {
        target := Some(front.target);
      } else if synchronize && cfg.hasNtp && haveAnchor {
        target := anchorTime;
        if target.Some? {
          var ticks := Wrap32(front.rtp - syncRtp);
          var delta := if ticks <= 0x7fff_ffff then ticks else ticks - TWO32;
          target := Some(target.value + TruncDiv(delta * NS, cfg.rate));
        }
      }
      if synchronize && target.None? && cfg.hasNtp && acquiring {
        return;
      }
      if synchronize && pending > SINK_FULL {
        return;
      }
      if target.Some? {
        var advance := target.value - now - pending;
        if advance > BROKEN {
        } else if advance > EARLY {
          return;
        } else if advance < LATE {
          queuedSamples := queuedSamples - |front.samples|;
          pcmQueue := pcmQueue[1..];
          return;
        }
      }
      pcmQueue := pcmQueue[1..];
      queuedSamples := queuedSamples - |front.samples|;
      played := Some(front);
    }

    /** Both worker threads have ended; the saved tail leaves with its owner. */
    method Suspend() returns (state: PauseState)
      requires Valid()
      modifies this`pcmQueue, this`queuedSamples, this`pausedPcm
      ensures Valid() && pcmQueue == []
      ensures state == if cfg.preserve && old(synchronize) && old(pausedPcm) != []
                       then PauseState(old(pausedPcm), cfg.rate, old(pausedAtNs), old(sourceLeadFrames))
                       else PauseState([], 0, 0, 0)
    {
      pcmQueue := [];
      queuedSamples := 0;
      state := NO_PAUSE;
      if cfg.preserve && synchronize && pausedPcm != [] {
        state := PauseState(pausedPcm, cfg.rate, pausedAtNs, sourceLeadFrames);
        pausedPcm := [];
      }
    }
  }
}
