/**
  What each mutex-protected block of the audio receiver does to the PCM queue,
  on values. RTP timestamps wrap at 2^32.
 */
module AudioQueue {
  import opened Wrappers
  import opened Words
  import opened RtpFlush
  import opened Arithmetic

  const MIN_PAUSE: int := 200_000_000
  const MAX_PAUSE: int := 120_000_000_000

  /** A block of PCM; `target` is its local deadline, or 0 while the RTP clock decides. */
  datatype PcmFrame = PcmFrame(rtp: u32, samples: seq<int16>, target: int)

  datatype Config = Config(rate: int, preserve: bool, hasNtp: bool) {
    /** The rate is positive, and five seconds of it fit the 32-bit `int` the code computes them in. */
    predicate Valid() {
      0 < rate && rate * 5 <= 0x7fff_ffff
    }
  }

  /** The queue and everything that decides what may enter it. */
  datatype Rx = Rx(
    queue: seq<PcmFrame>, boundary: Option<u32>,
    paused: seq<PcmFrame>, pausedAt: int, imported: bool,
    sync: bool, lead: u32, firstRtp: u32, firstNs: int)

  function Total(q: seq<PcmFrame>): nat {
    if q == [] then 0 else |q[0].samples| + Total(q[1..])
  }

  function TrimFrame(f: PcmFrame, boundary: u32): PcmFrame {
    var b := Trim(Block(f.rtp, f.samples), boundary);
    PcmFrame(b.rtp, b.pcm, f.target)
  }

  function TrimQueue(q: seq<PcmFrame>, boundary: u32): seq<PcmFrame> {
    if q == [] then []
    else
      var f := TrimFrame(q[0], boundary);
      (if f.samples == [] then [] else [f]) + TrimQueue(q[1..], boundary)
  }

  /** The label just past a non-empty queue. */
  function EndLabel(q: seq<PcmFrame>): u32
    requires q != []
  {
    Wrap32(q[|q| - 1].rtp + Wrap32(Frames(q[|q| - 1].samples)))
  }

  function Flush(cfg: Config, s: Rx, boundary: Option<u32>, now: int): Rx {
    var imported := s.imported && boundary.Some?;
    var save := !imported && cfg.preserve && s.sync && boundary.Some? && s.queue != [];
    s.(imported := imported,
       paused := if save then s.queue else if imported then s.paused else [],
       pausedAt := if save then now else if imported then s.pausedAt else 0,
       boundary := boundary,
       queue := match boundary case None => [] case Some(b) => TrimQueue(s.queue, b))
  }

  /** The whole frames the source clock advanced in `elapsed` nanoseconds, as a 32-bit word. */
  function PauseShift(cfg: Config, elapsed: int): u32 {
    Wrap32(elapsed * cfg.rate / NS)
  }

  function Shifted(q: seq<PcmFrame>, shift: u32): (r: seq<PcmFrame>)
    ensures |r| == |q|
  {
    seq(|q|, i requires 0 <= i < |q| => PcmFrame(Wrap32(q[i].rtp + shift), q[i].samples, 0))
  }

  predicate Resumes(s: Rx, now: int) {
    !s.imported && s.paused != [] && s.sync && MIN_PAUSE <= now - s.pausedAt <= MAX_PAUSE
  }

  function Resume(cfg: Config, s: Rx, now: int): Rx {
    if s.imported || s.paused == [] then s
    else if !Resumes(s, now) then s.(paused := [])
    else ResumeBy(s, PauseShift(cfg, now - s.pausedAt))
  }

  /** The saved tail, moved `shift` labels later, goes back in front of the queue. */
  function ResumeBy(s: Rx, shift: u32): Rx
    requires s.paused != []
  {
    var tail := Shifted(s.paused, shift);
    s.(queue := Rejoined(tail, s.queue), paused := [], boundary := Some(EndLabel(tail)))
  }

  /** A saved tail in front of what the queue holds beyond its end. */
  function Rejoined(tail: seq<PcmFrame>, q: seq<PcmFrame>): seq<PcmFrame>
    requires tail != []
  {
    tail + TrimQueue(q, EndLabel(tail))
  }

  function Discard(s: Rx): Rx {
    s.(paused := [], imported := false)
  }

  /** Playout or late drop: the front block leaves. */
  function Pop(s: Rx): Rx {
    if s.queue == [] then s else s.(queue := s.queue[1..])
  }

  /** The sender's lead over its timing packet, which is believed up to five seconds. */
  function SourceLead(cfg: Config, lead: u32, rtp: u32, nextRtp: u32): u32 {
    if Wrap32(nextRtp - rtp) <= cfg.rate * 5 then Wrap32(nextRtp - rtp) else lead
  }

  function Anchored(cfg: Config, s: Rx, rtp: u32, nextRtp: u32): Rx {
    s.(lead := SourceLead(cfg, s.lead, rtp, nextRtp))
  }

  /** The first packet is the reference of the restore estimate. */
  function FirstSeen(s: Rx, rtp: u32, now: int): Rx {
    s.(firstRtp := rtp, firstNs := now)
  }

  function SetSynchronized(cfg: Config, s: Rx, enabled: bool, now: int): Rx {
    var on := enabled && cfg.hasNtp;
    if s.sync == on then s else Flush(cfg, s.(sync := on), None, now)
  }

  /** Five seconds of stereo, in values. */
  function Limit(cfg: Config): int {
    cfg.rate * 2 * 5
  }

  function Evict(q: seq<PcmFrame>, have: nat, limit: int): seq<PcmFrame> {
    if q != [] && Total(q) + have > limit then Evict(q[1..], have, limit) else q
  }

  /** The saved tail after a packet that arrives while a FLUSH boundary is pending. */
  function Extended(cfg: Config, boundary: Option<u32>, paused: seq<PcmFrame>, f: PcmFrame): seq<PcmFrame> {
    if boundary.None? || paused == [] then paused
    else
      var drain := TrimFrame(f, EndLabel(paused));
      var remaining := Wrap32(boundary.value - drain.rtp);
      if drain.rtp == EndLabel(paused) && remaining <= cfg.rate * 5 && drain.samples != []
      then Grown(paused, drain, remaining)
      else paused
  }

  /** A tail followed by at most `remaining` frames of a block. */
  function Grown(q: seq<PcmFrame>, drain: PcmFrame, remaining: nat): seq<PcmFrame> {
    var kept := if Frames(drain.samples) > remaining then drain.samples[..2 * remaining] else drain.samples;
    if kept == [] then q else q + [drain.(samples := kept)]
  }

  /** The duration of a block in nanoseconds, rounded down. */
  function Duration(cfg: Config, samples: seq<int16>): int
    requires cfg.Valid()
  {
    Frames(samples) * NS / cfg.rate
  }

  function TotalFrames(q: seq<PcmFrame>): nat {
    if q == [] then 0 else Frames(q[0].samples) + TotalFrames(q[1..])
  }

  /** The saved tail relabelled by `shift`, with consecutive deadlines from `target`. */
  function Restamp(cfg: Config, q: seq<PcmFrame>, shift: u32, target: int): seq<PcmFrame>
    requires cfg.Valid()
  {
    if q == [] then []
    else
      [PcmFrame(Wrap32(q[0].rtp + shift), q[0].samples, target)]
      + Restamp(cfg, q[1..], shift, target + Duration(cfg, q[0].samples))
  }

  /** A label difference read as a signed 32-bit number. */
  function Signed32(w: u32): int {
    if w < HALF32 then w else w - TWO32
  }

  /** The first deadline of a tail restored when the packet labelled `rtp` arrives. */
  function RestoreTarget(cfg: Config, s: Rx, rtp: u32, now: int, pending: int): int
    requires cfg.Valid()
  {
    var estimate := s.firstNs + TruncDiv((Signed32(Wrap32(rtp - s.firstRtp)) + s.lead) * NS, cfg.rate);
    var tail := TotalFrames(s.paused) * NS / cfg.rate;
    Max(now, estimate - tail + pending)
  }

  predicate Restores(s: Rx, now: int) {
    s.imported && s.paused != [] && now - s.pausedAt < MAX_PAUSE
  }

  function Restored(cfg: Config, s: Rx, rtp: u32, now: int, pending: int): seq<PcmFrame>
    requires cfg.Valid()
  {
    if Restores(s, now)
    then Restamp(cfg, s.paused, Wrap32(rtp - EndLabel(s.paused)), RestoreTarget(cfg, s, rtp, now, pending))
    else []
  }

  /** The part of a packet that the pending boundary lets through. */
  function Admitted(boundary: Option<u32>, f: PcmFrame): PcmFrame {
    match boundary case None => f case Some(b) => TrimFrame(f, b)
  }

  /** The queue after eviction, the restored tail, and the admitted part of a packet. */
  function Entered(cfg: Config, s: Rx, rtp: u32, pcm: seq<int16>, now: int, pending: int): seq<PcmFrame>
    requires cfg.Valid()
  {
    var admitted := Admitted(s.boundary, PcmFrame(rtp, pcm, 0));
    Evict(s.queue, |pcm|, Limit(cfg)) + Restored(cfg, s, rtp, now, pending)
    + if admitted.samples == [] then [] else [admitted]
  }

  /** One decoded block, labelled `rtp`, enters under the lock. */
  function Packet(cfg: Config, s: Rx, rtp: u32, pcm: seq<int16>, now: int, pending: int): Rx
    requires cfg.Valid()
  {
    var f := PcmFrame(rtp, pcm, 0);
    s.(queue := Entered(cfg, s, rtp, pcm, now, pending),
       paused := if s.imported then [] else Extended(cfg, s.boundary, s.paused, f),
       imported := false,
       boundary := if Admitted(s.boundary, f).samples == [] then s.boundary else None)
  }

  // ---------------------------------------------------------------------
  // Accounting
  // ---------------------------------------------------------------------

  lemma {:induction false} TotalConcat(q: seq<PcmFrame>, r: seq<PcmFrame>)
    ensures Total(q + r) == Total(q) + Total(r)
  {
    if q == [] {
      assert q + r == r;
    } else {
      assert (q + r)[1..] == q[1..] + r;
      TotalConcat(q[1..], r);
    }
  }

  lemma {:induction false} EvictFits(q: seq<PcmFrame>, have: nat, limit: int)
    ensures Evict(q, have, limit) == [] || Total(Evict(q, have, limit)) + have <= limit
    ensures |Evict(q, have, limit)| <= |q| && Evict(q, have, limit) == q[|q| - |Evict(q, have, limit)|..]
    ensures forall k :: 0 <= k < |q| - |Evict(q, have, limit)| ==> Total(q[k..]) + have > limit
    decreases |q|
  {
    if q != [] && Total(q) + have > limit {
      EvictFits(q[1..], have, limit);
      forall k | 0 <= k < |q| - |Evict(q, have, limit)|
        ensures Total(q[k..]) + have > limit
      {
        if k == 0 {
          assert q[0..] == q;
        } else {
          assert q[1..][k - 1..] == q[k..];
        }
      }
    }
  }

  /**
    After a packet that restores no saved tail, the queue holds at most ten values per unit of
    rate, or that one packet.
   */
  lemma PacketBoundsQueue(cfg: Config, s: Rx, rtp: u32, pcm: seq<int16>, now: int, pending: int)
    requires cfg.Valid() && !Restores(s, now)
    ensures Total(Packet(cfg, s, rtp, pcm, now, pending).queue) <= Max(10 * cfg.rate, |pcm|)
  {
    var kept := Evict(s.queue, |pcm|, Limit(cfg));
    var admitted := Admitted(s.boundary, PcmFrame(rtp, pcm, 0));
    EvictFits(s.queue, |pcm|, Limit(cfg));
    TotalConcat(kept, [admitted]);
    assert kept + [] == kept;
    assert kept + [] + [admitted] == kept + [admitted];
    assert Total([admitted]) == |admitted.samples|;
    assert |admitted.samples| <= |pcm|;
  }

  // ---------------------------------------------------------------------
  // The tail restored into a new stream
  // ---------------------------------------------------------------------

  /** The exact duration, in units of 1/rate ns, of the blocks before position `k`. */
  function ExactBefore(q: seq<PcmFrame>, k: nat): int
    requires k <= |q|
  {
    TotalFrames(q[..k]) * NS
  }

  lemma {:induction false} RestampLength(cfg: Config, q: seq<PcmFrame>, shift: u32, target: int)
    requires cfg.Valid()
    ensures |Restamp(cfg, q, shift, target)| == |q|
  {
    if q != [] {
      RestampLength(cfg, q[1..], shift, target + Duration(cfg, q[0].samples));
    }
  }

  lemma {:induction false} RestampLabels(cfg: Config, q: seq<PcmFrame>, shift: u32, target: int, k: nat)
    requires cfg.Valid() && k < |q|
    ensures |Restamp(cfg, q, shift, target)| == |q|
    ensures Restamp(cfg, q, shift, target)[k].rtp == Wrap32(q[k].rtp + shift)
    ensures Restamp(cfg, q, shift, target)[k].samples == q[k].samples
  {
    RestampLength(cfg, q, shift, target);
    if k > 0 {
      RestampLabels(cfg, q[1..], shift, target + Duration(cfg, q[0].samples), k - 1);
    }
  }

  /** The rounded duration loses less than one nanosecond. */
  lemma DurationLoss(cfg: Config, samples: seq<int16>)
    requires cfg.Valid()
    ensures Frames(samples) * NS - cfg.rate < Duration(cfg, samples) * cfg.rate <= Frames(samples) * NS
    ensures 0 <= Duration(cfg, samples)
  {
    DivBounds(Frames(samples) * NS, cfg.rate);
  }

  /** `lead` falls behind the exact duration of the first `k` blocks by less than `k` ns, if there are any. */
  predicate Lags(cfg: Config, lead: int, q: seq<PcmFrame>, k: nat)
    requires k <= |q|
  {
    && (k > 0 ==> ExactBefore(q, k) - k * cfg.rate < lead * cfg.rate)
    && lead * cfg.rate <= ExactBefore(q, k)
    && (k == 0 ==> lead == 0)
  }

  /** A restored deadline is not before the first one, and lags exact time by less than one ns per block. */
  lemma {:induction false} RestampDeadline(cfg: Config, q: seq<PcmFrame>, shift: u32, target: int, k: nat)
    requires cfg.Valid() && k < |q|
    ensures |Restamp(cfg, q, shift, target)| == |q|
    ensures var lead := Restamp(cfg, q, shift, target)[k].target - target;
            0 <= lead && Lags(cfg, lead, q, k)
  {
    RestampLength(cfg, q, shift, target);
    if k == 0 {
      assert TotalFrames(q[..0]) == 0;
    } else {
      var d := Duration(cfg, q[0].samples);
      RestampDeadline(cfg, q[1..], shift, target + d, k - 1);
      assert q[..k] == [q[0]] + q[1..][..k - 1];
      DurationLoss(cfg, q[0].samples);
      LossesAdd(Restamp(cfg, q[1..], shift, target + d)[k - 1].target - (target + d), d, k, cfg.rate);
    }
  }

  lemma LossesAdd(lead: int, d: int, k: int, rate: int)
    ensures (lead + d) * rate == lead * rate + d * rate
    ensures k * rate == (k - 1) * rate + rate
  {}

  /** Consecutive deadlines are one rounded block apart, so they never decrease. */
  lemma {:induction false} RestampStep(cfg: Config, q: seq<PcmFrame>, shift: u32, target: int, k: nat)
    requires cfg.Valid() && k + 1 < |q|
    ensures |Restamp(cfg, q, shift, target)| == |q|
    ensures var r := Restamp(cfg, q, shift, target);
            r[k].target <= r[k + 1].target == r[k].target + Duration(cfg, q[k].samples)
  {
    RestampLength(cfg, q, shift, target);
    var d := Duration(cfg, q[0].samples);
    var r, rest := Restamp(cfg, q, shift, target), Restamp(cfg, q[1..], shift, target + d);
    RestampLength(cfg, q[1..], shift, target + d);
    DurationLoss(cfg, q[k].samples);
    assert r[k + 1] == rest[k];
    if k == 0 {
      assert rest[0].target == target + d && r[0].target == target;
    } else {
      RestampStep(cfg, q[1..], shift, target + d, k - 1);
      assert r[k] == rest[k - 1] && q[1..][k - 1] == q[k];
    }
  }

  /** Two block lists with the same samples and the same label distances. */
  predicate SameSpacing(r: seq<PcmFrame>, q: seq<PcmFrame>) {
    && |r| == |q|
    && (forall i :: 0 <= i < |r| ==> r[i].samples == q[i].samples)
    && (forall i, j :: 0 <= i < j < |r| ==> Distance(r, i, j) == Distance(q, i, j))
  }

  /** The wrapping distance from one block's label to another's. */
  function Distance(q: seq<PcmFrame>, i: nat, j: nat): u32
    requires i < |q| && j < |q|
  {
    Wrap32(q[j].rtp - q[i].rtp)
  }

  /** Deadlines never decrease and lag the exact duration of `q` by less than one ns per block. */
  predicate OnSchedule(cfg: Config, r: seq<PcmFrame>, q: seq<PcmFrame>) {
    && |r| == |q|
    && (forall i :: 0 <= i < |r| - 1 ==> r[i].target <= r[i + 1].target)
    && (forall i :: 0 <= i < |r| ==> Lags(cfg, r[i].target - r[0].target, q, i))
  }

  /**
    Main result on a tail carried into a new stream: it ends exactly at the label of
    the packet that triggers the restore, block spacing and samples are unchanged,
    deadlines start no earlier than now, never decrease, and fall behind exact time
    by less than one ns per block.
   */
  lemma RestoredTail(cfg: Config, s: Rx, rtp: u32, now: int, pending: int)
    requires cfg.Valid() && Restores(s, now)
    ensures var r := Restored(cfg, s, rtp, now, pending);
            && SameSpacing(r, s.paused) && EndLabel(r) == rtp
            && now <= r[0].target && OnSchedule(cfg, r, s.paused)
  {
    var q := s.paused;
    var shift := Wrap32(rtp - EndLabel(q));
    var target := RestoreTarget(cfg, s, rtp, now, pending);
    RestampSpacing(cfg, q, shift, target);
    RestampSchedule(cfg, q, shift, target);
    RestampLabels(cfg, q, shift, target, |q| - 1);
    EndsAt(q[|q| - 1].rtp, Wrap32(Frames(q[|q| - 1].samples)), rtp);
  }

  lemma RestampSchedule(cfg: Config, q: seq<PcmFrame>, shift: u32, target: int)
    requires cfg.Valid() && q != []
    ensures Restamp(cfg, q, shift, target) != [] && Restamp(cfg, q, shift, target)[0].target == target
    ensures OnSchedule(cfg, Restamp(cfg, q, shift, target), q)
  {
    var r := Restamp(cfg, q, shift, target);
    RestampLength(cfg, q, shift, target);
    assert r[0].target == target;
    forall i | 0 <= i < |r|
      ensures Lags(cfg, r[i].target - r[0].target, q, i)
    {
      RestampDeadline(cfg, q, shift, target, i);
    }
    forall i | 0 <= i < |r| - 1
      ensures r[i].target <= r[i + 1].target
    {
      RestampStep(cfg, q, shift, target, i);
    }
  }

  lemma RestampSpacing(cfg: Config, q: seq<PcmFrame>, shift: u32, target: int)
    requires cfg.Valid()
    ensures SameSpacing(Restamp(cfg, q, shift, target), q)
  {
    var r := Restamp(cfg, q, shift, target);
    RestampLength(cfg, q, shift, target);
    forall i | 0 <= i < |r|
      ensures r[i].samples == q[i].samples
    {
      RestampLabels(cfg, q, shift, target, i);
    }
    forall i, j | 0 <= i < j < |r|
      ensures Distance(r, i, j) == Distance(q, i, j)
    {
      RestampDistance(cfg, q, shift, target, i, j);
    }
  }

  lemma RestampDistance(cfg: Config, q: seq<PcmFrame>, shift: u32, target: int, i: nat, j: nat)
    requires cfg.Valid() && i < j < |q|
    ensures var r := Restamp(cfg, q, shift, target);
            |r| == |q| && Distance(r, i, j) == Distance(q, i, j)
  {
    RestampLabels(cfg, q, shift, target, i);
    RestampLabels(cfg, q, shift, target, j);
    ShiftsCancel(q[j].rtp, q[i].rtp, shift);
  }

  lemma ShiftsCancel(a: u32, b: u32, shift: u32)
    ensures Wrap32(Wrap32(a + shift) - Wrap32(b + shift)) == Wrap32(a - b)
  {
    WrapSub(a + shift, b + shift);
  }

  lemma EndsAt(last: u32, n: u32, rtp: u32)
    ensures Wrap32(Wrap32(last + Wrap32(rtp - Wrap32(last + n))) + n) == rtp
  {
    var x := rtp - Wrap32(last + n);
    WrapAdd(x, last);
    WrapAdd(x + last, n);
    WrapRest(last + n, rtp);
    assert x + last + n == rtp + (last + n - Wrap32(last + n));
  }

  lemma WrapRest(e: int, rtp: u32)
    ensures Wrap32(rtp + (e - Wrap32(e))) == rtp
  {
    assert e - Wrap32(e) == e / TWO32 * TWO32;
  }
}
