/**
  The receiver's estimate of the sender's clock: differences of 64-bit NTP
  stamps (section 6 of RFC 5905), an eight-slot ring of accepted round trips,
  and the mapping of a sender stamp to the local steady clock.
 */
module NtpClocks {
  import opened Wrappers
  import opened Words
  import opened Arithmetic

  /** Round trips longer than this are refused outright. */
  const MAX_ELAPSED: int := 1_000_000_000
  const MIN_DELAY: int := -1_000_000
  const MAX_DELAY: int := 500_000_000
  /** Age limit of a sample, and range limit of a mapped stamp. */
  const HORIZON: int := 30_000_000_000
  const SLOTS: nat := 8

  // ---------------------------------------------------------------------
  // Differences of wrapping stamps
  // ---------------------------------------------------------------------

  /** The signed seconds between two stamps, read in the half range of 32 bits. */
  function SignedSeconds(value: u64, reference: u64): int {
    var seconds := Wrap32(value / TWO32 - reference / TWO32);
    if seconds <= 0x7fff_ffff then seconds else seconds - TWO32
  }

  /** The seconds are the one number in [-2^31, 2^31) that agrees with the difference modulo 2^32. */
  lemma SecondsExactly(value: u64, reference: u64)
    ensures var s := SignedSeconds(value, reference);
            && -2147483648 <= s < 2147483648
            && (s - (value / 4294967296 - reference / 4294967296)) % 4294967296 == 0
  {}

  function Fractions(value: u64, reference: u64): int {
    value % TWO32 - reference % TWO32
  }

  /** `delta_ns`: the difference of two stamps in nanoseconds. */
  function DeltaNs(value: u64, reference: u64): int {
    SignedSeconds(value, reference) * NS + TruncDiv(Fractions(value, reference) * NS, TWO32)
  }

  /** The exact difference of two stamps, in units of 2^-32 s. */
  function Lag(value: u64, reference: u64): int {
    SignedSeconds(value, reference) * TWO32 + Fractions(value, reference)
  }

  /** `DeltaNs` is within one nanosecond of the exact difference. */
  lemma DeltaIsWithinOneNs(value: u64, reference: u64)
    ensures -TWO32 < DeltaNs(value, reference) * TWO32 - Lag(value, reference) * NS < TWO32
  {
    var x := Fractions(value, reference) * NS;
    assert DeltaNs(value, reference) * TWO32 - Lag(value, reference) * NS == TruncDiv(x, TWO32) * TWO32 - x;
  }

  lemma TruncDivIsMonotone(a: int, b: int)
    requires a <= b
    ensures TruncDiv(a, TWO32) <= TruncDiv(b, TWO32)
  {}

  /** A later stamp never maps to an earlier difference. */
  lemma DeltaIsMonotone(v1: u64, v2: u64, reference: u64)
    requires Lag(v1, reference) <= Lag(v2, reference)
    ensures DeltaNs(v1, reference) <= DeltaNs(v2, reference)
  {
    var s1, s2 := SignedSeconds(v1, reference), SignedSeconds(v2, reference);
    var f1, f2 := Fractions(v1, reference), Fractions(v2, reference);
    if s1 == s2 {
      TruncDivIsMonotone(f1 * NS, f2 * NS);
    } else {
      // Both stamps lie inside their second, so their fractions differ by less than one second.
      assert f1 - f2 == v1 % TWO32 - v2 % TWO32;
      assert s2 - s1 >= 1;
      TruncDivShift(f1, f2, s2 - s1);
    }
  }

  lemma TruncDivShift(f1: int, f2: int, k: int)
    requires k >= 1
    requires f1 - f2 < TWO32
    ensures TruncDiv(f1 * NS, TWO32) <= k * NS + TruncDiv(f2 * NS, TWO32)
  {
    var a, b := f1 * NS, f2 * NS;
    assert a <= b + NS * TWO32 - NS;
    TruncDivIsMonotone(a, b + NS * TWO32 - NS);
    assert TruncDiv(b + NS * TWO32 - NS, TWO32) <= NS + TruncDiv(b, TWO32) by {
      assert (b + NS * TWO32) / TWO32 == b / TWO32 + NS;
    }
  }

  /** Swapping the operands negates the difference, except at exactly 2^31 seconds. */
  lemma DeltaIsAntisymmetric(value: u64, reference: u64)
    ensures DeltaNs(value, reference) == -DeltaNs(reference, value)
       <==> Wrap32(value / TWO32 - reference / TWO32) != HALF32
  {
    assert Fractions(reference, value) == -Fractions(value, reference);
    var w := Wrap32(value / TWO32 - reference / TWO32);
    assert Wrap32(reference / TWO32 - value / TWO32) == if w == 0 then 0 else TWO32 - w;
  }

  /** The stamp a sender shows when its unbounded time, in units of 2^-32 s, is `t`. */
  function Label(t: int): u64 {
    t % TWO64
  }

  /** Across the rollover of the seconds field, the exact difference is that of the unbounded times. */
  lemma LagOfLabels(t: int, s: int)
    requires -(HALF32 - 1) * TWO32 < t - s < (HALF32 - 1) * TWO32
    ensures Lag(Label(t), Label(s)) == t - s
  {
    LabelParts(t);
    LabelParts(s);
    var d := t / TWO32 - s / TWO32;
    assert -HALF32 <= d <= HALF32 - 1;
    assert Wrap32(Label(t) / TWO32 - Label(s) / TWO32) == Wrap32(d);
  }

  lemma LabelParts(t: int)
    ensures Label(t) % TWO32 == t % TWO32
    ensures Label(t) / TWO32 == Wrap32(t / TWO32)
  {
    var q, r := t / TWO32, t % TWO32;
    var q2, r2 := q / TWO32, q % TWO32;
    ModUnique(t, TWO64, q2, r2 * TWO32 + r);
    ModUnique(r2 * TWO32 + r, TWO32, r2, r);
  }

  // ---------------------------------------------------------------------
  // Accepting a reply, answering a query
  // ---------------------------------------------------------------------

  datatype Reply = Reply(sent: int, received: int, remoteReceived: u64, remoteSent: u64)
  datatype Sample = Sample(remote: u64, local: int, observed: int, rtt: nat)

  function Accept(e: Reply): (r: Option<Sample>)
  {
    var processing := DeltaNs(e.remoteSent, e.remoteReceived);
    var elapsed := e.received - e.sent;
    var delay := elapsed - processing;
    if e.remoteReceived == 0 || e.remoteSent == 0 || processing < 0 || elapsed < 0 ||
       elapsed > MAX_ELAPSED || delay < MIN_DELAY || delay > MAX_DELAY then None
    else
      var rtt := Max(delay, 0);
      Some(Sample(e.remoteSent, e.received - rtt / 2, e.received, rtt))
  }

  /** A reply is taken if and only if both stamps are set and its times are plausible; the numbers are nanoseconds. */
  lemma AcceptedExactly(e: Reply)
    ensures var processing, elapsed := DeltaNs(e.remoteSent, e.remoteReceived), e.received - e.sent;
            && (Accept(e).Some? <==>
                  && e.remoteReceived != 0 && e.remoteSent != 0
                  && 0 <= processing && 0 <= elapsed <= 1_000_000_000
                  && -1_000_000 <= elapsed - processing <= 500_000_000)
            && (Accept(e).Some? ==>
                  var s := Accept(e).value;
                  && s.rtt == (if elapsed > processing then elapsed - processing else 0)
                  && s.remote == e.remoteSent && s.observed == e.received && s.local == e.received - s.rtt / 2)
  {
    hide DeltaNs;
  }

  /** The samples a sequence of replies leaves behind, oldest first. */
  function Accepted(replies: seq<Reply>): seq<Sample> {
    if replies == [] then []
    else
      var rest := Accepted(replies[..|replies| - 1]);
      match Accept(replies[|replies| - 1])
      case Some(sample) => rest + [sample]
      case None => rest
  }

  predicate Eligible(s: Sample, now: int) {
    s.observed <= now && now - s.observed <= HORIZON
  }

  /** Position `k` is one of the last eight samples of the history. */
  predicate Recent(history: seq<Sample>, k: int) {
    0 <= k < |history| && |history| - SLOTS <= k
  }

  /** Sample `k` is a recent one, young enough, with the least round trip among those. */
  ghost predicate Best(history: seq<Sample>, now: int, k: int) {
    && Recent(history, k)
    && Eligible(history[k], now)
    && forall j :: Recent(history, j) && Eligible(history[j], now) ==> history[k].rtt <= history[j].rtt
  }

  function Map(s: Sample, remote: u64): Option<int> {
    var delta := DeltaNs(remote, s.remote);
    if delta < -HORIZON || delta > HORIZON then None else Some(s.local + delta)
  }

  /** What `local_time` may answer: the image under a best sample, or nothing when none is usable. */
  ghost predicate IsAnswer(history: seq<Sample>, remote: u64, now: int, r: Option<int>) {
    || (exists k :: Best(history, now, k) && r == Map(history[k], remote))
    || (r.None? && forall j :: Recent(history, j) ==> !Eligible(history[j], now))
  }

  /**
    Which samples may answer: among the last eight, those observed not after `now` and not more
    than 30 s before, one with the least round trip; it answers when the stamp lies within 30 s of its own.
   */
  lemma AnswersExactly(h: seq<Sample>, remote: u64, now: int, v: int)
    ensures IsAnswer(h, remote, now, Some(v)) <==>
            exists k :: Recent(h, k) && |h| - 8 <= k
              && 0 <= now - h[k].observed <= 30_000_000_000
              && (forall j :: Recent(h, j) && 0 <= now - h[j].observed <= 30_000_000_000 ==> h[k].rtt <= h[j].rtt)
              && -30_000_000_000 <= DeltaNs(remote, h[k].remote) <= 30_000_000_000
              && v == h[k].local + DeltaNs(remote, h[k].remote)
  {
    hide DeltaNs;
    if IsAnswer(h, remote, now, Some(v)) {
      var k :| Best(h, now, k) && Some(v) == Map(h[k], remote);
      assert Recent(h, k);
    } else {
      forall k | Best(h, now, k)
        ensures Map(h[k], remote) != Some(v)
      {}
    }
  }

  lemma RecentExactly(h: seq<Sample>, k: int)
    ensures Recent(h, k) <==> 0 <= k < |h| && |h| - k <= 8
  {}

  // ---------------------------------------------------------------------
  // The ring
  // ---------------------------------------------------------------------

  datatype Slot = Slot(valid: bool, remote: u64, local: int, observed: int, rtt: nat)

  const EMPTY_SLOT := Slot(false, 0, 0, 0, 0)

  function SlotOf(s: Sample): Slot {
    Slot(true, s.remote, s.local, s.observed, s.rtt)
  }

  /** The latest position below `n` that is congruent to `i` modulo eight (negative when there is none). */
  function LatestAt(n: nat, i: nat): int
    requires i < SLOTS
  {
    n - 1 - (n - 1 - i) % SLOTS
  }

  lemma LatestAtFacts(n: nat, i: nat)
    requires i < SLOTS
    ensures n - SLOTS <= LatestAt(n, i) < n
    ensures LatestAt(n, i) >= 0 <==> i < n
    ensures LatestAt(n + 1, i) == if i == n % SLOTS then n else LatestAt(n, i)
  {}

  lemma LatestAtRecovers(n: nat, k: nat)
    requires k < n <= k + SLOTS
    ensures LatestAt(n, k % SLOTS) == k
  {}

  class NtpClock {
    const samples: array<Slot>
    var next: u32
    /** Every reply observed so far. */
    ghost var replies: seq<Reply>
    /** Every sample accepted so far; only the last eight are held. */
    ghost var history: seq<Sample>

    ghost predicate Valid()
      reads this, samples
    {
      HoldsHistory() && history == Accepted(replies)
    }

    /** The slots hold the last eight samples of the history. */
    ghost predicate HoldsHistory()
      reads this, samples
    {
      && samples.Length == SLOTS
      && next == |history| % TWO32
      && forall i :: 0 <= i < SLOTS ==> samples[i] == Held(history, i)
    }

    static function Held(h: seq<Sample>, i: nat): Slot
      requires i < SLOTS
    {
      LatestAtFacts(|h|, i);
      if i < |h| then SlotOf(h[LatestAt(|h|, i)]) else EMPTY_SLOT
    }

    static lemma HeldAfterAppend(h: seq<Sample>, s: Sample)
      ensures forall i :: 0 <= i < SLOTS ==>
                Held(h + [s], i) == if i == |h| % SLOTS then SlotOf(s) else Held(h, i)
    {
      forall i | 0 <= i < SLOTS
        ensures Held(h + [s], i) == if i == |h| % SLOTS then SlotOf(s) else Held(h, i)
      {
        LatestAtFacts(|h|, i);
        LatestAtFacts(|h| + 1, i);
      }
    }

    constructor ()
      ensures Valid() && fresh(samples)
      ensures replies == [] && history == []
    {
      samples := new Slot[8](_ => EMPTY_SLOT);
      next := 0;
      replies, history := [], [];
    }

    method Observe(e: Reply) returns (ok: bool)
      requires Valid()
      modifies this, samples
      ensures Valid()
      ensures ok <==> Accept(e).Some?
      ensures replies == old(replies) + [e]
      ensures history == old(history) + if ok then [Accept(e).value] else []
    {
      hide DeltaNs, Held;
      replies := replies + [e];
      assert replies[..|replies| - 1] == old(replies);
      var processing := DeltaNs(e.remoteSent, e.remoteReceived);
      var elapsed := e.received - e.sent;
      var delay := elapsed - processing;
      if e.remoteReceived == 0 || e.remoteSent == 0 || processing < 0 || elapsed < 0 ||
         elapsed > MAX_ELAPSED || delay < MIN_DELAY || delay > MAX_DELAY {
        return false;
      }
      var rtt := if delay > 0 then delay else 0;
      Store(Sample(e.remoteSent, e.received - rtt / 2, e.received, rtt));
      return true;
    }

    method Store(sample: Sample)
      requires HoldsHistory()
      modifies this, samples
      ensures HoldsHistory()
      ensures replies == old(replies) && history == old(history) + [sample]
    {
      // 2^32 is a multiple of eight, so the wrap of `next` does not disturb the slot order.
      var slot := next % samples.Length;
      assert slot == |history| % SLOTS;
      HeldAfterAppend(history, sample);
      samples[slot] := SlotOf(sample);
      next := Wrap32(next + 1);
      history := history + [sample];
    }

    method LocalTime(remote: u64, now: int) returns (r: Option<int>)
      requires Valid()
      ensures IsAnswer(history, remote, now, r)
    {
      var best: int := -1;
      var i := 0;
      while i < samples.Length
        invariant 0 <= i <= samples.Length
        invariant best == -1 || (0 <= best < i && Usable(best, now))
        invariant forall j :: 0 <= j < i && Usable(j, now) ==> best != -1 && samples[best].rtt <= samples[j].rtt
      {
        if !samples[i].valid || now < samples[i].observed || now - samples[i].observed > HORIZON {
        } else if best == -1 || samples[i].rtt < samples[best].rtt {
          best := i;
        }
        i := i + 1;
      }
      if best == -1 {
        NoneUsable(now);
        return None;
      }
      SlotIsBest(best, now);
      var delta := DeltaNs(remote, samples[best].remote);
      r := if delta < -HORIZON || delta > HORIZON then None else Some(samples[best].local + delta);
    }

    lemma RecentIsHeld(k: int)
      requires Valid() && Recent(history, k)
      ensures 0 <= k % SLOTS < SLOTS
      ensures samples[k % SLOTS] == SlotOf(history[k])
    {
      hide Accepted, LatestAt;
      LatestAtRecovers(|history|, k);
    }

    /** If the scan finds no usable slot, no recent sample is eligible. */
    lemma NoneUsable(now: int)
      requires Valid()
      requires forall j :: 0 <= j < SLOTS ==> !Usable(j, now)
      ensures forall k :: Recent(history, k) ==> !Eligible(history[k], now)
    {
      forall k | Recent(history, k)
        ensures !Eligible(history[k], now)
      {
        RecentIsHeld(k);
        assert !Usable(k % SLOTS, now);
      }
    }

    /** A usable slot with the least round trip among usable slots holds a best sample. */
    lemma SlotIsBest(best: nat, now: int)
      requires Valid()
      requires best < SLOTS && Usable(best, now)
      requires forall j :: 0 <= j < SLOTS && Usable(j, now) ==> samples[best].rtt <= samples[j].rtt
      ensures 0 <= LatestAt(|history|, best) < |history|
      ensures samples[best] == SlotOf(history[LatestAt(|history|, best)])
      ensures Best(history, now, LatestAt(|history|, best))
    {
      LatestAtFacts(|history|, best);
      var c := LatestAt(|history|, best);
      assert samples[best] == Held(history, best);
      forall k | Recent(history, k) && Eligible(history[k], now)
        ensures history[c].rtt <= history[k].rtt
      {
        RecentIsHeld(k);
        assert Usable(k % SLOTS, now);
      }
    }

    ghost predicate Usable(i: int, now: int)
      requires samples.Length == SLOTS && 0 <= i < SLOTS
      reads samples
    {
      samples[i].valid && samples[i].observed <= now && now - samples[i].observed <= HORIZON
    }
  }
}
