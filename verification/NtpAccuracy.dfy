/**
  How far the clock estimate can be from the truth. The local steady clock is
  the time axis, in nanoseconds; the sender's clock runs at the same rate and is
  ahead of it by a constant, unknown `offset`.
 */
module NtpAccuracy {
  import opened Wrappers
  import opened Words
  import opened NtpClocks

  /** The sender's unbounded time, in whole units of 2^-32 s, at the local instant `t`. */
  ghost function Stamp(t: real, offset: real): int {
    ((t + offset) * TWO32 as real / NS as real).Floor
  }

  /**
    The reply is honest: the request reached the sender at `a`, the reply left it
    at `b`, and neither network leg took negative time.
   */
  ghost predicate HonestAt(e: Reply, a: real, b: real, offset: real) {
    && e.sent as real <= a <= b <= e.received as real
    && e.remoteReceived == Label(Stamp(a, offset))
    && e.remoteSent == Label(Stamp(b, offset))
  }

  ghost predicate Honest(e: Reply, offset: real) {
    exists a: real, b: real :: HonestAt(e, a, b, offset)
  }

  /** The span, just under 2^31 seconds, that the wrapping stamps can tell apart. */
  const SPAN: real := 2147483640.0 * 1000000000.0

  /** Inside that span the exact difference of two stamps is that of the unbounded times. */
  lemma LagOfStamps(t: real, s: real, offset: real)
    requires -SPAN < t - s < SPAN
    ensures Lag(Label(Stamp(t, offset)), Label(Stamp(s, offset))) == Stamp(t, offset) - Stamp(s, offset)
  {
    var n := Stamp(t, offset) - Stamp(s, offset);
    StampDifference(t, s, offset);
    assert -(HALF32 - 1) * TWO32 < n < (HALF32 - 1) * TWO32;
    LagOfLabels(Stamp(t, offset), Stamp(s, offset));
  }

  /** A difference of two stamps is within 1.25 ns of the elapsed time. */
  lemma DeltaOfStamps(t: real, s: real, offset: real)
    requires -SPAN < t - s < SPAN
    ensures -1.25 < DeltaNs(Label(Stamp(t, offset)), Label(Stamp(s, offset))) as real - (t - s) < 1.25
  {
    var x, y := Stamp(t, offset), Stamp(s, offset);
    var n := x - y;
    StampDifference(t, s, offset);
    LagOfStamps(t, s, offset);
    DeltaIsWithinOneNs(Label(x), Label(y));
    var d := DeltaNs(Label(x), Label(y));
    assert -TWO32 < d * TWO32 - n * NS < TWO32;
    assert -(TWO32 as real) < d as real * TWO32 as real - n as real * NS as real < TWO32 as real;
  }

  lemma StampDifference(t: real, s: real, offset: real)
    ensures var n := Stamp(t, offset) - Stamp(s, offset);
            -(NS as real) < n as real * NS as real - (t - s) * TWO32 as real < NS as real
  {
    var x := (t + offset) * TWO32 as real / NS as real;
    var y := (s + offset) * TWO32 as real / NS as real;
    assert x - y == (t - s) * TWO32 as real / NS as real;
    assert -1.0 < (x.Floor - y.Floor) as real - (x - y) < 1.0;
  }

  // ---------------------------------------------------------------------
  // The bound
  // ---------------------------------------------------------------------

  /** One unit of 2^-32 s is UNIT / GRAIN ns. */
  const UNIT: int := 1953125
  const GRAIN: int := 8388608

  /** What rounding adds to half the round trip: two differences and one stamp late, one of each early. */
  const LATE_SLACK: real := 2.0 + 1953123.0 / 8388608.0
  const EARLY_SLACK: real := 1.0 + 1953124.0 / 8388608.0

  /** Half the round trip, rounded up late and down early, and the slack, which is never reached. */
  ghost predicate InBounds(error: real, rtt: nat) {
    -((rtt / 2) as real) - EARLY_SLACK < error < ((rtt + 1) / 2) as real + LATE_SLACK
  }

  /** A computed difference is off by whole grains, and by less than a nanosecond. */
  lemma DeltaInGrains(value: u64, reference: u64)
    ensures -GRAIN < DeltaNs(value, reference) * GRAIN - Lag(value, reference) * UNIT < GRAIN
  {
    hide DeltaNs, Lag;
    DeltaIsWithinOneNs(value, reference);
  }

  /** How many grains lie between two stamps, against the time between them. */
  lemma StampGrains(t: real, s: real, offset: real)
    ensures var n := Stamp(t, offset) - Stamp(s, offset);
            -(UNIT as real) < (n * UNIT) as real - (t - s) * GRAIN as real < UNIT as real
  {
    hide Stamp;
    var n := Stamp(t, offset) - Stamp(s, offset);
    StampDifference(t, s, offset);
    assert (n * UNIT) as real == n as real * UNIT as real;
  }

  /** In grains: the processing time and the mapped difference together, where the stamp of `b` cancels. */
  lemma TwoDeltas(p: int, d: int, xa: int, xb: int, xu: int, span: real)
    requires p * GRAIN - (xb - xa) * UNIT < GRAIN && d * GRAIN - (xu - xb) * UNIT < GRAIN
    requires ((xu - xa) * UNIT) as real - span * GRAIN as real < UNIT as real
    ensures (p + d) as real - span < LATE_SLACK
  {
    assert (p + d) * GRAIN <= (xu - xa) * UNIT + 2 * (GRAIN - 1);
    assert ((p + d) * GRAIN) as real == (p + d) as real * GRAIN as real;
  }

  lemma OneDelta(d: int, xb: int, xu: int, span: real)
    requires -GRAIN < d * GRAIN - (xu - xb) * UNIT
    requires -(UNIT as real) < ((xu - xb) * UNIT) as real - span * GRAIN as real
    ensures -EARLY_SLACK < d as real - span
  {
    assert d * GRAIN >= (xu - xb) * UNIT - (GRAIN - 1);
    assert (d * GRAIN) as real == d as real * GRAIN as real;
  }

  /** The bound of one sample of an honest sender. */
  lemma SampleIsAccurate(e: Reply, a: real, b: real, offset: real, u: real)
    requires HonestAt(e, a, b, offset)
    requires Accept(e).Some?
    requires -SPAN < u - b < SPAN
    ensures var s := Accept(e).value;
            var answer := s.local + DeltaNs(Label(Stamp(u, offset)), s.remote);
            InBounds(answer as real - u, s.rtt)
  {
    hide Stamp, DeltaNs, Lag, Label;
    var s := Accept(e).value;
    var xa, xb, xu := Stamp(a, offset), Stamp(b, offset), Stamp(u, offset);
    var p, d := DeltaNs(Label(xb), Label(xa)), DeltaNs(Label(xu), Label(xb));
    LagOfStamps(b, a, offset);
    LagOfStamps(u, b, offset);
    DeltaInGrains(Label(xb), Label(xa));
    DeltaInGrains(Label(xu), Label(xb));
    StampGrains(u, a, offset);
    StampGrains(u, b, offset);
    TwoDeltas(p, d, xa, xb, xu, u - a);
    OneDelta(d, xb, xu, u - b);
    var half := s.rtt / 2;
    assert s.rtt - half == (s.rtt + 1) / 2;
    assert e.received - e.sent - p <= s.rtt;
    assert e.received as real <= s.rtt as real + a + p as real;
    assert s.local == e.received - half;
  }

  /** Every accepted sample came from one of the replies. */
  lemma {:induction false} AcceptedComeFromReplies(replies: seq<Reply>, k: nat)
    requires k < |Accepted(replies)|
    ensures exists i :: 0 <= i < |replies| && Accept(replies[i]) == Some(Accepted(replies)[k])
  {
    var last := |replies| - 1;
    if k < |Accepted(replies[..last])| {
      AcceptedComeFromReplies(replies[..last], k);
      var i :| 0 <= i < last && Accept(replies[..last][i]) == Some(Accepted(replies[..last])[k]);
      assert Accept(replies[i]) == Some(Accepted(replies)[k]);
    } else {
      assert Accept(replies[last]) == Some(Accepted(replies)[k]);
    }
  }

  /** `r` is an answer derived from a sample whose round trip is `rtt`. */
  ghost predicate AnsweredWith(replies: seq<Reply>, remote: u64, now: int, r: int, rtt: nat) {
    exists k :: Best(Accepted(replies), now, k)
             && Map(Accepted(replies)[k], remote) == Some(r)
             && Accepted(replies)[k].rtt == rtt
  }

  /** An answer always names the sample it came from. */
  lemma AnswerHasSample(replies: seq<Reply>, remote: u64, now: int, r: Option<int>)
    requires IsAnswer(Accepted(replies), remote, now, r) && r.Some?
    ensures exists rtt: nat :: AnsweredWith(replies, remote, now, r.value, rtt)
  {
    var k :| Best(Accepted(replies), now, k) && r == Map(Accepted(replies)[k], remote);
    assert AnsweredWith(replies, remote, now, r.value, Accepted(replies)[k].rtt);
  }

  /** The instants asked about lie within 68 years of the query, as the wrapping seconds field requires. */
  ghost predicate Askable(u: real, now: int) {
    -2147483600.0 * 1000000000.0 < u - now as real < 2147483600.0 * 1000000000.0
  }

  /**
    Main result. After any history of replies, accepted or rejected, a query for the stamp
    the sender showed at instant `u` is answered less than half the chosen round trip, rounded
    up, plus 2.2328... ns late, and less than half of it, rounded down, plus 1.2328... ns early.
   */
  lemma LocalTimeIsAccurate(replies: seq<Reply>, offset: real, u: real, now: int, answer: int, rtt: nat)
    requires forall e :: e in replies ==> Honest(e, offset)
    requires Askable(u, now)
    requires AnsweredWith(replies, Label(Stamp(u, offset)), now, answer, rtt)
    ensures InBounds(answer as real - u, rtt)
  {
    hide InBounds, DeltaNs;
    var h := Accepted(replies);
    var remote := Label(Stamp(u, offset));
    var k :| Best(h, now, k) && Map(h[k], remote) == Some(answer) && h[k].rtt == rtt;
    AcceptedComeFromReplies(replies, k);
    var i :| 0 <= i < |replies| && Accept(replies[i]) == Some(h[k]);
    var e := replies[i];
    assert e in replies;
    var a: real, b: real :| HonestAt(e, a, b, offset);
    SampleIsAccurate(e, a, b, offset, u);
    assert answer == h[k].local + DeltaNs(remote, h[k].remote);
  }

  /** The same for the ring as it stands, and for whatever its `LocalTime` may return. */
  lemma ClockIsAccurate(clock: NtpClock, offset: real, u: real, now: int, r: Option<int>)
    requires clock.Valid()
    requires forall e :: e in clock.replies ==> Honest(e, offset)
    requires Askable(u, now)
    requires IsAnswer(clock.history, Label(Stamp(u, offset)), now, r) && r.Some?
    ensures exists rtt: nat :: AnsweredWith(clock.replies, Label(Stamp(u, offset)), now, r.value, rtt)
                            && InBounds(r.value as real - u, rtt)
  {
    var remote := Label(Stamp(u, offset));
    AnswerHasSample(clock.replies, remote, now, r);
    var rtt: nat :| AnsweredWith(clock.replies, remote, now, r.value, rtt);
    LocalTimeIsAccurate(clock.replies, offset, u, now, r.value, rtt);
  }

  // ---------------------------------------------------------------------
  // The bound is exact
  // ---------------------------------------------------------------------

  /** After some history of honest replies, an answer from a round trip `rtt` is off by `error`. */
  ghost predicate CanBeOff(rtt: nat, error: real) {
    exists replies, offset: real, u: real, now: int, answer: int ::
      OffBy(replies, offset, u, now, answer, rtt, error)
  }

  ghost predicate OffBy(
    replies: seq<Reply>, offset: real, u: real, now: int, answer: int, rtt: nat, error: real)
  {
    && (forall e :: e in replies ==> Honest(e, offset))
    && Askable(u, now)
    && AnsweredWith(replies, Label(Stamp(u, offset)), now, answer, rtt)
    && error == answer as real - u
  }

  /** The local instant at which the sender's time is `x` units. */
  ghost function Instant(x: real, offset: real): real {
    x * NS as real / TWO32 as real - offset
  }

  lemma StampOfInstant(x: real, offset: real, n: int)
    requires n as real <= x < (n + 1) as real
    ensures Stamp(Instant(x, offset), offset) == n
  {}

  /** A lone usable sample is the one that answers. */
  lemma LoneReplyAnswers(e: Reply, remote: u64, now: int)
    requires Accept(e).Some? && Eligible(Accept(e).value, now)
    requires -HORIZON <= DeltaNs(remote, e.remoteSent) <= HORIZON
    ensures var s := Accept(e).value;
            AnsweredWith([e], remote, now, s.local + DeltaNs(remote, s.remote), s.rtt)
  {
    hide DeltaNs;
    assert [e][..0] == [];
    assert Accepted([e]) == [Accept(e).value];
    assert Best(Accepted([e]), now, 0);
  }

  /** The request takes no time, and both differences cross a whole second, where they are rounded up. */
  ghost function LateReply(rtt: nat): Reply {
    Reply(0, rtt + 2664354, 8583825190, 8595268499)
  }

  ghost function LateOffset(eps: real): real {
    (8583825191.0 - eps) * NS as real / TWO32 as real
  }

  lemma LateReplyIsAccepted(rtt: nat)
    requires rtt <= MAX_DELAY
    ensures var e, half := LateReply(rtt), rtt / 2;
            Accept(e) == Some(Sample(e.remoteSent, rtt + 2664354 - half, rtt + 2664354, rtt))
    ensures DeltaNs(12884901888, LateReply(rtt).remoteSent) == 998758104
  {}

  lemma LateReplyIsHonest(rtt: nat, eps: real)
    requires 0.0 < eps < 0.1
    ensures Honest(LateReply(rtt), LateOffset(eps))
  {
    var offset := LateOffset(eps);
    var a, b := Instant(8583825191.0 - eps, offset), Instant(8595268499.0, offset);
    StampOfInstant(8583825191.0 - eps, offset, 8583825190);
    StampOfInstant(8595268499.0, offset, 8595268499);
    assert a == 0.0 && 0.0 <= b <= 2664354.0;
    assert HonestAt(LateReply(rtt), a, b, offset);
  }

  /** At every round trip the late end is approached as closely as one likes. */
  lemma LateEndIsApproached(rtt: nat, eps: real)
    requires rtt <= MAX_DELAY && 0.0 < eps < 0.1
    ensures CanBeOff(rtt, ((rtt + 1) / 2) as real + LATE_SLACK - eps * NS as real / TWO32 as real)
  {
    hide Accept, Honest, AnsweredWith, Stamp, DeltaNs;
    var e, offset, half, now := LateReply(rtt), LateOffset(eps), rtt / 2, 1000000000;
    var u := Instant(12884901888.0, offset);
    LateReplyIsAccepted(rtt);
    LateReplyIsHonest(rtt, eps);
    StampOfInstant(12884901888.0, offset, 12884901888);
    LoneReplyAnswers(e, 12884901888, now);
    var answer := rtt + 2664354 - half + 998758104;
    assert rtt - half == (rtt + 1) / 2;
    assert OffBy([e], offset, u, now, answer, rtt, answer as real - u);
  }

  /** The whole round trip is spent on the way out, and the reply is instant. */
  ghost function EarlyReply(rtt: nat): Reply {
    Reply(0 - rtt, 0, 4294967296, 4294967296)
  }

  const EARLY_OFFSET: real := 1000000000.0

  lemma EarlyReplyIsAccepted(rtt: nat)
    requires rtt <= MAX_DELAY
    ensures Accept(EarlyReply(rtt)) == Some(Sample(4294967296, 0 - rtt / 2, 0, rtt))
    ensures DeltaNs(4300301203, 4294967296) == 1241896
  {}

  lemma EarlyReplyIsHonest(rtt: nat)
    ensures Honest(EarlyReply(rtt), EARLY_OFFSET)
  {
    StampOfInstant(4294967296.0, EARLY_OFFSET, 4294967296);
    assert Instant(4294967296.0, EARLY_OFFSET) == 0.0;
    assert HonestAt(EarlyReply(rtt), 0.0, 0.0, EARLY_OFFSET);
  }

  /** So is the early end. */
  lemma EarlyEndIsApproached(rtt: nat, eps: real)
    requires rtt <= MAX_DELAY && 0.0 < eps < 0.1
    ensures CanBeOff(rtt, -((rtt / 2) as real) - EARLY_SLACK + eps * NS as real / TWO32 as real)
  {
    hide Accept, Honest, AnsweredWith, Stamp, DeltaNs;
    var e, half := EarlyReply(rtt), rtt / 2;
    var u := Instant(4300301204.0 - eps, EARLY_OFFSET);
    EarlyReplyIsAccepted(rtt);
    EarlyReplyIsHonest(rtt);
    StampOfInstant(4300301204.0 - eps, EARLY_OFFSET, 4300301203);
    LoneReplyAnswers(e, 4300301203, 0);
    var answer := 0 - half + 1241896;
    assert OffBy([e], EARLY_OFFSET, u, 0, answer, rtt, answer as real - u);
  }

  lemma ErrorIsBounded(rtt: nat, error: real)
    requires CanBeOff(rtt, error)
    ensures InBounds(error, rtt)
  {
    hide InBounds, AnsweredWith, Stamp;
    var replies, offset: real, u: real, now: int, answer: int :| OffBy(replies, offset, u, now, answer, rtt, error);
    LocalTimeIsAccurate(replies, offset, u, now, answer, rtt);
  }

  /** Main result on the bound: at every round trip nothing lies outside it, and neither end can be moved in. */
  lemma BoundsAreExact(rtt: nat, low: real, high: real)
    requires rtt <= MAX_DELAY
    ensures (forall error :: CanBeOff(rtt, error) ==> low < error < high)
       <==> low <= -((rtt / 2) as real) - EARLY_SLACK && ((rtt + 1) / 2) as real + LATE_SLACK <= high
  {
    hide CanBeOff;
    var early, late := -((rtt / 2) as real) - EARLY_SLACK, ((rtt + 1) / 2) as real + LATE_SLACK;
    forall error | CanBeOff(rtt, error)
      ensures early < error < late
    {
      ErrorIsBounded(rtt, error);
    }
    if early < low {
      var eps := SmallerThan(low - early);
      EarlyEndIsApproached(rtt, eps);
    }
    if high < late {
      var eps := SmallerThan(late - high);
      LateEndIsApproached(rtt, eps);
    }
  }

  lemma SmallerThan(gap: real) returns (eps: real)
    requires gap > 0.0
    ensures 0.0 < eps < 0.1 && 0.0 < eps * NS as real / TWO32 as real < gap
  {
    eps := if gap < 0.05 then gap else 0.05;
  }

  /** Half the round trip plus `slack`, early or late. */
  predicate InSlack(error: real, rtt: nat, slack: real) {
    -(rtt as real / 2.0 + slack) <= error <= rtt as real / 2.0 + slack
  }

  /** The slack a round trip needs: half a nanosecond more when it is odd. */
  function NeededSlack(rtt: nat): real {
    LATE_SLACK + if rtt % 2 == 0 then 0.0 else 0.5
  }

  lemma LateEnd(rtt: nat)
    ensures ((rtt + 1) / 2) as real + LATE_SLACK == rtt as real / 2.0 + NeededSlack(rtt)
    ensures rtt as real / 2.0 - 0.5 <= (rtt / 2) as real <= rtt as real / 2.0
  {
    var half := rtt / 2;
    if rtt % 2 == 0 {
      assert (rtt + 1) / 2 == half && rtt as real / 2.0 == half as real;
    } else {
      assert (rtt + 1) / 2 == half + 1 && rtt as real / 2.0 == half as real + 0.5;
    }
  }

  lemma BoundsInSlack(error: real, rtt: nat, slack: real)
    requires InBounds(error, rtt) && slack >= NeededSlack(rtt)
    ensures InSlack(error, rtt, slack)
  {
    LateEnd(rtt);
  }

  lemma LessSlackFails(rtt: nat, slack: real) returns (error: real)
    requires rtt <= MAX_DELAY && slack < NeededSlack(rtt)
    ensures CanBeOff(rtt, error) && !InSlack(error, rtt, slack)
  {
    hide CanBeOff;
    var eps := SmallerThan(NeededSlack(rtt) - slack);
    LateEnd(rtt);
    LateEndIsApproached(rtt, eps);
    error := ((rtt + 1) / 2) as real + LATE_SLACK - eps * NS as real / TWO32 as real;
  }

  /**
    Main result on the round trip: half of it plus `slack` bounds the error of every answer if and
    only if `slack` is at least 2.2328... ns, or 2.7328... ns when it is odd. So 2 ns never do.
   */
  lemma SlackIsExact(rtt: nat, slack: real)
    requires rtt <= MAX_DELAY
    ensures (forall error :: CanBeOff(rtt, error) ==> InSlack(error, rtt, slack)) <==> slack >= NeededSlack(rtt)
  {
    hide CanBeOff, InSlack, InBounds, NeededSlack;
    if slack >= NeededSlack(rtt) {
      forall error | CanBeOff(rtt, error)
        ensures InSlack(error, rtt, slack)
      {
        ErrorIsBounded(rtt, error);
        BoundsInSlack(error, rtt, slack);
      }
    } else {
      var error := LessSlackFails(rtt, slack);
    }
  }

  // ---------------------------------------------------------------------
  // The special case of senders that act on whole nanoseconds
  // ---------------------------------------------------------------------

  /** The reply is honest and the sender acted on whole nanoseconds. */
  ghost predicate HonestTicks(e: Reply, offset: real) {
    exists a: int, b: int :: TicksAt(e, a, b, offset)
  }

  ghost predicate TicksAt(e: Reply, a: int, b: int, offset: real) {
    HonestAt(e, a as real, b as real, offset)
  }

  /** The stamp the sender shows at the whole nanosecond `u`. */
  ghost function TickLabel(u: int, offset: real): u64 {
    Label(Stamp(u as real, offset))
  }

  /** How far the answer drawn from the sample of `e` is from the instant `u` asked about. */
  ghost function ErrorOf(e: Reply, offset: real, u: int): int
    requires Accept(e).Some?
  {
    var s := Accept(e).value;
    s.local + DeltaNs(TickLabel(u, offset), s.remote) - u
  }

  /** Half the round trip rounded up plus 2 ns late, half of it rounded down plus 1 ns early. */
  predicate InTicks(error: int, rtt: nat) {
    -(rtt / 2) - 1 <= error <= (rtt + 1) / 2 + 2
  }

  /** The bound of one sample when the sender's events fall on whole nanoseconds. */
  lemma TicksAreAccurate(e: Reply, a: int, b: int, offset: real, u: int)
    requires TicksAt(e, a, b, offset)
    requires Accept(e).Some?
    requires -SPAN < u as real - b as real < SPAN
    ensures InTicks(ErrorOf(e, offset, u), Accept(e).value.rtt)
  {
    var s := Accept(e).value;
    DeltaOfStamps(b as real, a as real, offset);
    DeltaOfStamps(u as real, b as real, offset);
    WithinOne(DeltaNs(e.remoteSent, e.remoteReceived), b - a, b as real - a as real);
    WithinOne(DeltaNs(TickLabel(u, offset), s.remote), u - b, u as real - b as real);
    assert e.sent <= a <= b <= e.received;
  }

  lemma WithinOne(d: int, n: int, x: real)
    requires x == n as real && -1.25 < d as real - x < 1.25
    ensures -1 <= d - n <= 1
  {}

  /** The bound of every answer after any history of such replies. */
  lemma LocalTimeInTicks(replies: seq<Reply>, offset: real, u: int, now: int, answer: int, rtt: nat)
    requires forall e :: e in replies ==> HonestTicks(e, offset)
    requires -2147483600 * NS < u - now < 2147483600 * NS
    requires AnsweredWith(replies, TickLabel(u, offset), now, answer, rtt)
    ensures InTicks(answer - u, rtt)
  {
    var h := Accepted(replies);
    var remote := TickLabel(u, offset);
    var k :| Best(h, now, k) && Map(h[k], remote) == Some(answer) && h[k].rtt == rtt;
    AcceptedComeFromReplies(replies, k);
    var i :| 0 <= i < |replies| && Accept(replies[i]) == Some(h[k]);
    var e := replies[i];
    assert e in replies;
    var a: int, b: int :| TicksAt(e, a, b, offset);
    SpanOfTicks(e, a, b, offset, u, now);
    TicksAreAccurate(e, a, b, offset, u);
  }

  lemma SpanOfTicks(e: Reply, a: int, b: int, offset: real, u: int, now: int)
    requires TicksAt(e, a, b, offset)
    requires Accept(e).Some? && Eligible(Accept(e).value, now)
    requires -2147483600 * NS < u - now < 2147483600 * NS
    ensures -SPAN < u as real - b as real < SPAN
  {
    assert now - HORIZON - MAX_ELAPSED <= e.sent <= b <= e.received <= now;
    assert -2147483600 * NS < u - b < 2147483632 * NS;
    assert u as real - b as real == (u - b) as real;
  }

  /** The same for the ring as it stands, and for whatever its `LocalTime` may return. */
  lemma ClockInTicks(clock: NtpClock, offset: real, u: int, now: int, r: Option<int>)
    requires clock.Valid()
    requires forall e :: e in clock.replies ==> HonestTicks(e, offset)
    requires -2147483600 * NS < u - now < 2147483600 * NS
    requires IsAnswer(clock.history, TickLabel(u, offset), now, r) && r.Some?
    ensures exists rtt: nat :: AnsweredWith(clock.replies, TickLabel(u, offset), now, r.value, rtt)
                            && InTicks(r.value - u, rtt)
  {
    var remote := TickLabel(u, offset);
    AnswerHasSample(clock.replies, remote, now, r);
    var rtt: nat :| AnsweredWith(clock.replies, remote, now, r.value, rtt);
    LocalTimeInTicks(clock.replies, offset, u, now, r.value, rtt);
  }

  lemma WholeStamp(t: real, offset: real, q: int)
    requires q as real * NS as real <= (t + offset) * TWO32 as real < (q + 1) as real * NS as real
    ensures Stamp(t, offset) == q
  {}

  const TICK_OFFSET: real := 5999999999.0

  /** Stamps one nanosecond on either side of a whole second: a processing time of 2 ns reads as 3 ns. */
  ghost function LateTickReply(rtt: nat): Reply {
    Reply(0, rtt + 3, TickLabel(0, TICK_OFFSET), TickLabel(2, TICK_OFFSET))
  }

  lemma LateTickLabels()
    ensures TickLabel(0, TICK_OFFSET) == 25769803771
    ensures TickLabel(2, TICK_OFFSET) == 25769803780
    ensures TickLabel(1000000001, TICK_OFFSET) == 30064771072
  {
    WholeStamp(0.0, TICK_OFFSET, 25769803771);
    WholeStamp(2.0, TICK_OFFSET, 25769803780);
    WholeStamp(1000000001.0, TICK_OFFSET, 30064771072);
  }

  /** The late end is reached at every round trip the clock accepts. */
  lemma LateEndIsReached(rtt: nat)
    requires rtt <= MAX_DELAY
    ensures var e, u := LateTickReply(rtt), 1000000001;
            && TicksAt(e, 0, 2, TICK_OFFSET)
            && Accept(e).Some? && Accept(e).value.rtt == rtt
            && ErrorOf(e, TICK_OFFSET, u) == (rtt + 1) / 2 + 2
  {
    hide Stamp;
    LateTickLabels();
  }

  /** The whole round trip is spent on the way out, and the reply is instant. */
  ghost function EarlyTickReply(rtt: nat): Reply {
    Reply(0 - rtt, 0, TickLabel(0, EARLY_OFFSET), TickLabel(0, EARLY_OFFSET))
  }

  lemma EarlyTickLabels()
    ensures TickLabel(0, EARLY_OFFSET) == 4294967296 && TickLabel(1, EARLY_OFFSET) == 4294967300
  {
    WholeStamp(0.0, EARLY_OFFSET, 4294967296);
    WholeStamp(1.0, EARLY_OFFSET, 4294967300);
  }

  /** So is the early end. */
  lemma EarlyEndIsReached(rtt: nat)
    requires rtt <= MAX_DELAY
    ensures var e, u := EarlyTickReply(rtt), 1;
            && TicksAt(e, 0, 0, EARLY_OFFSET)
            && Accept(e).Some? && Accept(e).value.rtt == rtt
            && ErrorOf(e, EARLY_OFFSET, u) == -(rtt / 2) - 1
  {
    hide Stamp;
    EarlyTickLabels();
  }

  /** After some history of honest whole-nanosecond replies, an answer from a round trip `rtt` is off by `error`. */
  ghost predicate CanBeOffInTicks(rtt: nat, error: int) {
    exists replies, offset: real, u: int, now: int :: OffInTicks(replies, offset, u, now, rtt, error)
  }

  ghost predicate OffInTicks(replies: seq<Reply>, offset: real, u: int, now: int, rtt: nat, error: int) {
    && (forall e :: e in replies ==> HonestTicks(e, offset))
    && -2147483600 * NS < u - now < 2147483600 * NS
    && AnsweredWith(replies, TickLabel(u, offset), now, u + error, rtt)
  }

  /** The ticks bound is the best possible one for the answers, at each round trip and on both sides. */
  lemma TicksAreExact(rtt: nat)
    requires rtt <= MAX_DELAY
    ensures forall error :: CanBeOffInTicks(rtt, error) ==> InTicks(error, rtt)
    ensures CanBeOffInTicks(rtt, (rtt + 1) / 2 + 2) && CanBeOffInTicks(rtt, -(rtt / 2) - 1)
  {
    forall error | CanBeOffInTicks(rtt, error)
      ensures InTicks(error, rtt)
    {
      var replies, offset: real, u: int, now: int :| OffInTicks(replies, offset, u, now, rtt, error);
      LocalTimeInTicks(replies, offset, u, now, u + error, rtt);
    }
    LateTickAnswer(rtt);
    EarlyTickAnswer(rtt);
  }

  lemma LateTickAnswer(rtt: nat)
    requires rtt <= MAX_DELAY
    ensures CanBeOffInTicks(rtt, (rtt + 1) / 2 + 2)
  {
    hide Stamp, Accept;
    var e, u := LateTickReply(rtt), 1000000001;
    LateEndIsReached(rtt);
    LateTickLabels();
    assert Eligible(Accept(e).value, u) by { LocalOfSample(e); }
    assert DeltaNs(30064771072, 25769803780) == 1000000000;
    LoneReplyAnswers(e, TickLabel(u, TICK_OFFSET), u);
    assert OffInTicks([e], TICK_OFFSET, u, u, rtt, (rtt + 1) / 2 + 2);
  }

  lemma EarlyTickAnswer(rtt: nat)
    requires rtt <= MAX_DELAY
    ensures CanBeOffInTicks(rtt, -(rtt / 2) - 1)
  {
    hide Stamp, Accept;
    var e, u := EarlyTickReply(rtt), 1;
    EarlyEndIsReached(rtt);
    EarlyTickLabels();
    assert Eligible(Accept(e).value, u) by { LocalOfSample(e); }
    assert DeltaNs(4294967300, 4294967296) == 0;
    LoneReplyAnswers(e, TickLabel(u, EARLY_OFFSET), u);
    assert OffInTicks([e], EARLY_OFFSET, u, u, rtt, -(rtt / 2) - 1);
  }

  lemma LocalOfSample(e: Reply)
    requires Accept(e).Some?
    ensures Accept(e).value.observed == e.received
  {}

  lemma SlackOfTicks(error: int, rtt: nat, slack: real)
    requires InTicks(error, rtt)
    ensures InSlack(((rtt + 1) / 2 + 2) as real, rtt, slack) <==> slack >= if rtt % 2 == 0 then 2.0 else 2.5
    ensures InSlack(((rtt + 1) / 2 + 2) as real, rtt, slack) ==> InSlack(error as real, rtt, slack)
  {
    LateEnd(rtt);
    assert ((rtt + 1) / 2 + 2) as real == rtt as real / 2.0 + if rtt % 2 == 0 then 2.0 else 2.5;
  }

  /** For such senders 2 ns do, but only at even round trips; 2.5 ns do at odd ones. */
  lemma SlackInTicks(rtt: nat, slack: real)
    requires rtt <= MAX_DELAY
    ensures (forall error: int :: CanBeOffInTicks(rtt, error) ==> InSlack(error as real, rtt, slack))
       <==> slack >= if rtt % 2 == 0 then 2.0 else 2.5
  {
    hide CanBeOffInTicks, InSlack, InTicks;
    TicksAreExact(rtt);
    var late := (rtt + 1) / 2 + 2;
    assert InTicks(late, rtt);
    SlackOfTicks(late, rtt, slack);
    forall error | InTicks(error, rtt) && InSlack(late as real, rtt, slack)
      ensures InSlack(error as real, rtt, slack)
    {
      SlackOfTicks(error, rtt, slack);
    }
  }
}
