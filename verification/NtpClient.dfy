/**
  The timing probes: writing 64-bit NTP stamps into the 32-byte request, and
  the one step that lets a reply reach the clock.
 */
module NtpClients {
  import opened Wrappers
  import opened Words
  import opened Arithmetic
  import opened NtpClocks
  import NtpAccuracy

  const SECONDS_FROM_1900_TO_1970: int := 2208988800
  const PACKET: nat := 32
  const REPLY_TYPE: int := 0x53

  /** Stamps count from 1900: 70 years, 17 of them leap years, before the clock they are made from. */
  lemma EpochIs1900()
    ensures NtpStamp(0) == (70 * 365 + 17) * 86400 * TWO32
  {}

  /** `s` with the bytes at `off` replaced by `t`. */
  function Splice(s: seq<byte>, off: nat, t: seq<byte>): seq<byte>
    requires off + |t| <= |s|
  {
    s[..off] + t + s[off + |t|..]
  }

  function Be64(v: u64): (s: seq<byte>)
    ensures |s| == 8
  {
    Be32(v / TWO32) + Be32(v % TWO32)
  }

  /** The value of a big-endian byte string. */
  function BeValue(s: seq<byte>): nat {
    if s == [] then 0 else BeValue(s[..|s| - 1]) * 256 + s[|s| - 1] as int
  }

  /** Reading back eight written bytes gives the written value. */
  lemma BeValueOfBe64(v: u64)
    ensures BeValue(Be64(v)) == v
  {
    BeValueOf4(Be32(v / TWO32));
    var s := Be64(v);
    Word32OfBe32(v / TWO32);
    Word32OfBe32(v % TWO32);
    assert s[..4] == Be32(v / TWO32);
    var t := s[4..];
    assert t == Be32(v % TWO32);
    assert s[..8] == s;
    assert BeValue(s[..5]) == BeValue(s[..4]) * 256 + t[0] as int by { assert s[..5][..4] == s[..4]; }
    assert BeValue(s[..6]) == BeValue(s[..5]) * 256 + t[1] as int by { assert s[..6][..5] == s[..5]; }
    assert BeValue(s[..7]) == BeValue(s[..6]) * 256 + t[2] as int by { assert s[..7][..6] == s[..6]; }
    assert BeValue(s[..8]) == BeValue(s[..7]) * 256 + t[3] as int by { assert s[..8][..7] == s[..7]; }
  }

  lemma BeValueOf4(s: seq<byte>)
    requires |s| == 4
    ensures BeValue(s) == Word32(s, 0)
  {
    assert s[..3][..2] == s[..2];
    assert s[..2][..1] == s[..1];
    assert s[..1][..0] == [];
    assert BeValue(s[..1]) == s[0] as int;
    assert BeValue(s[..2]) == BeValue(s[..1]) * 256 + s[1] as int;
    assert BeValue(s[..3]) == BeValue(s[..2]) * 256 + s[2] as int;
  }

  /** Different byte strings of one length have different values. */
  lemma {:induction false} BeValueIsInjective(s: seq<byte>, t: seq<byte>)
    requires |s| == |t| && BeValue(s) == BeValue(t)
    ensures s == t
  {
    if s != [] {
      var n := |s| - 1;
      BeValueIsInjective(s[..n], t[..n]);
      assert s == s[..n] + [s[n]] && t == t[..n] + [t[n]];
    }
  }

  method PutU32Be(buf: array<byte>, off: nat, v: u32)
    requires off + 4 <= buf.Length
    modifies buf
    ensures buf[..] == Splice(old(buf[..]), off, Be32(v))
  {
    buf[off] := v / 0x100_0000 % 256;
    buf[off + 1] := v / 0x1_0000 % 256;
    buf[off + 2] := v / 0x100 % 256;
    buf[off + 3] := v % 256;
  }

  method PutU64Be(buf: array<byte>, off: nat, v: u64)
    requires off + 8 <= buf.Length
    modifies buf
    ensures buf[..] == Splice(old(buf[..]), off, Be64(v))
  {
    PutU32Be(buf, off, v / TWO32);
    PutU32Be(buf, off + 4, v % TWO32);
  }

  method GetU64Be(buf: array<byte>, off: nat) returns (v: u64)
    requires off + 8 <= buf.Length
    ensures v == BeValue(buf[off..off + 8])
  {
    v := 0;
    var i := 0;
    while i < 8
      invariant 0 <= i <= 8
      invariant v == BeValue(buf[off..off + i])
      invariant v < Pow256(i)
    {
      assert buf[off..off + i + 1] == buf[off..off + i] + [buf[off + i]];
      assert Pow256(i + 1) <= TWO64;
      v := (v * 256 + buf[off + i] as int) % TWO64;
      i := i + 1;
    }
  }

  function Pow256(i: int): int
    requires 0 <= i <= 8
  {
    [1, 0x100, 0x1_0000, 0x100_0000, 0x1_0000_0000, 0x100_0000_0000,
     0x1_0000_0000_0000, 0x100_0000_0000_0000, 0x1_0000_0000_0000_0000][i]
  }

  /** The stamp of an instant given in nanoseconds since 1970. */
  function NtpStamp(ns: u64): u64 {
    Wrap32(ns / NS + SECONDS_FROM_1900_TO_1970) * TWO32 + ns % NS * TWO32 / NS
  }

  method PutNtpTimestamp(buf: array<byte>, off: nat, ns: u64)
    requires off + 8 <= buf.Length
    modifies buf
    ensures buf[..] == Splice(old(buf[..]), off, Be64(NtpStamp(ns)))
  {
    var seconds := ns / NS + SECONDS_FROM_1900_TO_1970;
    var nanos := ns % NS;
    var fraction := nanos * TWO32 / NS;
    var high, low := Wrap32(seconds), Wrap32(fraction);
    StampParts(ns);
    assert high == NtpStamp(ns) / TWO32 && low == NtpStamp(ns) % TWO32;
    PutU32Be(buf, off, high);
    PutU32Be(buf, off + 4, low);
  }

  /** The stamps written are those of a clock that counts from 1900. */
  lemma NtpStampIsStamp(ns: u64)
    ensures NtpStamp(ns) == Label(NtpAccuracy.Stamp(ns as real, (SECONDS_FROM_1900_TO_1970 * NS) as real))
  {
    hide NtpStamp, Label;
    var s, n := ns / NS + SECONDS_FROM_1900_TO_1970, ns % NS;
    var f := n * TWO32 / NS;
    StampOfWhole(ns, SECONDS_FROM_1900_TO_1970 * NS, s, n, f);
    SplitStamp(ns, s * TWO32 + f, s, f);
  }

  lemma SplitStamp(ns: u64, q: int, s: int, f: int)
    requires s == ns / NS + SECONDS_FROM_1900_TO_1970 && f == ns % NS * TWO32 / NS && q == s * TWO32 + f
    ensures NtpStamp(ns) == Label(q)
  {
    hide NtpStamp, Label, Wrap32;
    StampParts(ns);
    LabelParts(q);
    ModUnique(q, TWO32, s, f);
  }

  lemma StampOfWhole(ns: int, offset: int, s: int, n: int, f: int)
    requires ns + offset == s * NS + n && f == n * TWO32 / NS
    ensures NtpAccuracy.Stamp(ns as real, offset as real) == s * TWO32 + f
  {
    var q, x := s * TWO32 + f, ns + offset;
    assert q * NS <= x * TWO32 < (q + 1) * NS;
    assert ns as real + offset as real == x as real;
    NtpAccuracy.WholeStamp(ns as real, offset as real, q);
  }

  /** Stamps of two instants differ by the elapsed nanoseconds, give or take one. */
  lemma StampsMeasureTime(x: u64, y: u64)
    requires -2147483640 * NS < x - y < 2147483640 * NS
    ensures -1 <= DeltaNs(NtpStamp(x), NtpStamp(y)) - (x - y) <= 1
  {
    NtpStampIsStamp(x);
    NtpStampIsStamp(y);
    NtpAccuracy.DeltaOfStamps(x as real, y as real, (SECONDS_FROM_1900_TO_1970 * NS) as real);
    NtpAccuracy.WithinOne(DeltaNs(NtpStamp(x), NtpStamp(y)), x - y, x as real - y as real);
  }

  /** An echoed stamp names the probe's send time, up to whole turns of the 32-bit seconds. */
  lemma StampNamesInstant(x: u64, y: u64)
    ensures NtpStamp(x) == NtpStamp(y) <==> (x - y) % (TWO32 * NS) == 0
  {
    hide NtpStamp, Wrap32;
    StampParts(x);
    StampParts(y);
    var sx, sy := x / NS, y / NS;
    FractionIsInjective(x % NS, y % NS);
    assert NtpStamp(x) == NtpStamp(y) <==>
             && Wrap32(sx + SECONDS_FROM_1900_TO_1970) == Wrap32(sy + SECONDS_FROM_1900_TO_1970)
             && x % NS == y % NS;
    WrapsAgree(sx + SECONDS_FROM_1900_TO_1970, sy + SECONDS_FROM_1900_TO_1970);
    assert x - y == (sx - sy) * NS + (x % NS - y % NS);
    DividesProduct(sx - sy, x % NS - y % NS);
  }

  lemma WrapsAgree(a: int, b: int)
    ensures Wrap32(a) == Wrap32(b) <==> (a - b) % TWO32 == 0
  {}

  lemma StampParts(x: u64)
    ensures NtpStamp(x) / TWO32 == Wrap32(x / NS + SECONDS_FROM_1900_TO_1970)
    ensures NtpStamp(x) % TWO32 == x % NS * TWO32 / NS
  {}

  lemma FractionIsInjective(m: nat, n: nat)
    requires m < NS && n < NS
    ensures m * TWO32 / NS == n * TWO32 / NS ==> m == n
  {}

  lemma DividesProduct(q: int, r: int)
    requires -NS < r < NS
    ensures (q * NS + r) % (TWO32 * NS) == 0 <==> q % TWO32 == 0 && r == 0
  {
    var p := q / TWO32;
    var e := q % TWO32;
    assert q * NS + r == p * (TWO32 * NS) + (e * NS + r);
    assert -NS < e * NS + r < TWO32 * NS;
  }

  /** The probe: fixed header, the last reply's send stamp, its arrival stamp, the send stamp. */
  function Probe(clientRef: u64, recvTime: u64, sendTime: u64): seq<byte> {
    [0x80, 0xd2, 0x00, 0x07, 0x00, 0x00, 0x00, 0x00]
    + (if recvTime == 0 then Be64(0) + Be64(0) else Be64(clientRef) + Be64(NtpStamp(recvTime)))
    + Be64(NtpStamp(sendTime))
  }

  /** The reply's type byte and its echo of the probe's send stamp. */
  predicate Matches(response: seq<byte>, n: int, sendTime: u64) {
    n >= PACKET && |response| >= PACKET && response[1] % 128 == REPLY_TYPE
    && response[8..16] == Be64(NtpStamp(sendTime))
  }

  /**
    A request echoes the sender's last stamp and says when it arrived, and carries its own send time;
    before the first reply the two echoed fields are zero.
   */
  lemma ProbeIsRead(clientRef: u64, recvTime: u64, sendTime: u64)
    ensures var p := Probe(clientRef, recvTime, sendTime);
            && |p| == 32 && p[..8] == [0x80, 0xd2, 0, 7, 0, 0, 0, 0]
            && Word64(p[8..16]) == (if recvTime == 0 then 0 else clientRef)
            && Word64(p[16..24]) == (if recvTime == 0 then 0 else NtpStamp(recvTime))
            && Word64(p[24..32]) == NtpStamp(sendTime)
  {
    hide NtpStamp, Be64, BeValue;
    var a, b := if recvTime == 0 then 0 else clientRef, if recvTime == 0 then 0 else NtpStamp(recvTime);
    var p := Probe(clientRef, recvTime, sendTime);
    assert p[8..16] == Be64(a) && p[16..24] == Be64(b) && p[24..32] == Be64(NtpStamp(sendTime));
    BeValueOfBe64(a);
    BeValueOfBe64(b);
    BeValueOfBe64(NtpStamp(sendTime));
  }

  /** A reply as the sender writes it: type 0x53 with or without the marker bit, the echo, and its two stamps. */
  function Answer(first: byte, marker: bool, rest: seq<byte>, echo: u64, received: u64, sent: u64): seq<byte>
    requires |rest| == 6
  {
    [first, if marker then 0xd3 else 0x53] + rest + (Be64(echo) + (Be64(received) + Be64(sent)))
  }

  /** Such a reply matches a probe if and only if it echoes the probe's send stamp, and then gives its two stamps. */
  lemma AnswerIsRead(
    first: byte, marker: bool, rest: seq<byte>, echo: u64, received: u64, sent: u64, sendTime: u64, t0: int, t3: int)
    requires |rest| == 6
    ensures var a := Answer(first, marker, rest, echo, received, sent);
            && |a| == 32
            && (Matches(a, 32, sendTime) <==> echo == NtpStamp(sendTime))
            && ReplyIn(a, t0, t3) == Reply(t0, t3, received, sent)
  {
    hide NtpStamp, Be64, BeValue;
    var a := Answer(first, marker, rest, echo, received, sent);
    assert a[8..16] == Be64(echo) && a[16..24] == Be64(received) && a[24..32] == Be64(sent);
    BeValueOfBe64(echo);
    BeValueOfBe64(received);
    BeValueOfBe64(sent);
    BeValueOfBe64(NtpStamp(sendTime));
  }

  lemma FreshProbe(s: seq<byte>)
    requires |s| == 32 && s[0] == 0x80 && s[1] == 0xd2 && s[2] == 0 && s[3] == 7
    requires forall i :: 4 <= i < 32 ==> s[i] == 0
    ensures s[..8] == [0x80, 0xd2, 0x00, 0x07, 0x00, 0x00, 0x00, 0x00]
    ensures s[8..24] == Be64(0) + Be64(0)
  {}

  lemma SpliceEnd(s: seq<byte>, t: seq<byte>)
    requires |s| == 32 && |t| == 8
    ensures var r := Splice(s, 24, t);
            |r| == 32 && r[..8] == s[..8] && r[8..24] == s[8..24] && r[24..] == t
  {}

  lemma SpliceMiddle(s: seq<byte>, a: seq<byte>, b: seq<byte>)
    requires |s| == 32 && |a| == |b| == 8
    ensures |Splice(s, 8, a)| == 32
    ensures var r := Splice(Splice(s, 8, a), 16, b);
            |r| == 32 && r[..8] == s[..8] && r[8..24] == a + b && r[24..] == s[24..]
  {}

  lemma ThreeParts(s: seq<byte>)
    requires |s| == 32
    ensures s == s[..8] + s[8..24] + s[24..]
  {}

  class NtpClient {
    const request: array<byte>
    const clock: NtpClock
    var recvTime: u64
    var clientRefTime: u64
    /** The send time of the latest probe. */
    ghost var sendTime: u64

    ghost predicate Valid()
      reads this, request, clock, clock.samples
    {
      && request.Length == PACKET
      && clock.Valid()
      && request[..8] == [0x80, 0xd2, 0x00, 0x07, 0x00, 0x00, 0x00, 0x00]
      && (recvTime == 0 ==> request[8..24] == Be64(0) + Be64(0))
      && request[24..] == Be64(NtpStamp(sendTime))
    }

    /** The state after the first probe, sent at `now`. */
    constructor (now: u64)
      ensures Valid() && sendTime == now && recvTime == 0
      ensures clock.replies == [] && clock.history == []
      ensures fresh(request) && fresh(clock) && fresh(clock.samples)
    {
      hide NtpStamp, Be64, Splice;
      var buf := new byte[32](i requires 0 <= i < 32 =>
        if i == 0 then 0x80 else if i == 1 then 0xd2 else if i == 3 then 7 else 0);
      ghost var was := buf[..];
      FreshProbe(was);
      PutNtpTimestamp(buf, 24, now);
      SpliceEnd(was, Be64(NtpStamp(now)));
      request := buf;
      clock := new NtpClock();
      recvTime, clientRefTime, sendTime := 0, 0, now;
    }

    method Send(now: u64)
      requires Valid()
      modifies this, request
      ensures Valid()
      ensures sendTime == now && recvTime == old(recvTime) && clientRefTime == old(clientRefTime)
      ensures clock.replies == old(clock.replies) && clock.history == old(clock.history)
      ensures request[..] == Probe(clientRefTime, recvTime, now)
    {
      hide NtpStamp, Be64, Accepted, Splice;
      ghost var was := request[..];
      PutNtpTimestamp(request, 24, now);
      ghost var sent := request[..];
      SpliceEnd(was, Be64(NtpStamp(now)));
      if recvTime != 0 {
        PutU64Be(request, 8, clientRefTime);
        PutNtpTimestamp(request, 16, recvTime);
        SpliceMiddle(sent, Be64(clientRefTime), Be64(NtpStamp(recvTime)));
      }
      sendTime := now;
      ThreeParts(request[..]);
      assert clock.Valid();
    }

    /** One datagram of `n` bytes arrived in `response`; only a matching one reaches the clock. */
    method Receive(response: array<byte>, n: int, now: u64, sentSteady: int, receivedSteady: int)
      requires Valid()
      requires response.Length >= PACKET && n <= response.Length
      requires now != 0
      requires response != request
      modifies this, clock, clock.samples
      ensures Valid() && sendTime == old(sendTime) && request[..] == old(request[..])
      ensures !Matches(response[..], n, sendTime) ==>
                && clock.replies == old(clock.replies) && clock.history == old(clock.history)
                && recvTime == old(recvTime) && clientRefTime == old(clientRefTime)
      ensures Matches(response[..], n, sendTime) ==>
                var reply := ReplyIn(response[..], sentSteady, receivedSteady);
                && recvTime == now && clientRefTime == BeValue(response[24..32])
                && clock.replies == old(clock.replies) + [reply]
                && clock.history == old(clock.history)
                                    + match Accept(reply) case Some(sample) => [sample] case None => []
    {
      if n < PACKET || response[1] % 128 != REPLY_TYPE {
        return;
      }
      var echo := GetU64Be(response, 8);
      var stamp := GetU64Be(request, 24);
      assert request[24..32] == request[24..];
      if echo != stamp {
        return;
      }
      BeValueIsInjective(response[8..16], request[24..32]);
      recvTime := now;
      clientRefTime := GetU64Be(response, 24);
      var received := GetU64Be(response, 16);
      var sent := GetU64Be(response, 24);
      var ok := clock.Observe(Reply(sentSteady, receivedSteady, received, sent));
    }
  }

  /** The round trip a matching datagram completes. */
  function ReplyIn(response: seq<byte>, sentSteady: int, receivedSteady: int): Reply
    requires |response| >= PACKET
  {
    Reply(sentSteady, receivedSteady, Word64(response[16..24]), Word64(response[24..32]))
  }

  function Word64(s: seq<byte>): (v: u64)
    requires |s| == 8
  {
    BeValueBound(s);
    BeValue(s)
  }

  lemma BeValueBound(s: seq<byte>)
    requires |s| <= 8
    ensures BeValue(s) < Pow256(|s|)
  {
    if s != [] {
      BeValueBound(s[..|s| - 1]);
    }
  }
}
