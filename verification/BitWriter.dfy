/** The bit writer of the audio decoder's configuration. */
module BitWriters {
  import opened Words
  import opened Bits

  /** A value and the number of its low bits to write. */
  datatype Field = Field(value: int, width: nat)

  function FieldBits(fields: seq<Field>): seq<bool> {
    if fields == [] then [] else ToBits(fields[0].value, fields[0].width) + FieldBits(fields[1..])
  }

  /** Bitwise or with one bit of a byte. */
  function SetBit(b: byte, i: int): byte
    requires 0 <= i < 8
  {
    if Bit(b, i) then b
    else
      SetBitFits(b, i);
      b + Pow2(i)
  }

  function ByteBits(b: byte): (r: seq<bool>)
    ensures |r| == 8
  {
    seq(8, j requires 0 <= j < 8 => Bit(b, 7 - j))
  }

  lemma ByteBitsAreToBits(b: byte)
    ensures ByteBits(b) == ToBits(b, |ByteBits(b)|)
    ensures Value(ByteBits(b)) == b
  {
    BitsByShift(b, ByteBits(b));
    ByteMod(b, |ByteBits(b)|);
  }

  lemma ByteMod(b: byte, n: nat)
    requires n == 8
    ensures Value(ToBits(b, n)) == b
  {
    hide ToBits, Value;
    Pow2At8();
    assert Pow2(n) == 256;
    ValueOfToBits(b, n);
  }

  /** Extracting every bit by a shift spells the number. */
  lemma BitsByShift(v: int, s: seq<bool>)
    requires forall j :: 0 <= j < |s| ==> s[j] == (v / Pow2(|s| - 1 - j) % 2 == 1)
    ensures s == ToBits(v, |s|)
  {
    forall j | 0 <= j < |s|
      ensures s[j] == ToBits(v, |s|)[j]
    {
      ToBitsAt(v, |s|, j);
    }
  }

  lemma SetBitFits(b: byte, i: int)
    requires 0 <= i < 8 && !Bit(b, i)
    ensures b + Pow2(i) < 256
    ensures b + Pow2(i) == Value(ByteBits(b)[7 - i := true])
  {
    ByteBitsAreToBits(b);
    ValueOfSet(ByteBits(b), 7 - i);
    ValueBound(ByteBits(b)[7 - i := true]);
    Pow2At8();
  }

  /** Setting a bit changes that bit only. */
  lemma SetBitBits(b: byte, i: int)
    requires 0 <= i < 8 && !Bit(b, i)
    ensures ByteBits(SetBit(b, i)) == ByteBits(b)[7 - i := true]
  {
    hide Bit, ByteBits, Value, ToBits;
    SetBitFits(b, i);
    var after := ByteBits(b)[7 - i := true];
    ToBitsOfValue(after);
    ByteBitsAreToBits(SetBit(b, i));
  }

  lemma SetBitEffect(b: byte, i: int, k: int)
    requires 0 <= i < 8 && 0 <= k < 8
    ensures Bit(SetBit(b, i), k) <==> (k == i || Bit(b, k))
  {
    if !Bit(b, i) {
      SetBitBits(b, i);
      assert ByteBits(SetBit(b, i))[7 - k] == Bit(SetBit(b, i), k);
      assert ByteBits(b)[7 - k] == Bit(b, k);
    }
  }

  class BitWriter {
    var buf: seq<byte>
    var bitPos: nat

    /** The buffer is just long enough, and its unused bits are clear. */
    ghost predicate Valid()
      reads this
    {
      && 8 * |buf| - 8 < bitPos <= 8 * |buf|
      && forall k :: bitPos <= k < 8 * |buf| ==> !BitAt(buf, k)
    }

    /** The bits written so far. */
    ghost function Written(): seq<bool>
      requires Valid()
      reads this
    {
      BitsOf(buf)[..bitPos]
    }

    constructor ()
      ensures Valid() && Written() == []
    {
      buf := [];
      bitPos := 0;
    }

    method Put(value: int, nbits: nat)
      requires Valid()
      modifies this
      ensures Valid()
      ensures Written() == old(Written()) + ToBits(value, nbits)
    {
      ghost var was := Written();
      var left := nbits;
      while left > 0
        invariant 0 <= left <= nbits
        invariant Valid()
        invariant Written() + ToBits(value, left) == was + ToBits(value, nbits)
      {
        ghost var before := Written();
        var bit := value / Pow2(left - 1) % 2;
        ToBitsHead(value, left);
        assert before + ([bit == 1] + ToBits(value, left - 1)) == before + [bit == 1] + ToBits(value, left - 1);
        PutBit(bit == 1);
        left := left - 1;
      }
      assert Written() + [] == Written();
    }

    method PutBit(bit: bool)
      requires Valid()
      modifies this
      ensures Valid()
      ensures Written() == old(Written()) + [bit]
    {
      hide Bit, SetBit, Pow2;
      ghost var was := buf;
      if bitPos / 8 >= |buf| {
        buf := buf + [0];
        ZeroByte();
      }
      ghost var grown := buf;
      assert forall k :: 0 <= k < bitPos ==> BitAt(grown, k) == BitAt(was, k);
      assert forall k :: bitPos <= k < 8 * |grown| ==> !BitAt(grown, k);
      var byteOff := bitPos / 8;
      var localBit := 7 - bitPos % 8;
      if bit {
        buf := buf[byteOff := SetBit(buf[byteOff], localBit)];
        SetAt(grown, bitPos);
      }
      bitPos := bitPos + 1;
      assert Written() == old(Written()) + [bit];
    }
  }

  lemma ZeroByte()
    ensures forall i :: 0 <= i < 8 ==> !Bit(0, i)
  {}

  lemma SetAt(s: seq<byte>, p: nat)
    requires p < 8 * |s|
    ensures var t := s[p / 8 := SetBit(s[p / 8], 7 - p % 8)];
            forall k :: 0 <= k < 8 * |s| ==> (BitAt(t, k) <==> (k == p || BitAt(s, k)))
  {
    var t := s[p / 8 := SetBit(s[p / 8], 7 - p % 8)];
    forall k | 0 <= k < 8 * |s|
      ensures BitAt(t, k) <==> (k == p || BitAt(s, k))
    {
      if k / 8 == p / 8 {
        SetBitEffect(s[p / 8], 7 - p % 8, 7 - k % 8);
      }
    }
  }

  // ---------------------------------------------------------------------
  // The AAC-ELD configuration
  // ---------------------------------------------------------------------

  /** The sampling frequency index of table 1.16 of ISO/IEC 14496-3; 15 for a rate not listed. */
  function FreqIndex(rate: int): (i: int)
    ensures 0 <= i <= 15
  {
    if rate == 96000 then 0 else if rate == 88200 then 1 else if rate == 64000 then 2
    else if rate == 48000 then 3 else if rate == 44100 then 4 else if rate == 32000 then 5
    else if rate == 24000 then 6 else if rate == 22050 then 7 else if rate == 16000 then 8
    else if rate == 12000 then 9 else if rate == 11025 then 10 else if rate == 8000 then 11
    else if rate == 7350 then 12 else 15
  }

  /** AudioSpecificConfig for object type 39 (escape 31, extension 7), then ELDSpecificConfig. */
  function AscFields(rate: int, channels: int, spf: int): seq<Field> {
    [Field(31, 5), Field(7, 6), Field(FreqIndex(rate), 4), Field(channels, 4),
     Field(if spf == 480 then 1 else 0, 1),
     Field(0, 1), Field(0, 1), Field(0, 1), Field(0, 1), Field(0, 4)]
  }

  method BuildAscAacEld(rate: int, channels: int, spf: int) returns (buf: seq<byte>)
    ensures |buf| == 4
    ensures FieldBits(AscFields(rate, channels, spf)) == BitsOf(buf)[..28]
    ensures forall k :: 28 <= k < 32 ==> !BitAt(buf, k)
  {
    var fields := AscFields(rate, channels, spf);
    var bw := new BitWriter();
    var i := 0;
    assert fields[0..] == fields;
    while i < |fields|
      invariant 0 <= i <= |fields|
      invariant bw.Valid() && fresh(bw)
      invariant bw.Written() + FieldBits(fields[i..]) == FieldBits(fields)
    {
      FieldBitsStep(fields, i, bw.Written());
      bw.Put(fields[i].value, fields[i].width);
      i := i + 1;
    }
    assert fields[i..] == [];
    assert bw.Written() + [] == bw.Written();
    AscLength(rate, channels, spf);
    buf := bw.buf;
  }

  lemma FieldBitsStep(fields: seq<Field>, i: nat, done: seq<bool>)
    requires i < |fields|
    ensures done + FieldBits(fields[i..])
            == done + ToBits(fields[i].value, fields[i].width) + FieldBits(fields[i + 1..])
  {
    assert fields[i..][1..] == fields[i + 1..];
    var code, rest := ToBits(fields[i].value, fields[i].width), FieldBits(fields[i + 1..]);
    assert done + (code + rest) == done + code + rest;
  }

  lemma {:induction false} FieldBitsLength(fields: seq<Field>)
    ensures |FieldBits(fields)| == Widths(fields)
  {
    if fields != [] {
      FieldBitsLength(fields[1..]);
    }
  }

  function Widths(fields: seq<Field>): nat {
    if fields == [] then 0 else fields[0].width + Widths(fields[1..])
  }

  // ---------------------------------------------------------------------
  // The configuration in bytes
  // ---------------------------------------------------------------------

  /** Table 1.16 of ISO/IEC 14496-3: the sampling frequency of each index. */
  const FREQUENCIES: seq<int> :=
    [96000, 88200, 64000, 48000, 44100, 32000, 24000, 22050, 16000, 12000, 11025, 8000, 7350]

  lemma FrequencyIndex(rate: int)
    ensures FreqIndex(rate) < 13 ==> FREQUENCIES[FreqIndex(rate)] == rate
    ensures FreqIndex(rate) >= 13 ==> FreqIndex(rate) == 15 && rate !in FREQUENCIES
  {}

  lemma FourBits(v: int)
    ensures ToBits(v, 4) == Four(v)
  {
    assert ToBits(v / 8, 1) == [] + [v / 8 % 2 == 1];
    assert ToBits(v / 4, 2) == ToBits(v / 8, 1) + [v / 4 % 2 == 1];
    assert ToBits(v / 2, 3) == ToBits(v / 4, 2) + [v / 2 % 2 == 1];
  }

  function Four(v: int): seq<bool> {
    [v / 8 % 2 == 1, v / 4 % 2 == 1, v / 2 % 2 == 1, v % 2 == 1]
  }

  /** Escaped object type 39, the frequency, the channels, the short-frame flag, nothing else. */
  function AscBits(freq: int, channels: int, short: bool): seq<bool> {
    [true, true, true, true, true] + ([false, false, false, true, true, true] + (Four(freq) + (Four(channels)
    + ([short] + ([false] + ([false] + ([false] + ([false] + [false, false, false, false]))))))))
  }

  lemma OneField(f: Field, more: seq<Field>)
    ensures FieldBits([f] + more) == ToBits(f.value, f.width) + FieldBits(more)
  {
    assert ([f] + more)[1..] == more;
  }

  lemma SmallFields()
    ensures ToBits(31, 5) == [true, true, true, true, true]
    ensures ToBits(7, 6) == [false, false, false, true, true, true]
    ensures ToBits(0, 1) == [false] && ToBits(1, 1) == [true]
  {
    assert ToBits(1, 1) == [] + [true] && ToBits(0, 1) == [] + [false];
    assert ToBits(3, 2) == ToBits(1, 1) + [true];
    assert ToBits(7, 3) == ToBits(3, 2) + [true];
    assert ToBits(15, 4) == ToBits(7, 3) + [true];
    assert ToBits(31, 5) == ToBits(15, 4) + [true];
    assert ToBits(0, 2) == ToBits(0, 1) + [false];
    assert ToBits(0, 3) == ToBits(0, 2) + [false];
    assert ToBits(1, 4) == ToBits(0, 3) + [true];
    assert ToBits(3, 5) == ToBits(1, 4) + [true];
    assert ToBits(7, 6) == ToBits(3, 5) + [true];
  }

  lemma NoField()
    ensures FieldBits([]) == []
  {}

  lemma LastFields()
    ensures FieldBits([Field(0, 1), Field(0, 1), Field(0, 1), Field(0, 1), Field(0, 4)])
            == [false] + ([false] + ([false] + ([false] + [false, false, false, false])))
  {
    hide ToBits, FieldBits;
    SmallFields();
    FourBits(0);
    NoField();
    var z, e := Field(0, 1), Field(0, 4);
    OneField(e, []);
    assert [e] + [] == [e];
    OneField(z, [e]);
    assert [z] + [e] == [z, e];
    OneField(z, [z, e]);
    assert [z] + [z, e] == [z, z, e];
    OneField(z, [z, z, e]);
    assert [z] + [z, z, e] == [z, z, z, e];
    OneField(z, [z, z, z, e]);
    assert [z] + [z, z, z, e] == [z, z, z, z, e];
    assert Four(0) == [false, false, false, false];
    assert Four(0) + [] == Four(0);
  }

  lemma AscFieldBits(rate: int, channels: int, spf: int)
    ensures FieldBits(AscFields(rate, channels, spf)) == AscBits(FreqIndex(rate), channels, spf == 480)
  {
    hide ToBits, FreqIndex, FieldBits, Four;
    SmallFields();
    LastFields();
    FourBits(FreqIndex(rate));
    FourBits(channels);
    var last := [Field(0, 1), Field(0, 1), Field(0, 1), Field(0, 1), Field(0, 4)];
    var flag := Field(if spf == 480 then 1 else 0, 1);
    OneField(flag, last);
    OneField(Field(channels, 4), [flag] + last);
    OneField(Field(FreqIndex(rate), 4), [Field(channels, 4)] + ([flag] + last));
    var freq := [Field(FreqIndex(rate), 4)] + ([Field(channels, 4)] + ([flag] + last));
    OneField(Field(7, 6), freq);
    OneField(Field(31, 5), [Field(7, 6)] + freq);
    assert AscFields(rate, channels, spf) == [Field(31, 5)] + ([Field(7, 6)] + freq);
  }

  lemma Halve(b: int, p: int, p2: int) returns (q: int, r: int)
    requires p in {1, 2, 4, 8, 16, 32, 64} && p2 == 2 * p
    ensures q == b / p2 && r == b / p % 2 && b / p == 2 * q + r
  {
    q, r := b / p2, b / p % 2;
  }

  lemma Halves(b: int)
    requires 0 <= b < 256
    ensures b == 128 * (b / 128 % 2) + 64 * (b / 64 % 2) + 32 * (b / 32 % 2) + 16 * (b / 16 % 2)
                 + 8 * (b / 8 % 2) + 4 * (b / 4 % 2) + 2 * (b / 2 % 2) + b / 1 % 2
  {
    var q1, r0 := Halve(b, 1, 2);
    var q2, r1 := Halve(b, 2, 4);
    var q3, r2 := Halve(b, 4, 8);
    var q4, r3 := Halve(b, 8, 16);
    var q5, r4 := Halve(b, 16, 32);
    var q6, r5 := Halve(b, 32, 64);
    var q7, r6 := Halve(b, 64, 128);
    assert 0 <= q7 < 2 && q7 % 2 == q7;
    assert b == 2 * q1 + r0;
    assert b == 128 * q7 + 64 * r6 + 32 * r5 + 16 * r4 + 8 * r3 + 4 * r2 + 2 * r1 + r0;
  }

  lemma BitOf(b: byte, k: int, p: int)
    requires 0 <= k < 8 && p == Pow2(k)
    ensures Flag(Bit(b, k)) == b / p % 2
  {}

  lemma ByteFromBits(b: byte)
    ensures b == 128 * Flag(Bit(b, 7)) + 64 * Flag(Bit(b, 6)) + 32 * Flag(Bit(b, 5)) + 16 * Flag(Bit(b, 4))
                 + 8 * Flag(Bit(b, 3)) + 4 * Flag(Bit(b, 2)) + 2 * Flag(Bit(b, 1)) + Flag(Bit(b, 0))
  {
    hide Bit, Flag;
    assert Pow2(0) == 1 && Pow2(1) == 2 && Pow2(2) == 4 && Pow2(3) == 8;
    assert Pow2(4) == 16 && Pow2(5) == 32 && Pow2(6) == 64 && Pow2(7) == 128;
    Halves(b);
    BitOf(b, 0, 1);
    BitOf(b, 1, 2);
    BitOf(b, 2, 4);
    BitOf(b, 3, 8);
    BitOf(b, 4, 16);
    BitOf(b, 5, 32);
    BitOf(b, 6, 64);
    BitOf(b, 7, 128);
  }

  function ByteOfEight(t: seq<bool>): int
    requires |t| == 8
  {
    128 * Flag(t[0]) + 64 * Flag(t[1]) + 32 * Flag(t[2]) + 16 * Flag(t[3])
    + 8 * Flag(t[4]) + 4 * Flag(t[5]) + 2 * Flag(t[6]) + Flag(t[7])
  }

  lemma BitInByte(buf: seq<byte>, k: nat, i: nat)
    requires k < |buf| && i < 8
    ensures BitsOf(buf)[8 * k + i] == Bit(buf[k], 7 - i)
  {
    hide Bit;
    assert (8 * k + i) / 8 == k && (8 * k + i) % 8 == i;
  }

  lemma FlagSame(x: bool, y: bool)
    requires x == y
    ensures Flag(x) == Flag(y)
  {}

  lemma ByteFromEight(t: seq<bool>, b: byte)
    requires |t| == 8
    requires t[0] == Bit(b, 7) && t[1] == Bit(b, 6) && t[2] == Bit(b, 5) && t[3] == Bit(b, 4)
    requires t[4] == Bit(b, 3) && t[5] == Bit(b, 2) && t[6] == Bit(b, 1) && t[7] == Bit(b, 0)
    ensures ByteOfEight(t) == b
  {
    hide Bit, Flag, Pow2;
    ByteFromBits(b);
    FlagSame(t[0], Bit(b, 7));
    FlagSame(t[1], Bit(b, 6));
    FlagSame(t[2], Bit(b, 5));
    FlagSame(t[3], Bit(b, 4));
    FlagSame(t[4], Bit(b, 3));
    FlagSame(t[5], Bit(b, 2));
    FlagSame(t[6], Bit(b, 1));
    FlagSame(t[7], Bit(b, 0));
  }

  lemma BitInEight(buf: seq<byte>, k: nat, t: seq<bool>, i: nat)
    requires k < |buf| && i < 8 && |t| == 8 && t == BitsOf(buf)[8 * k..8 * k + 8]
    ensures t[i] == Bit(buf[k], 7 - i)
  {
    hide Bit;
    BitInByte(buf, k, i);
  }

  /** Eight bits of a buffer are the byte in their place. */
  lemma ByteOfBits(buf: seq<byte>, k: nat, t: seq<bool>)
    requires k < |buf| && |t| == 8 && t == BitsOf(buf)[8 * k..8 * k + 8]
    ensures buf[k] == ByteOfEight(t)
  {
    hide Bit, BitsOf, ByteOfEight;
    BitInEight(buf, k, t, 0);
    BitInEight(buf, k, t, 1);
    BitInEight(buf, k, t, 2);
    BitInEight(buf, k, t, 3);
    BitInEight(buf, k, t, 4);
    BitInEight(buf, k, t, 5);
    BitInEight(buf, k, t, 6);
    BitInEight(buf, k, t, 7);
    ByteFromEight(t, buf[k]);
  }

  lemma FirstByte(x: seq<bool>)
    ensures [true, true, true, true, true] + ([false, false, false, true, true, true] + x)
            == [true, true, true, true, true, false, false, false] + ([true, true, true] + x)
  {}

  lemma LastBytes(a: bool, b: bool, c: bool, d: bool, s: bool)
    ensures [a, b, c, d] + ([s] + ([false] + ([false] + ([false] + ([false] + [false, false, false, false])))))
            == [a] + ([b, c, d, s, false, false, false, false] + [false, false, false, false])
  {}

  lemma MiddleByte(f: seq<bool>, a: bool, x: seq<bool>)
    requires |f| == 4
    ensures [true, true, true] + (f + ([a] + x)) == [true, true, true, f[0], f[1], f[2], f[3], a] + x
  {}

  function SecondByte(freq: int, channels: int): seq<bool> {
    [true, true, true, freq / 8 % 2 == 1, freq / 4 % 2 == 1, freq / 2 % 2 == 1, freq % 2 == 1, channels / 8 % 2 == 1]
  }

  function ThirdByte(channels: int, short: bool): seq<bool> {
    [channels / 4 % 2 == 1, channels / 2 % 2 == 1, channels % 2 == 1, short, false, false, false, false]
  }

  lemma AscInBytes(freq: int, channels: int, short: bool)
    ensures AscBits(freq, channels, short)
            == [true, true, true, true, true, false, false, false]
               + (SecondByte(freq, channels) + (ThirdByte(channels, short) + [false, false, false, false]))
  {
    var last := ThirdByte(channels, short) + [false, false, false, false];
    var high := channels / 8 % 2 == 1;
    LastBytes(high, channels / 4 % 2 == 1, channels / 2 % 2 == 1, channels % 2 == 1, short);
    MiddleByte(Four(freq), high, last);
    FirstByte(Four(freq) + ([high] + last));
  }

  lemma Slices(bits: seq<bool>, a: seq<bool>, b: seq<bool>, c: seq<bool>, d: seq<bool>)
    requires |a| == |b| == |c| == 8 && |d| == 4 && |bits| == 32 && bits[..28] == a + (b + (c + d))
    requires forall k :: 28 <= k < 32 ==> !bits[k]
    ensures bits[8 * 0..8 * 0 + 8] == a && bits[8 * 1..8 * 1 + 8] == b && bits[8 * 2..8 * 2 + 8] == c
    ensures bits[8 * 3..8 * 3 + 8] == d + [false, false, false, false]
  {
    var t := bits[..28];
    assert t[..8] == a && t[8..16] == b && t[16..24] == c && t[24..28] == d;
    assert bits[0..8] == t[..8] && bits[8..16] == t[8..16] && bits[16..24] == t[16..24] && bits[24..28] == t[24..28];
  }

  lemma SecondValue(freq: int, channels: int)
    requires 0 <= freq < 16
    ensures ByteOfEight(SecondByte(freq, channels)) == 0xe0 + 2 * freq + channels / 8 % 2
  {
    Nibble(freq);
    Parity(channels / 8);
  }

  lemma Parity(v: int)
    ensures Flag(v % 2 == 1) == v % 2
  {}

  lemma ThirdValue(channels: int, short: bool)
    ensures ByteOfEight(ThirdByte(channels, short)) == 32 * (channels % 8) + if short then 16 else 0
  {
    LowBits(channels);
  }

  lemma Nibble(v: int)
    requires 0 <= v < 16
    ensures v == 8 * Flag(v / 8 % 2 == 1) + 4 * Flag(v / 4 % 2 == 1) + 2 * Flag(v / 2 % 2 == 1) + Flag(v % 2 == 1)
  {}

  lemma LowBits(c: int)
    ensures c % 8 == 4 * Flag(c / 4 % 2 == 1) + 2 * Flag(c / 2 % 2 == 1) + Flag(c % 2 == 1)
  {
    var q, r := c / 8, c % 8;
    assert c == 8 * q + r;
    assert c / 4 == 2 * q + r / 4;
    assert c / 2 == 4 * q + r / 2;
    assert c / 4 % 2 == r / 4 && c / 2 % 2 == r / 2 % 2 && c % 2 == r % 2;
  }

  /**
    Main result on the configuration: its four bytes. At 44100 Hz, two channels and 480 samples
    they are F8 E8 50 00.
   */
  lemma AscBytes(buf: seq<byte>, rate: int, channels: int, spf: int)
    requires |buf| == 4 && FieldBits(AscFields(rate, channels, spf)) == BitsOf(buf)[..28]
    requires forall k :: 28 <= k < 32 ==> !BitAt(buf, k)
    ensures buf[0] == 0xf8 && buf[3] == 0
    ensures buf[1] == 0xe0 + 2 * FreqIndex(rate) + channels / 8 % 2
    ensures buf[2] == 32 * (channels % 8) + if spf == 480 then 16 else 0
  {
    hide AscBits, FieldBits, AscFields, FreqIndex, Bit, SecondByte, ThirdByte, ByteOfEight;
    var freq, short := FreqIndex(rate), spf == 480;
    var a, d := [true, true, true, true, true, false, false, false], [false, false, false, false];
    AscFieldBits(rate, channels, spf);
    AscInBytes(freq, channels, short);
    EightBits(freq, channels, short);
    Slices(BitsOf(buf), a, SecondByte(freq, channels), ThirdByte(channels, short), d);
    ByteOfBits(buf, 0, a);
    ByteOfBits(buf, 1, SecondByte(freq, channels));
    ByteOfBits(buf, 2, ThirdByte(channels, short));
    ByteOfBits(buf, 3, d + d);
    OuterBytes();
    SecondValue(freq, channels);
    ThirdValue(channels, short);
  }

  lemma EightBits(freq: int, channels: int, short: bool)
    ensures |SecondByte(freq, channels)| == |ThirdByte(channels, short)| == 8
  {}

  lemma OuterBytes()
    ensures ByteOfEight([true, true, true, true, true, false, false, false]) == 0xf8
    ensures ByteOfEight([false, false, false, false] + [false, false, false, false]) == 0
  {}

  lemma AscLength(rate: int, channels: int, spf: int)
    ensures |FieldBits(AscFields(rate, channels, spf))| == 28
  {
    var f := AscFields(rate, channels, spf);
    FieldBitsLength(f);
    assert Widths(f) == 11 + Widths(f[2..]) by { assert f[1..][1..] == f[2..]; }
    assert Widths(f[2..]) == 8 + Widths(f[4..]) by { assert f[2..][1..][1..] == f[4..]; }
    assert Widths(f[4..]) == 2 + Widths(f[6..]) by { assert f[4..][1..][1..] == f[6..]; }
    assert Widths(f[6..]) == 2 + Widths(f[8..]) by { assert f[6..][1..][1..] == f[8..]; }
    assert Widths(f[8..]) == 5 + Widths(f[10..]) by { assert f[8..][1..][1..] == f[10..]; }
  }
}
