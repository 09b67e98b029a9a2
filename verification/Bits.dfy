/** Bit strings of byte buffers, most significant bit first. */
module Bits {
  import opened Words
  import opened Arithmetic

  function Pow2(n: nat): (p: nat)
    ensures p > 0
  {
    if n == 0 then 1 else 2 * Pow2(n - 1)
  }

  predicate Bit(b: byte, i: int)
    requires 0 <= i < 8
  {
    b / Pow2(i) % 2 == 1
  }

  predicate BitAt(s: seq<byte>, k: int)
    requires 0 <= k < 8 * |s|
  {
    Bit(s[k / 8], 7 - k % 8)
  }

  function BitsOf(s: seq<byte>): (r: seq<bool>)
    ensures |r| == 8 * |s|
  {
    seq(8 * |s|, k requires 0 <= k < 8 * |s| => BitAt(s, k))
  }

  lemma BitsConcat(s: seq<byte>, t: seq<byte>)
    ensures BitsOf(s + t) == BitsOf(s) + BitsOf(t)
  {
    forall k | 0 <= k < 8 * |s + t|
      ensures BitsOf(s + t)[k] == (BitsOf(s) + BitsOf(t))[k]
    {
      if k >= 8 * |s| {
        assert (k - 8 * |s|) / 8 == k / 8 - |s| && (k - 8 * |s|) % 8 == k % 8;
      }
    }
  }

  function Flag(b: bool): int {
    if b then 1 else 0
  }

  // ---------------------------------------------------------------------
  // Numbers
  // ---------------------------------------------------------------------

  function Value(b: seq<bool>): nat {
    if b == [] then 0 else 2 * Value(b[..|b| - 1]) + Flag(b[|b| - 1])
  }

  /** The low `n` bits of an integer; a negative one is read in two's complement. */
  function ToBits(v: int, n: nat): (b: seq<bool>)
    ensures |b| == n
    decreases n
  {
    if n == 0 then [] else ToBits(v / 2, n - 1) + [v % 2 == 1]
  }

  lemma {:induction false} ValueOfToBits(v: int, n: nat)
    ensures Value(ToBits(v, n)) == v % Pow2(n)
    decreases n
  {
    if n > 0 {
      ValueOfToBits(v / 2, n - 1);
      assert ToBits(v, n)[..n - 1] == ToBits(v / 2, n - 1);
      HalfMod(v, Pow2(n - 1));
    }
  }

  lemma HalfMod(v: int, m: int)
    requires m > 0
    ensures v % (2 * m) == 2 * (v / 2 % m) + v % 2
  {
    var q, r := v / 2 / m, v / 2 % m;
    assert v / 2 == q * m + r;
    assert v == 2 * (q * m + r) + v % 2;
    assert v == q * (2 * m) + (2 * r + v % 2);
    ModUnique(v, 2 * m, q, 2 * r + v % 2);
  }

  /** The leading bit of a field, as the writer extracts it by a shift. */
  lemma {:induction false} ToBitsHead(v: int, n: nat)
    requires n > 0
    ensures ToBits(v, n) == [v / Pow2(n - 1) % 2 == 1] + ToBits(v, n - 1)
    decreases n
  {
    if n > 1 {
      ToBitsHead(v / 2, n - 1);
      HalfDiv(v, Pow2(n - 2));
      assert [v / Pow2(n - 1) % 2 == 1] + ToBits(v / 2, n - 2) + [v % 2 == 1]
          == [v / Pow2(n - 1) % 2 == 1] + (ToBits(v / 2, n - 2) + [v % 2 == 1]);
    } else {
      assert ToBits(v, 1) == ToBits(v / 2, 0) + [v % 2 == 1] == [v % 2 == 1];
    }
  }

  /** Each bit of a field, by shift and mask. */
  lemma {:induction false} ToBitsAt(v: int, n: nat, i: nat)
    requires i < n
    ensures ToBits(v, n)[i] == (v / Pow2(n - 1 - i) % 2 == 1)
    decreases n
  {
    if i < n - 1 {
      ToBitsAt(v / 2, n - 1, i);
      HalfDiv(v, Pow2(n - 2 - i));
    }
  }

  lemma {:induction false} ToBitsOfValue(b: seq<bool>)
    ensures ToBits(Value(b), |b|) == b
  {
    if b != [] {
      var n := |b| - 1;
      ToBitsOfValue(b[..n]);
      assert Value(b) / 2 == Value(b[..n]) && Value(b) % 2 == Flag(b[n]);
      assert b == b[..n] + [b[n]];
    }
  }

  /** Setting a clear bit adds its weight. */
  lemma {:induction false} ValueOfSet(b: seq<bool>, j: nat)
    requires j < |b| && !b[j]
    ensures Value(b[j := true]) == Value(b) + Pow2(|b| - 1 - j)
  {
    var n := |b| - 1;
    if j < n {
      ValueOfSet(b[..n], j);
      assert b[j := true][..n] == b[..n][j := true];
    } else {
      assert b[j := true][..n] == b[..n];
    }
  }

  lemma HalfDiv(v: int, m: int)
    requires m > 0
    ensures v / 2 / m == v / (2 * m)
  {
    var q, r := v / 2 / m, v / 2 % m;
    assert v / 2 == q * m + r;
    assert v == q * (2 * m) + (2 * r + v % 2);
    ModUnique(v, 2 * m, q, 2 * r + v % 2);
  }

  lemma DoubleProduct(x: int, y: int)
    ensures x * (2 * y) == 2 * (x * y)
  {}

  lemma {:induction false} ValueConcat(b: seq<bool>, c: seq<bool>)
    ensures Value(b + c) == Value(b) * Pow2(|c|) + Value(c)
  {
    if c == [] {
      assert b + c == b;
    } else {
      var n := |c| - 1;
      assert (b + c)[..|b + c| - 1] == b + c[..n];
      ValueConcat(b, c[..n]);
      DoubleProduct(Value(b), Pow2(n));
    }
  }

  lemma {:induction false} ValueBound(b: seq<bool>)
    ensures Value(b) < Pow2(|b|)
  {
    if b != [] {
      ValueBound(b[..|b| - 1]);
    }
  }

  lemma {:induction false} Pow2Monotone(m: nat, n: nat)
    requires m <= n
    ensures Pow2(m) <= Pow2(n)
  {
    if m < n {
      Pow2Monotone(m, n - 1);
    }
  }

  lemma Pow2At8()
    ensures Pow2(8) == 256
  {}

  lemma Pow2At32()
    ensures Pow2(31) == HALF32 && Pow2(32) == TWO32
  {
    assert Pow2(8) == 256;
    assert Pow2(16) == 0x1_0000;
    assert Pow2(24) == 0x100_0000;
  }

  // ---------------------------------------------------------------------
  // Packing
  // ---------------------------------------------------------------------

  function ByteOf(b: seq<bool>): (r: byte)
    requires |b| == 8
  {
    ValueBound(b);
    Pow2At8();
    Value(b)
  }

  function Pack(b: seq<bool>): (s: seq<byte>)
    requires |b| % 8 == 0
    ensures 8 * |s| == |b|
  {
    if b == [] then [] else [ByteOf(b[..8])] + Pack(b[8..])
  }

  lemma BitOfByteOf(b: seq<bool>, i: nat)
    requires |b| == 8 && i < 8
    ensures Bit(ByteOf(b), 7 - i) == b[i]
  {
    ToBitsOfValue(b);
    ToBitsAt(Value(b), 8, i);
  }

  lemma {:induction false} BitsOfPack(b: seq<bool>)
    requires |b| % 8 == 0
    ensures BitsOf(Pack(b)) == b
  {
    hide ByteOf;
    if b != [] {
      BitsOfPack(b[8..]);
      BitsConcat([ByteOf(b[..8])], Pack(b[8..]));
      forall k | 0 <= k < 8
        ensures BitsOf([ByteOf(b[..8])])[k] == b[k]
      {
        BitOfByteOf(b[..8], k);
      }
      assert b == b[..8] + b[8..];
    }
  }

}
