/** Fixed-width words, their big-endian byte forms, and C++ integer division. */
module Words {
  const TWO32: int := 0x1_0000_0000
  const TWO64: int := 0x1_0000_0000_0000_0000
  const HALF32: int := 0x8000_0000
  /** Nanoseconds in a second. */
  const NS: int := 1_000_000_000

  type byte = b: int | 0 <= b < 256
  type int16 = x: int | -0x8000 <= x < 0x8000
  type u32 = w: int | 0 <= w < 0x1_0000_0000
  type u64 = w: int | 0 <= w < 0x1_0000_0000_0000_0000

  /** What a conversion to `uint32_t` keeps of an integer. */
  function Wrap32(x: int): u32 {
    x % TWO32
  }

  lemma WrapNone(x: int)
    requires 0 <= x < TWO32
    ensures Wrap32(x) == x
  {}

  lemma WrapAdd(x: int, i: int)
    ensures Wrap32(Wrap32(x) + i) == Wrap32(x + i)
  {}

  lemma WrapSub(x: int, y: int)
    ensures Wrap32(Wrap32(x) - Wrap32(y)) == Wrap32(x - y)
  {}

  /** Stepping a wrapped difference back by a small amount. */
  lemma WrapBack(x: int, i: nat)
    requires i <= TWO32
    ensures Wrap32(x - i) == if i <= Wrap32(x) then Wrap32(x) - i else Wrap32(x) - i + TWO32
  {}

  /** C++ `/` on signed operands: the quotient is truncated toward zero. */
  function TruncDiv(a: int, b: int): int
    requires b > 0
  {
    if a >= 0 then a / b else -((-a) / b)
  }

  /** C++ `%` on signed operands: the remainder takes the sign of the dividend. */
  function TruncMod(a: int, b: int): int
    requires b > 0
  {
    a - b * TruncDiv(a, b)
  }

  function Max(a: int, b: int): int {
    if a >= b then a else b
  }

  function Min(a: int, b: int): int {
    if a <= b then a else b
  }

  /** The four bytes of a 32-bit word, most significant first. */
  function Be32(w: u32): (s: seq<byte>)
    ensures |s| == 4
  {
    [w / 0x100_0000, w / 0x1_0000 % 256, w / 0x100 % 256, w % 256]
  }

  /** The 32-bit word stored big-endian at `p`. */
  function Word32(s: seq<byte>, p: nat): (w: u32)
    requires p + 4 <= |s|
  {
    s[p] as int * 0x100_0000 + s[p + 1] as int * 0x1_0000 + s[p + 2] as int * 0x100 + s[p + 3] as int
  }

  lemma Word32OfBe32(w: u32)
    ensures Word32(Be32(w), 0) == w
  {
    assert w / 0x1_0000 == w / 0x100 / 0x100;
    assert w / 0x100_0000 == w / 0x1_0000 / 0x100;
  }

  lemma Be32OfWord32(s: seq<byte>, p: nat)
    requires p + 4 <= |s|
    ensures Be32(Word32(s, p)) == s[p..p + 4]
  {
    var w := Word32(s, p);
    assert w / 0x100 == s[p] as int * 0x1_0000 + s[p + 1] as int * 0x100 + s[p + 2] as int;
    assert w / 0x1_0000 == s[p] as int * 0x100 + s[p + 1] as int;
  }

  /** The two bytes of a 16-bit word, most significant first. */
  function Be16(w: int): (s: seq<byte>)
    requires 0 <= w < 0x1_0000
    ensures |s| == 2
  {
    [w / 256, w % 256]
  }

  function Word16(s: seq<byte>, p: nat): (w: int)
    requires p + 2 <= |s|
    ensures 0 <= w < 0x1_0000
  {
    s[p] as int * 256 + s[p + 1] as int
  }
}
