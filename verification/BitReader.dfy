/**
  The bit reader of the SPS parser: single bits, fixed-width fields, and the
  Exp-Golomb codes of sections 9.1 and 9.1.1 of ITU-T H.264.
 */
module BitReaders {
  import opened Words
  import opened Bits
  import opened BitWriters
  import opened Arithmetic

  /** A reader over a bit string; `error` is set by the first read past the end. */
  datatype Reader = Reader(bits: seq<bool>, pos: nat, error: bool)

  function ReadBit(r: Reader): (bool, Reader) {
    if r.pos >= |r.bits| then (false, r.(error := true)) else (r.bits[r.pos], r.(pos := r.pos + 1))
  }

  /** `u(n)` with `v` already read. */
  function ReadBitsFrom(r: Reader, n: nat, v: u32): (u32, Reader)
    decreases n
  {
    if n == 0 then (v, r)
    else
      var (b, next) := ReadBit(r);
      if next.error then (0, next) else ReadBitsFrom(next, n - 1, Wrap32(2 * v + Flag(b)))
  }

  function ReadBits(r: Reader, n: nat): (u32, Reader) {
    ReadBitsFrom(r, n, 0)
  }

  /** The zeros before the first one bit, at most 32. */
  function CountZeros(r: Reader, zeros: nat): (nat, Reader)
    requires zeros <= 32
    decreases |r.bits| - r.pos
  {
    var (b, next) := ReadBit(r);
    if b || next.error || zeros >= 32 then (zeros, next) else CountZeros(next, zeros + 1)
  }

  /** `ue(v)`. A shift by 32, undefined in C++, is read as a shift that leaves nothing in 32 bits. */
  function ReadUe(r: Reader): (u32, Reader) {
    var (zeros, r1) := CountZeros(r, 0);
    if r1.error || zeros == 0 then (0, r1) else ReadSuffix(r1, zeros)
  }

  /** The part of a code after its first one bit. */
  function ReadSuffix(r: Reader, zeros: nat): (u32, Reader) {
    var (v, next) := ReadBits(r, zeros);
    if next.error then (0, next) else (Wrap32(Pow2(zeros) - 1 + v), next)
  }

  /** The mapping of section 9.1.1, in 32-bit arithmetic. */
  function Signed(k: u32): int {
    if k % 2 == 1 then Wrap32(k + 1) / 2 else -(k / 2)
  }

  function ReadSe(r: Reader): (int, Reader) {
    var (k, next) := ReadUe(r);
    if next.error then (0, next) else (Signed(k), next)
  }

  class BitReader {
    const buf: seq<byte>
    var pos: nat
    var error: bool

    function State(): Reader
      reads this
    {
      Reader(BitsOf(buf), pos, error)
    }

    constructor (buf: seq<byte>)
      ensures State() == Reader(BitsOf(buf), 0, false) && this.buf == buf
    {
      this.buf := buf;
      pos := 0;
      error := false;
    }

    method U1() returns (bit: bool)
      modifies this
      ensures (bit, State()) == ReadBit(old(State()))
    {
      if pos >= |buf| * 8 {
        error := true;
        return false;
      }
      bit := buf[pos / 8] / Pow2(7 - pos % 8) % 2 == 1;
      pos := pos + 1;
    }

    method U(n: nat) returns (v: u32)
      modifies this
      ensures (v, State()) == ReadBits(old(State()), n)
    {
      v := 0;
      var i := 0;
      while i < n
        invariant 0 <= i <= n
        invariant ReadBitsFrom(State(), n - i, v) == ReadBits(old(State()), n)
      {
        var bit := U1();
        v := Wrap32(2 * v + Flag(bit));
        if error {
          return 0;
        }
        i := i + 1;
      }
    }

    method Ue() returns (v: u32)
      modifies this
      ensures (v, State()) == ReadUe(old(State()))
    {
      var zeros := 0;
      var bit := U1();
      while !bit && !error && zeros < 32
        invariant 0 <= zeros <= 32
        invariant CountZeros(old(State()), 0)
               == if bit || error || zeros >= 32 then (zeros, State()) else CountZeros(State(), zeros + 1)
        decreases 32 - zeros
      {
        zeros := zeros + 1;
        bit := U1();
      }
      if error || zeros == 0 {
        return 0;
      }
      v := Suffix(zeros);
    }

    method Suffix(zeros: nat) returns (v: u32)
      modifies this
      ensures (v, State()) == ReadSuffix(old(State()), zeros)
    {
      var low := U(zeros);
      if error {
        return 0;
      }
      v := Wrap32(Pow2(zeros) - 1 + low);
    }

    method Se() returns (v: int)
      modifies this
      ensures (v, State()) == ReadSe(old(State()))
    {
      var k := Ue();
      if error {
        return 0;
      }
      if k == 0 {
        return 0;
      }
      v := Signed(k);
    }
  }

  // ---------------------------------------------------------------------
  // Reading what was printed
  // ---------------------------------------------------------------------

  /** `code` is what comes next. */
  predicate At(r: Reader, code: seq<bool>)
    decreases |code|
  {
    if code == [] then !r.error
    else !r.error && r.pos < |r.bits| && r.bits[r.pos] == code[0] && At(Skip(r, 1), code[1..])
  }

  function Skip(r: Reader, n: nat): Reader {
    r.(pos := r.pos + n)
  }

  lemma {:induction false} AtSplit(r: Reader, c: seq<bool>, d: seq<bool>)
    requires At(r, c + d)
    ensures At(r, c) && At(Skip(r, |c|), d)
    decreases |c|
  {
    if c == [] {
      assert c + d == d;
    } else {
      assert (c + d)[1..] == c[1..] + d;
      AtSplit(Skip(r, 1), c[1..], d);
    }
  }

  /** A reader placed in front of `code`. */
  lemma {:induction false} AtStart(before: seq<bool>, code: seq<bool>, rest: seq<bool>)
    ensures At(Reader(before + code + rest, |before|, false), code)
    decreases |code|
  {
    if code != [] {
      AtStart(before + [code[0]], code[1..], rest);
      assert before + code + rest == before + [code[0]] + code[1..] + rest;
    }
  }

  lemma ReadBitAt(r: Reader, b: bool)
    requires At(r, [b])
    ensures ReadBit(r) == (b, Skip(r, 1))
  {}

  /** Reading `code` after the number `v` gives the number both spell together. */
  lemma {:induction false} ReadBitsFromAt(r: Reader, code: seq<bool>, v: u32, total: u32)
    requires At(r, code) && total == v * Pow2(|code|) + Value(code)
    ensures ReadBitsFrom(r, |code|, v) == (total, Skip(r, |code|))
    decreases |code|
  {
    if code != [] {
      var b, rest := code[0], code[1..];
      assert code == [b] + rest;
      AtSplit(r, [b], rest);
      TotalStep(v, b, rest, total);
      ReadBitsStep(r, |code|, v, b);
      ReadBitsFromAt(Skip(r, 1), rest, 2 * v + Flag(b), total);
    }
  }

  lemma TotalStep(v: u32, b: bool, rest: seq<bool>, total: u32)
    requires total == v * Pow2(1 + |rest|) + Value([b] + rest)
    ensures 2 * v + Flag(b) < TWO32
    ensures total == (2 * v + Flag(b)) * Pow2(|rest|) + Value(rest)
  {
    hide Value;
    ValueOfHead(b, rest);
    Horner(v, Flag(b), Pow2(|rest|), Value(rest));
    MultipleFits(2 * v + Flag(b), Pow2(|rest|), Value(rest));
  }

  lemma ReadBitsStep(r: Reader, n: nat, v: u32, b: bool)
    requires n > 0 && At(r, [b]) && 2 * v + Flag(b) < TWO32
    ensures ReadBitsFrom(r, n, v) == ReadBitsFrom(Skip(r, 1), n - 1, 2 * v + Flag(b))
  {
    ReadBitAt(r, b);
    WrapNone(2 * v + Flag(b));
  }

  lemma ValueOfHead(b: bool, rest: seq<bool>)
    ensures Value([b] + rest) == Flag(b) * Pow2(|rest|) + Value(rest)
  {
    ValueConcat([b], rest);
    assert [b][..0] == [];
    assert Value([b]) == Flag(b);
  }

  lemma Horner(v: int, b: int, p: int, x: int)
    ensures v * (2 * p) + (b * p + x) == (2 * v + b) * p + x
  {}

  lemma MultipleFits(w: nat, p: nat, x: nat)
    requires p > 0 && w * p + x < TWO32
    ensures w < TWO32
  {
    assert w * p >= w * 1 by {
      MultiplesGrow2(1, p, w);
    }
  }

  lemma MultiplesGrow2(a: nat, b: nat, w: nat)
    requires a <= b
    ensures w * a <= w * b
  {
    assert w * b - w * a == w * (b - a);
  }

  /** A fixed-width field is read back. */
  lemma ReadBitsAt(r: Reader, code: seq<bool>)
    requires At(r, code) && |code| <= 32
    ensures Value(code) < TWO32
    ensures ReadBits(r, |code|) == (Value(code), Skip(r, |code|))
  {
    ValueBound(code);
    Pow2Monotone(|code|, 32);
    Pow2At32();
    ReadBitsFromAt(r, code, 0, Value(code));
  }

  function ReadFields(r: Reader, fields: seq<Field>): (seq<int>, Reader)
    decreases |fields|
  {
    if fields == [] then ([], r)
    else
      var (v, next) := ReadBits(r, fields[0].width);
      var (rest, last) := ReadFields(next, fields[1..]);
      ([v] + rest, last)
  }

  function Masked(fields: seq<Field>): seq<int> {
    if fields == [] then [] else [fields[0].value % Pow2(fields[0].width)] + Masked(fields[1..])
  }

  /** Any list of fields of at most 32 bits is read back, each value modulo its width. */
  lemma {:induction false} FieldsRoundTrip(r: Reader, fields: seq<Field>)
    requires At(r, FieldBits(fields)) && forall f :: f in fields ==> f.width <= 32
    ensures ReadFields(r, fields) == (Masked(fields), Skip(r, |FieldBits(fields)|))
    decreases |fields|
  {
    hide Pow2, ToBits, Value, ReadBits;
    if fields != [] {
      var code := ToBits(fields[0].value, fields[0].width);
      AtSplit(r, code, FieldBits(fields[1..]));
      ReadBitsAt(r, code);
      ValueOfToBits(fields[0].value, fields[0].width);
      FieldsRoundTrip(Skip(r, |code|), fields[1..]);
    }
  }

  /** From a writer's bytes: all fields are read, reading stops where writing did, and only clear bits follow. */
  lemma WrittenFieldsAreRead(w: BitWriter, fields: seq<Field>)
    requires w.Valid() && w.Written() == FieldBits(fields) && forall f :: f in fields ==> f.width <= 32
    ensures ReadFields(Reader(BitsOf(w.buf), 0, false), fields)
            == (Masked(fields), Reader(BitsOf(w.buf), w.bitPos, false))
    ensures w.bitPos <= |BitsOf(w.buf)| && forall k :: w.bitPos <= k < |BitsOf(w.buf)| ==> !BitsOf(w.buf)[k]
  {
    hide ReadFields, FieldBits, Masked;
    var bits := BitsOf(w.buf);
    AtStart([], FieldBits(fields), bits[w.bitPos..]);
    assert [] + FieldBits(fields) + bits[w.bitPos..] == bits;
    FieldsRoundTrip(Reader(bits, 0, false), fields);
  }

  /** The audio configuration reads back field by field. */
  lemma AscRoundTrip(buf: seq<byte>, rate: int, channels: int, spf: int)
    requires |buf| == 4 && FieldBits(AscFields(rate, channels, spf)) == BitsOf(buf)[..28]
    ensures ReadFields(Reader(BitsOf(buf), 0, false), AscFields(rate, channels, spf)).0
            == Masked(AscFields(rate, channels, spf))
  {
    hide BitsOf, ReadFields, FieldBits, Masked;
    var fields := AscFields(rate, channels, spf);
    AtStart([], FieldBits(fields), BitsOf(buf)[28..]);
    assert [] + FieldBits(fields) + BitsOf(buf)[28..] == BitsOf(buf);
    FieldsRoundTrip(Reader(BitsOf(buf), 0, false), fields);
  }

  /** At the end of the bits every read gives zero and sets the error, which stays. */
  lemma NothingLeft(r: Reader, n: nat)
    requires r.pos >= |r.bits| && n > 0
    ensures ReadBit(r) == (false, r.(error := true))
    ensures ReadBits(r, n) == (0, r.(error := true))
    ensures ReadUe(r) == (0, r.(error := true)) && ReadSe(r) == (0, r.(error := true))
  {}

  // ---------------------------------------------------------------------
  // Exp-Golomb codes
  // ---------------------------------------------------------------------

  /** The largest code number of 32-bit range. */
  const MAX_CODE: int := 0xffff_fffe

  function Log2(n: nat): (k: nat)
    requires n > 0
    ensures Pow2(k) <= n < 2 * Pow2(k)
  {
    if n == 1 then 0 else 1 + Log2(n / 2)
  }

  function Zeros(n: nat): (b: seq<bool>)
    ensures |b| == n
  {
    if n == 0 then [] else [false] + Zeros(n - 1)
  }

  /** Section 9.1: `m` zeros, a one, and the low `m` bits of `k + 1`, where 2^m <= k + 1 < 2^(m + 1). */
  function UeCode(k: nat): seq<bool> {
    var m := Log2(k + 1);
    Zeros(m) + ([true] + ToBits(k + 1, m))
  }

  /** Section 9.1.1: positive values take odd code numbers. */
  function SeCode(v: int): seq<bool> {
    UeCode(CodeOf(v))
  }

  function CodeOf(v: int): (k: nat) {
    if v > 0 then 2 * v - 1 else -2 * v
  }

  lemma {:induction false} CountZerosAt(r: Reader, m: nat, zeros: nat)
    requires zeros + m < 32 && At(r, Zeros(m) + [true])
    ensures CountZeros(r, zeros) == (zeros + m, Skip(r, m + 1))
    decreases m
  {
    if m == 0 {
      assert Zeros(0) + [true] == [true];
      ReadBitAt(r, true);
    } else {
      assert Zeros(m) + [true] == [false] + (Zeros(m - 1) + [true]);
      AtSplit(r, [false], Zeros(m - 1) + [true]);
      ReadBitAt(r, false);
      CountZerosAt(Skip(r, 1), m - 1, zeros + 1);
    }
  }

  lemma {:induction false} Log2Bound(n: nat, k: nat)
    requires 0 < n < Pow2(k)
    ensures Log2(n) < k
  {
    if Log2(n) >= k {
      Pow2Monotone(k, Log2(n));
    }
  }

  lemma CodeBits(k: nat) returns (m: nat, low: seq<bool>)
    requires k <= MAX_CODE
    ensures m == |low| < 32 && Value(low) == k + 1 - Pow2(m)
    ensures UeCode(k) == (Zeros(m) + [true]) + low && |UeCode(k)| == 2 * m + 1
  {
    hide ToBits, Zeros;
    m := Log2(k + 1);
    low := ToBits(k + 1, m);
    Pow2At32();
    Log2Bound(k + 1, 32);
    ValueOfToBits(k + 1, m);
    ModUnique(k + 1, Pow2(m), 1, k + 1 - Pow2(m));
  }

  lemma SuffixAt(r: Reader, m: nat, low: seq<bool>, k: nat)
    requires 0 < m == |low| < 32 && At(r, low) && Value(low) == k + 1 - Pow2(m) && k <= MAX_CODE
    ensures ReadSuffix(r, m) == (k, Skip(r, m))
  {
    ReadBitsAt(r, low);
    WrapNone(k);
  }

  lemma CodeAt(r: Reader, k: nat, m: nat, low: seq<bool>)
    requires k <= MAX_CODE && m == |low| < 32
    requires Value(low) == k + 1 - Pow2(m)
    requires At(r, (Zeros(m) + [true]) + low)
    ensures ReadUe(r) == (k, Skip(r, 2 * m + 1))
  {
    AtSplit(r, Zeros(m) + [true], low);
    assert |Zeros(m) + [true]| == m + 1;
    var next := Skip(r, m + 1);
    CountZerosAt(r, m, 0);
    PrefixThenSuffix(r, m, next);
    if m > 0 {
      SuffixAt(next, m, low, k);
      assert ReadUe(r) == (k, Skip(next, m));
    } else {
      assert low == [];
      OnlyZero(k, low);
      assert ReadUe(r) == (k, next);
    }
    assert Skip(next, m) == Skip(r, 2 * m + 1);
  }

  lemma OnlyZero(k: nat, low: seq<bool>)
    requires low == [] && Value(low) == k + 1 - Pow2(0)
    ensures k == 0
  {}

  lemma PrefixThenSuffix(r: Reader, m: nat, next: Reader)
    requires CountZeros(r, 0) == (m, next) && !next.error
    ensures ReadUe(r) == if m == 0 then (0, next) else ReadSuffix(next, m)
  {}

  /** Every code number of 32-bit range is read back. */
  lemma UeRoundTrip(r: Reader, k: nat)
    requires k <= MAX_CODE && At(r, UeCode(k))
    ensures ReadUe(r) == (k, Skip(r, |UeCode(k)|))
  {
    var m, low := CodeBits(k);
    CodeAt(r, k, m, low);
  }

  lemma SignedOfCode(v: int)
    requires -0x7fff_ffff <= v <= 0x7fff_ffff
    ensures CodeOf(v) <= MAX_CODE && Signed(CodeOf(v)) == v
  {}

  /** Every signed value whose code number is in range is read back. */
  lemma SeRoundTrip(r: Reader, v: int)
    requires -0x7fff_ffff <= v <= 0x7fff_ffff && At(r, SeCode(v))
    ensures ReadSe(r) == (v, Skip(r, |SeCode(v)|))
  {
    SignedOfCode(v);
    UeRoundTrip(r, CodeOf(v));
  }
}
