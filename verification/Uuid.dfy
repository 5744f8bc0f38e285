/** `soap_wsa_rand_uuid`: the text of a random UUID and the generator behind it. */
module Uuid {
  import opened Bitwise
  import opened Constants
  import opened Digits

  // ------------------------------------------------------------- the generator

  const MODULUS: int := 0x7FFF_FFFF
  const SEED: int32 := (0xFACE_B00B as int - 0x1_0000_0000) as int32

  /** C division and remainder, which round towards zero. */
  function Quot(a: int, b: int): int
    requires b > 0
  {
    if a >= 0 then a / b else -(-a / b)
  }

  function Rem(a: int, b: int): int
    requires b > 0
  {
    a - Quot(a, b) * b
  }

  /** One step of the minimal standard generator: `16807 * k` modulo 2^31 - 1,
      with 2^31 - 1 itself standing for 0. */
  function Next(k: int): (r: int)
    ensures 1 <= r <= MODULUS
  {
    var r := 16807 * k % MODULUS;
    if r == 0 then MODULUS else r
  }

  /** `(int)(value modulo 2^32)`: conversion and wrap-around. */
  function Wrap32(x: int): (w: int32)
    ensures (w as int - x) % UINT_RANGE == 0
  {
    var r := x % 0x1_0000_0000;
    (if r < 0x8000_0000 then r else r - 0x1_0000_0000) as int32
  }

  /** Bits of the generator's state that survive the mask `0x8FFFFFFF`. */
  const STATE_MASK: int := 0x8FFF_FFFF
  const STATE_BOUND: int := 0x1000_0000

  class Generator {
    /** The static state `k`. */
    var k: int32

    constructor ()
      ensures k == SEED
    {
      k := SEED;
    }

    /** The drawing part of `soap_wsa_rand_uuid`: Schrage's form of the
        multiplication, in which no 32-bit operation overflows. */
    method Draw(noise: int32) returns (r2: int32)
      modifies this
      ensures r2 == Wrap32(Next(old(k) as int) + noise as int)
      ensures (r2 as int - (Next(old(k) as int) + noise as int)) % UINT_RANGE == 0
      ensures k as int == Next(old(k) as int) % STATE_BOUND
    {
      hide Quot, Rem, And, Next, Wrap32;
      PartsFit(k as int);
      var lo: int32 := Rem(k as int, 127773) as int32;
      var hi: int32 := Quot(k as int, 127773) as int32;
      Schrage(k as int, lo as int, hi as int);
      k := 16807 * lo - 2836 * hi;
      if k <= 0 {
        k := k + 0x7FFF_FFFF;
      }
      r2 := k;
      MaskedState(k as int);
      k := And(k as int, STATE_MASK) as int32;
      r2 := Wrap32(r2 as int + noise as int);
    }

    /** `soap_wsa_rand_uuid` for a clock word, the first word of the message
        buffer, and two words of the C library's generator. */
    method RandUuid(r1: int32, noise: int32, r3: int32, r4: int32) returns (uuid: string)
      modifies this
      ensures IsRandomUuid(uuid)
      ensures uuid == UuidText(r1 as int, Wrap32(Next(old(k) as int) + noise as int) as int, r3 as int, r4 as int)
      ensures Shows(uuid, r1 as int, Next(old(k) as int) + noise as int, r3 as int, r4 as int)
      ensures k as int == Next(old(k) as int) % STATE_BOUND
    {
      hide UuidText, IsRandomUuid, Shows, Next, Wrap32;
      var r2 := Draw(noise);
      AlwaysValid(r1 as int, r2 as int, r3 as int, r4 as int);
      WordsReadBack(r1 as int, r2 as int, r3 as int, r4 as int);
      ShowsWrapped(UuidText(r1 as int, r2 as int, r3 as int, r4 as int), r1 as int, r2 as int,
                   Next(old(k) as int) + noise as int, r3 as int, r4 as int);
      uuid := UuidText(r1 as int, r2 as int, r3 as int, r4 as int);
    }
  }

  /** From the same state, words drawn with different noise differ. */
  lemma NoiseShows(k: int32, noise: int32, noise': int32)
    requires noise != noise'
    ensures Wrap32(Next(k as int) + noise as int) != Wrap32(Next(k as int) + noise' as int)
  {
    hide Wrap32, Next;
    var a, b := Next(k as int) + noise as int, Next(k as int) + noise' as int;
    if Wrap32(a) == Wrap32(b) {
      SameRemainder(Wrap32(a) as int, a, b);
      SmallMultiple((a - b) / UINT_RANGE, UINT_RANGE);
    }
  }

  lemma SameRemainder(w: int, a: int, b: int)
    requires (w - a) % UINT_RANGE == 0 && (w - b) % UINT_RANGE == 0
    ensures a - b == (a - b) / UINT_RANGE * UINT_RANGE
  {
    var p, q := (w - a) / UINT_RANGE, (w - b) / UINT_RANGE;
    RemainderIs(a - b, UINT_RANGE, q - p, 0);
  }

  lemma PartsFit(k: int)
    requires INT32_MIN <= k <= INT32_MAX
    ensures INT32_MIN <= Rem(k, 127773) <= INT32_MAX && INT32_MIN <= Quot(k, 127773) <= INT32_MAX
  {
  }

  /** Schrage's decomposition computes the product modulo 2^31 - 1 without
      leaving the 32-bit range, for every state, negative ones included. */
  lemma Schrage(k: int, lo: int, hi: int)
    requires INT32_MIN <= k <= INT32_MAX && lo == Rem(k, 127773) && hi == Quot(k, 127773)
    ensures INT32_MIN <= 16807 * lo <= INT32_MAX && INT32_MIN <= 2836 * hi <= INT32_MAX
    ensures var r := 16807 * lo - 2836 * hi;
            INT32_MIN <= r <= INT32_MAX && Next(k) == if r <= 0 then r + MODULUS else r
  {
    var r := 16807 * lo - 2836 * hi;
    assert k == hi * 127773 + lo;
    assert 16807 * k == hi * MODULUS + r;
    if r < 0 {
      RemainderIs(16807 * k, MODULUS, hi - 1, r + MODULUS);
    } else {
      RemainderIs(16807 * k, MODULUS, hi, r);
    }
  }

  /** Masking a positive 32-bit number with 0x8FFFFFFF keeps its low 28 bits. */
  lemma MaskedState(r: int)
    requires 0 < r <= INT32_MAX
    ensures And(r, STATE_MASK) == r % STATE_BOUND
  {
    Pow2Values();
    LowMask(r, 28);
    AndDisjoint(r, 31);
    HighBitAway(r, 28);
  }

  /** A mask bit above the number makes no difference. */
  lemma {:induction false} HighBitAway(r: nat, k: nat)
    requires k <= 31 && r < Pow2(31)
    ensures And(r, Pow2(31) + Pow2(k) - 1) == And(r, Pow2(k) - 1)
  {
    HighBitAwayAt(r, 31, k);
  }

  lemma {:induction false} HighBitAwayAt(r: nat, n: nat, k: nat)
    requires k <= n && r < Pow2(n)
    ensures And(r, Pow2(n) + Pow2(k) - 1) == And(r, Pow2(k) - 1)
    decreases n
  {
    if k == 0 {
      AndDisjoint(r, n);
      AndZero(r);
    } else {
      var p, q := Pow2(n - 1), Pow2(k - 1);
      var high, low := Pow2(n) + Pow2(k) - 1, Pow2(k) - 1;
      HalfOfOdd(p + q);
      HalfOfOdd(q);
      AndStep(r, high);
      AndStep(r, low);
      HighBitAwayAt(r / 2, n - 1, k - 1);
    }
  }

  /** What a draw leaves in the state. */
  function Advance(state: int): (next: int)
    ensures 0 <= next < STATE_BOUND
  {
    Next(state) % STATE_BOUND
  }

  /** The one state that the generator does not leave again: from there on, every
      draw returns the same word, up to the noise. */
  const STUCK: int := 248_996_806

  lemma StuckStays()
    ensures Advance(STUCK) == STUCK && Next(STUCK) == 1_591_174_086
  {
    RemainderIs(16807 * STUCK, MODULUS, 1948, 1_591_174_086);
    RemainderIs(1_591_174_086, STATE_BOUND, 5, STUCK);
  }

  /** The inverse of 16806 modulo 2^31 - 1. */
  const INVERSE: int := 827_891_619

  lemma InverseOf16806()
    ensures INVERSE * 16806 == 6479 * MODULUS + 1
  {
  }

  /** The steps that change the state by `j * 2^28` only start in one state. */
  lemma SolveForState(s: int, q: int, j: int)
    requires 16806 * s == q * MODULUS + j * STATE_BOUND && 0 <= s < MODULUS
    ensures s == INVERSE * (j * STATE_BOUND) % MODULUS
  {
    var inverse, b := INVERSE, j * STATE_BOUND;
    InverseOf16806();
    Eliminate(s, q, b, MODULUS, inverse, 6479);
    RemainderIs(inverse * b, MODULUS, 6479 * s - inverse * q, s);
  }

  lemma Eliminate(s: int, q: int, b: int, m: int, inverse: int, t: int)
    requires 16806 * s == q * m + b && inverse * 16806 == t * m + 1
    ensures inverse * b == (t * s - inverse * q) * m + s
  {
    assert inverse * (16806 * s) == inverse * (q * m) + inverse * b;
    assert inverse * (16806 * s) == (inverse * 16806) * s == t * m * s + s;
    assert (t * s - inverse * q) * m == t * m * s - inverse * (q * m);
  }

  /** Only for `j == 5` is that state one that a draw can leave, 0 apart. */
  lemma SmallSolutions(j: int)
    requires 0 <= j < 8 && INVERSE * (j * STATE_BOUND) % MODULUS < STATE_BOUND
    ensures j == 0 || j == 5
    ensures j == 5 ==> INVERSE * (j * STATE_BOUND) % MODULUS == STUCK
  {
    RemainderIs(INVERSE * STATE_BOUND, MODULUS, 103_486_452, 908_792_820);
    RemainderIs(INVERSE * (2 * STATE_BOUND), MODULUS, 206_972_904, 1_817_585_640);
    RemainderIs(INVERSE * (3 * STATE_BOUND), MODULUS, 310_459_357, 578_894_813);
    RemainderIs(INVERSE * (4 * STATE_BOUND), MODULUS, 413_945_809, 1_487_687_633);
    RemainderIs(INVERSE * (5 * STATE_BOUND), MODULUS, 517_432_262, STUCK);
    RemainderIs(INVERSE * (6 * STATE_BOUND), MODULUS, 620_918_714, 1_157_789_626);
    RemainderIs(INVERSE * (7 * STATE_BOUND), MODULUS, 724_405_166, 2_066_582_446);
  }

  /** A product that is a multiple of 2^31 - 1 leaves the largest state, which is
      no such factor, so no state stays by way of that exception. */
  lemma NoMultipleStays(s: int)
    requires 0 <= s < STATE_BOUND && 16807 * s % MODULUS == 0
    ensures Advance(s) != s
  {
    RemainderIs(16807 * (STATE_BOUND - 1), MODULUS, 2100, 1_879_033_485);
    RemainderIs(MODULUS, STATE_BOUND, 7, STATE_BOUND - 1);
  }

  /** Among all states that a draw can leave, the generator sticks at exactly one. */
  lemma SticksExactlyAt(s: int)
    requires 0 <= s < STATE_BOUND
    ensures Advance(s) == s <==> s == STUCK
  {
    StuckStays();
    if Advance(s) == s {
      var r := 16807 * s % MODULUS;
      if r == 0 {
        NoMultipleStays(s);
      } else {
        var q, j := 16807 * s / MODULUS, r / STATE_BOUND;
        assert r == j * STATE_BOUND + s && 0 <= j < 8;
        SolveForState(s, q, j);
        SmallSolutions(j);
      }
    }
  }

  // ------------------------------------------------------------------ the text

  /** `(short)x`. */
  function ToShort(x: int): int {
    var r := x % 0x1_0000;
    if r < 0x8000 then r else r - 0x1_0000
  }

  /** `%8.8x` of an int and `%4.4hx` of a short: the two's-complement bits. */
  function Hex8(x: int): string { Positional(x % 0x1_0000_0000, 8, 16) }

  function Hex4(x: int): string { Positional(x % 0x1_0000, 4, 16) }

  function Hex3(x: int): string
    requires 0 <= x
  {
    Positional(x, 3, 16)
  }

  /** The text printed for four random words; `>>` on a negative word keeps its sign. */
  function UuidText(r1: int, r2: int, r3: int, r4: int): string {
    "urn:uuid:" + Hex8(r1) + "-" + Hex4(ToShort(r2 / 0x1_0000)) + "-4" + Hex3(Middle(r2)) + "-"
    + Hex4(Variant(r3)) + "-" + Hex4(ToShort(r3)) + Hex8(r4)
  }

  /** `((short)r2 >> 4) & 0x0FFF` */
  function Middle(r2: int): (m: int)
    ensures m == r2 / 16 % 0x1000
  {
    assert And(ToShort(r2) / 16, 0x0FFF) == r2 / 16 % 0x1000 by { MiddleBits(r2); }
    And(ToShort(r2) / 16, 0x0FFF)
  }

  /** `((short)(r3 >> 16) & 0x3FFF) | 0x8000` */
  function Variant(r3: int): (v: int)
    ensures v == r3 / 0x1_0000 % 0x4000 + 0x8000
  {
    assert Or(And(ToShort(r3 / 0x1_0000), 0x3FFF), 0x8000) == r3 / 0x1_0000 % 0x4000 + 0x8000 by { VariantBits(r3); }
    Or(And(ToShort(r3 / 0x1_0000), 0x3FFF), 0x8000)
  }

  lemma MiddleBits(r2: int)
    ensures And(ToShort(r2) / 16, 0x0FFF) == r2 / 16 % 0x1000
  {
    Pow2Values();
    LowMask(ToShort(r2) / 16, 12);
    ShortBits(r2);
  }

  lemma ShortBits(x: int)
    ensures ToShort(x) / 16 % 0x1000 == x / 16 % 0x1000
    ensures ToShort(x) % 0x4000 == x % 0x4000
  {
    var t := if x % 0x1_0000 < 0x8000 then 0 - x / 0x1_0000 else 0 - x / 0x1_0000 - 1;
    assert ToShort(x) == x + 0x1_0000 * t;
    ShiftBits(x, t);
  }

  lemma ShiftBits(x: int, t: int)
    ensures (x + 0x1_0000 * t) / 16 % 0x1000 == x / 16 % 0x1000
    ensures (x + 0x1_0000 * t) % 0x4000 == x % 0x4000
  {
    assert (x + 0x1_0000 * t) / 16 == x / 16 + 0x1000 * t;
    RemainderIs(x / 16 + 0x1000 * t, 0x1000, x / 16 / 0x1000 + t, x / 16 % 0x1000);
    RemainderIs(x + 0x1_0000 * t, 0x4000, x / 0x4000 + 4 * t, x % 0x4000);
  }

  lemma VariantBits(r3: int)
    ensures Or(And(ToShort(r3 / 0x1_0000), 0x3FFF), 0x8000) == r3 / 0x1_0000 % 0x4000 + 0x8000
  {
    var x := ToShort(r3 / 0x1_0000);
    Pow2Values();
    LowMask(x, 14);
    ShortBits(r3 / 0x1_0000);
    AndDisjoint(x % 0x4000, 15);
  }

  // ------------------------------------------------------------- main results

  /** A `urn:uuid:` text of version 4 and variant 10, as section 4.4 of RFC 4122
      asks for: 45 characters, hyphens in place, lower-case hexadecimal elsewhere. */
  predicate IsRandomUuid(s: string) {
    && |s| == 45 && s[..9] == "urn:uuid:"
    && s[17] == '-' && s[22] == '-' && s[27] == '-' && s[32] == '-'
    && (forall i | 9 <= i < 45 && i != 17 && i != 22 && i != 27 && i != 32 :: IsHexDigit(s[i]))
    && s[23] == '4' && s[28] in "89ab"
  }

  /** The fields of the text, by position. */
  lemma Fields(r1: int, r2: int, r3: int, r4: int)
    ensures var s := UuidText(r1, r2, r3, r4);
            && |s| == 45 && s[..9] == "urn:uuid:" && s[9..17] == Hex8(r1) && s[17] == '-'
            && s[18..22] == Hex4(ToShort(r2 / 0x1_0000)) && s[22] == '-' && s[23] == '4'
            && s[24..27] == Hex3(Middle(r2)) && s[27] == '-' && s[28..32] == Hex4(Variant(r3)) && s[32] == '-'
            && s[33..37] == Hex4(ToShort(r3)) && s[37..45] == Hex8(r4)
  {
    hide Positional, Middle, Variant, ToShort;
    Layout("urn:uuid:", Hex8(r1), Hex4(ToShort(r2 / 0x1_0000)), Hex3(Middle(r2)), Hex4(Variant(r3)), Hex4(ToShort(r3)),
           Hex8(r4));
  }

  /** The number that a field of the text stands for. */
  function Field(s: string, i: nat, j: nat): int
    requires i <= j <= |s|
  {
    if IsHex(s[i..j]) then HexValue(s[i..j]) else -1
  }

  /** What the text shows, read off its fields: the words r1 and r4, the upper 28 bits
      of r2 behind which the version is put, and the lower 30 bits of r3 behind the variant. */
  predicate Shows(s: string, r1: int, r2: int, r3: int, r4: int) {
    && |s| == 45
    && Field(s, 9, 17) == r1 % 0x1_0000_0000
    && Field(s, 18, 22) == r2 / 0x1_0000 % 0x1_0000
    && Field(s, 23, 27) == 0x4000 + r2 / 0x10 % 0x1000
    && Field(s, 28, 32) == 0x8000 + r3 / 0x1_0000 % 0x4000
    && Field(s, 33, 37) == r3 % 0x1_0000
    && Field(s, 37, 45) == r4 % 0x1_0000_0000
  }

  lemma FieldReads(s: string, i: nat, j: nat, n: nat)
    requires i <= j <= |s| && n < Power16(j - i) && s[i..j] == Positional(n, j - i, 16)
    ensures Field(s, i, j) == n
  {
    HexReads(n, j - i);
  }

  lemma VersionReads(s: string, n: nat)
    requires |s| == 45 && s[23] == '4' && n < 0x1000 && s[24..27] == Positional(n, 3, 16)
    ensures Field(s, 23, 27) == 0x4000 + n
  {
    hide Positional, Power16, Field;
    FourthDigit(n);
    assert s[23..27] == "4" + s[24..27];
    Powers16();
    FieldReads(s, 23, 27, 0x4000 + n);
  }

  lemma FourthDigit(n: nat)
    requires n < 0x1000
    ensures Positional(0x4000 + n, 4, 16) == "4" + Positional(n, 3, 16)
  {
    hide Positional;
    NothingInFront();
    DigitBehind(1, 0x40, n / 0x100);
    DigitBehind(2, 0x400, n / 0x10);
    DigitBehind(3, 0x4000, n);
  }

  lemma NothingInFront()
    ensures Positional(0x4, 1, 16) == "4" + Positional(0, 0, 16)
  {
    assert Positional(0, 0, 16) == "";
  }

  /** One digit more behind a 4 and `width - 1` digits. */
  lemma DigitBehind(width: nat, high: nat, n: nat)
    requires width > 0 && high % 16 == 0
    requires Positional(high / 16 + n / 16, width, 16) == "4" + Positional(n / 16, width - 1, 16)
    ensures Positional(high + n, width + 1, 16) == "4" + Positional(n, width, 16)
  {
    assert (high + n) / 16 == high / 16 + n / 16 && (high + n) % 16 == n % 16;
  }

  lemma Powers16()
    ensures Power16(3) == 0x1000 && Power16(4) == 0x1_0000 && Power16(8) == 0x1_0000_0000
  {
  }

  lemma ShortReads(x: int)
    ensures ToShort(x) % 0x1_0000 == x % 0x1_0000
  {
    SplitLow(x);
  }

  /** All the bits shown can be read back, each word from its own place. */
  lemma WordsReadBack(r1: int, r2: int, r3: int, r4: int)
    ensures Shows(UuidText(r1, r2, r3, r4), r1, r2, r3, r4)
  {
    hide Positional, ToShort, Field, UuidText, Power16, Middle, Variant;
    var s := UuidText(r1, r2, r3, r4);
    Fields(r1, r2, r3, r4);
    Powers16();
    FieldReads(s, 9, 17, r1 % 0x1_0000_0000);
    ShortReads(r2 / 0x1_0000);
    FieldReads(s, 18, 22, r2 / 0x1_0000 % 0x1_0000);
    VersionReads(s, r2 / 16 % 0x1000);
    assert Variant(r3) % 0x1_0000 == Variant(r3);
    FieldReads(s, 28, 32, Variant(r3));
    ShortReads(r3);
    FieldReads(s, 33, 37, r3 % 0x1_0000);
    FieldReads(s, 37, 45, r4 % 0x1_0000_0000);
  }

  lemma ShowsWrapped(s: string, r1: int, r2: int, q2: int, r3: int, r4: int)
    requires Shows(s, r1, r2, r3, r4) && (r2 - q2) % UINT_RANGE == 0
    ensures Shows(s, r1, q2, r3, r4)
  {
    hide Field;
    SameBits(r2, q2);
  }

  /** Wrapping around to 32 bits keeps the bits that are shown. */
  lemma SameBits(x: int, y: int)
    requires (x - y) % UINT_RANGE == 0
    ensures x / 0x1_0000 % 0x1_0000 == y / 0x1_0000 % 0x1_0000 && x / 0x10 % 0x1000 == y / 0x10 % 0x1000
  {
    var t := (x - y) / UINT_RANGE;
    assert x == y + 0x1_0000_0000 * t;
    RemainderIs(x, 0x1_0000, y / 0x1_0000 + 0x1_0000 * t, y % 0x1_0000);
    RemainderIs(y / 0x1_0000 + 0x1_0000 * t, 0x1_0000, y / 0x1_0000 / 0x1_0000 + t, y / 0x1_0000 % 0x1_0000);
    RemainderIs(x, 0x10, y / 0x10 + 0x1000_0000 * t, y % 0x10);
    RemainderIs(y / 0x10 + 0x1000_0000 * t, 0x1000, y / 0x10 / 0x1000 + 0x1_0000 * t, y / 0x10 % 0x1000);
  }

  lemma FirstHalf(p: string, a: string, b: string, c: string)
    requires |p| == 9 && |a| == 8 && |b| == 4 && |c| == 3
    ensures var s := p + a + "-" + b + "-4" + c;
            && |s| == 27 && s[..9] == p && s[9..17] == a && s[17] == '-' && s[18..22] == b && s[22] == '-'
               && s[23] == '4'
            && s[24..27] == c
  {
  }

  lemma SecondHalf(d: string, e: string, f: string)
    requires |d| == 4 && |e| == 4 && |f| == 8
    ensures var s := "-" + d + "-" + e + f;
            |s| == 18 && s[0] == '-' && s[1..5] == d && s[5] == '-' && s[6..10] == e && s[10..18] == f
  {
  }

  lemma Halves(x: string, y: string, i: nat, j: nat)
    requires i <= j
    ensures j <= |x| ==> (x + y)[i..j] == x[i..j]
    ensures j <= |y| ==> (x + y)[|x| + i..|x| + j] == y[i..j]
  {
  }

  lemma Layout(p: string, a: string, b: string, c: string, d: string, e: string, f: string)
    requires |p| == 9 && |a| == 8 && |b| == 4 && |c| == 3 && |d| == 4 && |e| == 4 && |f| == 8
    ensures var s := p + a + "-" + b + "-4" + c + "-" + d + "-" + e + f;
            && |s| == 45 && s[..9] == p && s[9..17] == a && s[17] == '-' && s[18..22] == b && s[22] == '-'
               && s[23] == '4'
            && s[24..27] == c && s[27] == '-' && s[28..32] == d && s[32] == '-' && s[33..37] == e && s[37..45] == f
  {
    var x, y := p + a + "-" + b + "-4" + c, "-" + d + "-" + e + f;
    FirstHalf(p, a, b, c);
    SecondHalf(d, e, f);
    assert p + a + "-" + b + "-4" + c + "-" + d + "-" + e + f == x + y;
    Halves(x, y, 0, 9);
    Halves(x, y, 9, 17);
    Halves(x, y, 18, 22);
    Halves(x, y, 24, 27);
    Halves(x, y, 1, 5);
    Halves(x, y, 6, 10);
    Halves(x, y, 10, 18);
  }

  lemma AlwaysValid(r1: int, r2: int, r3: int, r4: int)
    ensures IsRandomUuid(UuidText(r1, r2, r3, r4))
  {
    var s := UuidText(r1, r2, r3, r4);
    Fields(r1, r2, r3, r4);
    HexDigitsOnly(r1 % 0x1_0000_0000, 8);
    HexDigitsOnly(ToShort(r2 / 0x1_0000) % 0x1_0000, 4);
    HexDigitsOnly(Middle(r2), 3);
    HexDigitsOnly(Variant(r3) % 0x1_0000, 4);
    HexDigitsOnly(ToShort(r3) % 0x1_0000, 4);
    HexDigitsOnly(r4 % 0x1_0000_0000, 8);
    assert s[28] == s[28..32][0];
    TopDigit(Variant(r3));
  }

  lemma FirstOf(n: nat, width: nat)
    requires width > 1
    ensures Positional(n, width, 16)[0] == Positional(n / 16, width - 1, 16)[0]
  {
  }

  lemma TopDigit(v: int)
    requires 0x8000 <= v < 0xC000
    ensures Hex4(v)[0] in "89ab"
  {
    hide Positional;
    FirstOf(v, 4);
    FirstOf(v / 16, 3);
    FirstOf(v / 16 / 16, 2);
    OneDigit(v / 16 / 16 / 16);
  }

  lemma OneDigit(d: nat)
    requires 8 <= d < 12
    ensures Positional(d, 1, 16)[0] in "89ab"
  {
    assert Positional(d / 16, 0, 16) == "";
  }

  lemma SameWord(x: int32, y: int32)
    ensures Hex8(x as int) == Hex8(y as int) <==> x == y
  {
    if Hex8(x as int) == Hex8(y as int) {
      assert Power16(8) == 0x1_0000_0000;
      HexInjective(x as int % 0x1_0000_0000, y as int % 0x1_0000_0000, 8);
      WordBits(x);
      WordBits(y);
    }
  }

  lemma WordBits(x: int32)
    ensures x as int % 0x1_0000_0000 == if x < 0 then x as int + 0x1_0000_0000 else x as int
  {
  }

  lemma SameHalf(x: int, y: int)
    ensures Hex4(x) == Hex4(y) <==> x % 0x1_0000 == y % 0x1_0000
  {
    if Hex4(x) == Hex4(y) {
      assert Power16(4) == 0x1_0000;
      HexInjective(x % 0x1_0000, y % 0x1_0000, 4);
    }
  }

  lemma SameMiddle(x: int, y: int)
    ensures Hex3(Middle(x)) == Hex3(Middle(y)) <==> x / 16 % 0x1000 == y / 16 % 0x1000
  {
    if Hex3(Middle(x)) == Hex3(Middle(y)) {
      assert Power16(3) == 0x1000;
      HexInjective(Middle(x), Middle(y), 3);
    }
  }

  lemma UpperBits(x: int32, y: int32)
    ensures ToShort(x as int / 0x1_0000) % 0x1_0000 == ToShort(y as int / 0x1_0000) % 0x1_0000
            && x as int / 16 % 0x1000 == y as int / 16 % 0x1000
            <==> x as int / 16 == y as int / 16
  {
    assert x as int / 16 / 0x1000 == x as int / 0x1_0000 && y as int / 16 / 0x1000 == y as int / 0x1_0000;
  }

  lemma LowerBits(x: int, y: int)
    ensures Variant(x) % 0x1_0000 == Variant(y) % 0x1_0000 && ToShort(x) % 0x1_0000 == ToShort(y) % 0x1_0000
            <==> x % 0x4000_0000 == y % 0x4000_0000
  {
    hide Variant, ToShort;
    SplitLow(x);
    SplitLow(y);
    var a, b := x / 0x1_0000 % 0x4000, y / 0x1_0000 % 0x4000;
    assert Variant(x) == a + 0x8000 && Variant(y) == b + 0x8000;
    VariantFits(a);
    VariantFits(b);
    DigitsAgree(a, x % 0x1_0000, b, y % 0x1_0000);
  }

  lemma VariantFits(a: int)
    requires 0 <= a < 0x4000
    ensures (a + 0x8000) % 0x1_0000 == a + 0x8000
  {
  }

  lemma DigitsAgree(a: int, b: int, c: int, d: int)
    requires 0 <= b < 0x1_0000 && 0 <= d < 0x1_0000
    ensures a * 0x1_0000 + b == c * 0x1_0000 + d <==> a == c && b == d
  {
  }

  lemma SplitLow(x: int)
    ensures x % 0x4000_0000 == x / 0x1_0000 % 0x4000 * 0x1_0000 + x % 0x1_0000
    ensures ToShort(x) % 0x1_0000 == x % 0x1_0000
  {
    RemainderIs(x, 0x4000_0000, x / 0x1_0000 / 0x4000, x / 0x1_0000 % 0x4000 * 0x1_0000 + x % 0x1_0000);
    RemainderIs(ToShort(x), 0x1_0000, (ToShort(x) - x % 0x1_0000) / 0x1_0000, x % 0x1_0000);
  }

  /** 122 of the 128 random bits reach the text: it shows all of r1 and r4, the
      upper 28 bits of r2 and the lower 30 bits of r3, and nothing else. */
  lemma ShowsExactly(r1: int32, r2: int32, r3: int32, r4: int32, q1: int32, q2: int32, q3: int32, q4: int32)
    ensures UuidText(r1 as int, r2 as int, r3 as int, r4 as int) == UuidText(q1 as int, q2 as int, q3 as int, q4 as int)
            <==> r1 == q1 && r2 as int / 16 == q2 as int / 16
                 && r3 as int % 0x4000_0000 == q3 as int % 0x4000_0000 && r4 == q4
  {
    SameWord(r1, q1);
    SameHalf(ToShort(r2 as int / 0x1_0000), ToShort(q2 as int / 0x1_0000));
    SameMiddle(r2 as int, q2 as int);
    UpperBits(r2, q2);
    SameHalf(Variant(r3 as int), Variant(q3 as int));
    SameHalf(ToShort(r3 as int), ToShort(q3 as int));
    LowerBits(r3 as int, q3 as int);
    SameWord(r4, q4);
    SameFields(r1 as int, r2 as int, r3 as int, r4 as int, q1 as int, q2 as int, q3 as int, q4 as int);
  }

  lemma SameFields(r1: int, r2: int, r3: int, r4: int, q1: int, q2: int, q3: int, q4: int)
    ensures UuidText(r1, r2, r3, r4) == UuidText(q1, q2, q3, q4)
            <==> Hex8(r1) == Hex8(q1) && Hex4(ToShort(r2 / 0x1_0000)) == Hex4(ToShort(q2 / 0x1_0000))
                 && Hex3(Middle(r2)) == Hex3(Middle(q2)) && Hex4(Variant(r3)) == Hex4(Variant(q3))
                 && Hex4(ToShort(r3)) == Hex4(ToShort(q3)) && Hex8(r4) == Hex8(q4)
  {
    Fields(r1, r2, r3, r4);
    Fields(q1, q2, q3, q4);
  }
}
