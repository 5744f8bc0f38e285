/** The alignment macros of common.h on `Int32` arguments. */
module Alignment {
  import opened Bitwise
  import opened Constants

  predicate Int32(x: int) { INT32_MIN <= x <= INT32_MAX }

  function RoundUp(x: int, align: int): int { And(x + (align - 1), Not(align - 1)) }

  function RoundDown(x: int, align: int): int { And(x, Not(align - 1)) }

  predicate Aligned(x: int, align: int) { And(x, align - 1) == 0 }

  /** `m` is the largest multiple of `align` that does not exceed `x`. */
  ghost predicate IsFloor(m: int, x: int, align: int)
    requires align > 0
  {
    m % align == 0 && m <= x && forall z | Multiple(z, align) && z <= x :: z <= m
  }

  /** `m` is the smallest multiple of `align` that is not below `x`. */
  ghost predicate IsCeiling(m: int, x: int, align: int)
    requires align > 0
  {
    m % align == 0 && x <= m && forall z | Multiple(z, align) && x <= z :: m <= z
  }

  predicate Multiple(z: int, align: int)
    requires align > 0
  {
    z % align == 0
  }

  lemma MultiplesApart(y: int, z: int, align: int)
    requires align > 0 && Multiple(y, align) && Multiple(z, align) && y < z
    ensures y + align <= z
  {
    assert y == (y / align) * align && z == (z / align) * align;
    if z < y + align { SmallMultiple(z / align - y / align, align); }
  }

  lemma FloorByRemainder(x: int, align: int)
    requires align > 0
    ensures IsFloor(x - x % align, x, align)
  {
    var q := x / align;
    assert x - x % align == q * align;
    RemainderIs(x - x % align, align, q, 0);
    forall z | Multiple(z, align) && z <= x
      ensures z <= x - x % align
    {
      if z > x - x % align { MultiplesApart(x - x % align, z, align); }
    }
  }

  lemma FloorIsUnique(m: int, n: int, x: int, align: int)
    requires align > 0 && IsFloor(m, x, align) && IsFloor(n, x, align)
    ensures m == n
  {
    assert Multiple(m, align) && Multiple(n, align);
  }

  /** Adding `align - 1` first turns rounding down into rounding up. */
  lemma CeilingByFloor(x: int, align: int, m: int)
    requires align > 0 && IsFloor(m, x + (align - 1), align)
    ensures IsCeiling(m, x, align) && m < x + align
  {
    assert Multiple(m, align);
    RemainderIs(m + align, align, m / align + 1, 0);
    assert Multiple(m + align, align);
    forall z | Multiple(z, align) && x <= z
      ensures m <= z
    {
      if z < m { MultiplesApart(z, m, align); }
    }
  }

  lemma MasksDivide(x: int, align: int)
    requires align > 0 && IsPow2(align)
    ensures And(x, align - 1) == x % align && RoundDown(x, align) == x - x % align
  {
    hide And, Not;
    var k: nat :| Pow2(k) == align;
    LowMask(x, k);
    HighMask(x, k);
  }

  lemma RoundsDown(x: int, align: int)
    requires align > 0 && IsPow2(align)
    ensures IsFloor(RoundDown(x, align), x, align)
  {
    hide IsFloor, RoundDown;
    MasksDivide(x, align);
    FloorByRemainder(x, align);
  }

  /** For a power-of-two alignment all three macros mean what their names say. */
  lemma MacrosRound(x: int, align: int)
    requires align > 0 && IsPow2(align)
    ensures Aligned(x, align) <==> x % align == 0
    ensures IsFloor(RoundDown(x, align), x, align)
    ensures IsCeiling(RoundUp(x, align), x, align) && RoundUp(x, align) < x + align
  {
    hide And, Not, IsFloor, IsCeiling;
    MasksDivide(x, align);
    RoundsDown(x, align);
    RoundsDown(x + (align - 1), align);
    CeilingByFloor(x, align, RoundUp(x, align));
  }

  lemma FactorDivides(a: int, b: int)
    requires b > 0
    ensures (0 - a * b) % b == 0
  {
    assert 0 - a * b == (0 - a) * b;
    RemainderIs(0 - a * b, b, 0 - a, 0);
  }

  lemma DividesMinimum(align: int)
    requires 0 < align <= INT32_MAX && IsPow2(align)
    ensures Multiple(INT32_MIN, align)
  {
    var k: nat :| Pow2(k) == align;
    Pow2Values();
    assert k < 31 by {
      if k >= 31 { Pow2Monotone(31, k); }
    }
    Pow2Sum(31 - k, k);
    FactorDivides(Pow2(31 - k), align);
  }

  /** Rounding a 32-bit value down never leaves the type, and rounding it up
      does not either as long as the addition inside the macro does not overflow. */
  lemma MacrosStayInt32(x: int, align: int)
    requires 0 < align <= INT32_MAX && IsPow2(align) && Int32(x)
    ensures Int32(RoundDown(x, align))
    ensures Int32(x + (align - 1)) ==> Int32(RoundUp(x, align))
  {
    DividesMinimum(align);
    MacrosRound(x, align);
    assert Multiple(INT32_MIN, align);
  }

  /** None of the three macros works for any other alignment: each is right for
      all arguments exactly when the alignment is a power of two. */
  lemma ExactlyPowersOfTwo(align: int)
    requires 0 < align <= INT32_MAX
    ensures IsPow2(align) <==> forall x | Int32(x) :: Aligned(x, align) <==> x % align == 0
    ensures IsPow2(align) <==> forall x | Int32(x) :: IsFloor(RoundDown(x, align), x, align)
    ensures IsPow2(align) <==> forall x | Int32(x) && Int32(x + (align - 1)) :: IsCeiling(RoundUp(x, align), x, align)
  {
    if IsPow2(align) {
      forall x
        ensures Aligned(x, align) <==> x % align == 0
        ensures IsFloor(RoundDown(x, align), x, align)
        ensures IsCeiling(RoundUp(x, align), x, align)
      {
        MacrosRound(x, align);
      }
    } else {
      MacrosFailAt(align);
      assert Int32(align) && Int32(1) && Int32(1 + (align - 1));
    }
  }

  /** For any other alignment the macros already fail at `align` and at 1. */
  lemma MacrosFailAt(align: int)
    requires align > 0 && !IsPow2(align)
    ensures align % align == 0 && !Aligned(align, align)
    ensures !IsFloor(RoundDown(align, align), align, align)
    ensures !IsCeiling(RoundUp(1, align), 1, align)
  {
    MaskMisses(align);
    RemainderIs(align, align, 1, 0);
    FloorByRemainder(align, align);
    if IsFloor(RoundDown(align, align), align, align) {
      FloorIsUnique(RoundDown(align, align), align, align, align);
    }
    if IsCeiling(RoundUp(1, align), 1, align) {
      assert Multiple(align, align);
      OnlyMultiple(RoundUp(1, align), align);
    }
  }

  lemma MaskMisses(align: int)
    requires align > 0 && !IsPow2(align)
    ensures !Aligned(align, align) && RoundDown(align, align) != align && RoundUp(1, align) != align
  {
    PowerOfTwoTest(align);
    AndSplits(align, align - 1);
    assert 1 + (align - 1) == align;
  }

  lemma OnlyMultiple(up: int, align: int)
    requires 1 <= up <= align && up % align == 0
    ensures up == align
  {
    if up < align { RemainderIs(up, align, 0, up); }
  }
}
