/** Two's-complement bit operations on unbounded integers, and powers of two.

    On operands that fit a C integer type these agree with the C operators on a
    two's-complement machine, so one definition serves `int`, `short` and `long`. */
module Bitwise {

  function Pow2(n: nat): (p: nat)
    ensures p > 0
  {
    if n == 0 then 1 else 2 * Pow2(n - 1)
  }

  ghost predicate IsPow2(k: int) {
    exists n: nat :: Pow2(n) == k
  }

  /** Bitwise conjunction: `x / 2` and `x % 2` round towards minus infinity, so
      they shift right and read the lowest bit, also for negative `x`. */
  function And(x: int, y: int): int
    decreases if x >= 0 then x else -x - 1
  {
    if x == 0 then 0
    else if x == -1 then y
    else 2 * And(x / 2, y / 2) + if x % 2 == 1 && y % 2 == 1 then 1 else 0
  }

  function Not(x: int): int { -x - 1 }

  /** Bits of either operand, each counted once. */
  function Or(x: int, y: int): int { x + y - And(x, y) }

  lemma AndStep(x: int, y: int)
    ensures And(x, y) == 2 * And(x / 2, y / 2) + if x % 2 == 1 && y % 2 == 1 then 1 else 0
  {
  }

  /** Every bit of `x` lies in `y` or in its complement. */
  lemma {:induction false} AndSplits(x: int, y: int)
    ensures And(x, y) + And(x, Not(y)) == x
    decreases if x >= 0 then x else -x - 1
  {
    if x == 0 || x == -1 {
    } else {
      AndSplits(x / 2, y / 2);
      assert Not(y) / 2 == Not(y / 2);
    }
  }

  lemma {:induction false} AndSelf(x: nat)
    ensures And(x, x) == x
  {
    if x == 0 {
    } else {
      AndSelf(x / 2);
    }
  }

  /** The mask `2^k - 1` keeps the remainder. */
  lemma {:induction false} LowMask(x: int, k: nat)
    ensures And(x, Pow2(k) - 1) == x % Pow2(k)
    decreases k
  {
    if k == 0 {
      AndZero(x);
    } else {
      var p := Pow2(k - 1);
      var mask := Pow2(k) - 1;
      HalfOfOdd(p);
      AndStep(x, mask);
      LowMask(x / 2, k - 1);
      HalvedRemainder(x, p);
    }
  }

  lemma HalfOfOdd(p: int)
    ensures (2 * p - 1) / 2 == p - 1 && (2 * p - 1) % 2 == 1
  {
  }

  lemma {:induction false} AndZero(x: int)
    ensures And(x, 0) == 0
    decreases if x >= 0 then x else -x - 1
  {
    if x == 0 || x == -1 {
    } else {
      AndZero(x / 2);
    }
  }

  lemma HalvedRemainder(x: int, p: nat)
    requires p > 0
    ensures x % (2 * p) == 2 * ((x / 2) % p) + x % 2
  {
    var q, r := (x / 2) / p, 2 * ((x / 2) % p) + x % 2;
    assert x == 2 * (q * p + (x / 2) % p) + x % 2;
    RemainderIs(x, 2 * p, q, r);
  }

  /** A quotient and an in-range remainder are the division's own. */
  lemma RemainderIs(x: int, d: int, q: int, r: int)
    requires d > 0 && x == q * (d) + r && 0 <= r < d
    ensures x % d == r && x / d == q
  {
    var k := x / d - q;
    assert x == d * (x / d) + x % d;
    assert k * d == r - x % d;
    SmallMultiple(k, d);
  }

  lemma SmallMultiple(k: int, d: int)
    requires -d < k * d < d
    ensures k == 0
  {
  }

  /** The mask `~(2^k - 1)` drops the remainder. */
  lemma HighMask(x: int, k: nat)
    ensures And(x, Not(Pow2(k) - 1)) == x - x % Pow2(k)
  {
    AndSplits(x, Pow2(k) - 1);
    LowMask(x, k);
  }

  /** Bits at and above position `k` are disjoint from a value below `2^k`. */
  lemma {:induction false} AndDisjoint(x: nat, k: nat)
    requires x < Pow2(k)
    ensures And(x, Pow2(k)) == 0
  {
    AndStep(x, Pow2(k));
    if k == 0 {
      AndZero(0);
    } else {
      AndDisjoint(x / 2, k - 1);
    }
  }

  /** The test `k & (k - 1)` recognises exactly the powers of two. */
  lemma {:induction false} PowerOfTwoTest(k: int)
    requires k > 0
    ensures And(k, k - 1) == 0 <==> IsPow2(k)
  {
    if k == 1 {
      assert Pow2(0) == 1;
    } else if k % 2 == 0 {
      PowerOfTwoTest(k / 2);
      Pow2Halves(k / 2);
      assert (k - 1) / 2 == k / 2 - 1;
      AndStep(k, k - 1);
    } else {
      AndSelf(k / 2);
      AndStep(k, k - 1);
      assert (k - 1) / 2 == k / 2;
      OddIsNotPow2(k);
    }
  }

  lemma Pow2Halves(h: int)
    requires h > 0
    ensures IsPow2(h) <==> IsPow2(2 * h)
  {
    if IsPow2(h) {
      var n: nat :| Pow2(n) == h;
      assert Pow2(n + 1) == 2 * h;
    }
    if IsPow2(2 * h) {
      var n: nat :| Pow2(n) == 2 * h;
      assert Pow2(n - 1) == h;
    }
  }

  lemma OddIsNotPow2(k: int)
    requires k > 1 && k % 2 == 1
    ensures !IsPow2(k)
  {
    forall n: nat
      ensures Pow2(n) != k
    {
    }
  }

  lemma {:induction false} Pow2Sum(m: nat, n: nat)
    ensures Pow2(m + n) == Pow2(m) * Pow2(n)
  {
    if m == 0 {
    } else {
      Pow2Sum(m - 1, n);
      assert Pow2(m + n) == 2 * Pow2((m - 1) + n);
    }
  }

  lemma {:induction false} Pow2Monotone(m: nat, n: nat)
    requires m <= n
    ensures Pow2(m) <= Pow2(n)
    decreases n
  {
    if m == n {
    } else {
      Pow2Monotone(m, n - 1);
    }
  }

  lemma Pow2Values()
    ensures Pow2(4) == 0x10 && Pow2(12) == 0x1000 && Pow2(14) == 0x4000 && Pow2(15) == 0x8000
    ensures Pow2(16) == 0x1_0000 && Pow2(23) == 0x80_0000 && Pow2(28) == 0x1000_0000 && Pow2(30) == 0x4000_0000
    ensures Pow2(31) == 0x8000_0000 && Pow2(32) == 0x1_0000_0000
  {
  }
}
