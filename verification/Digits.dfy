/** Numbers as digit strings: what `%lld`, `%03d` and `%8.8x` print, and what a
    scanner makes of a run of decimal digits. */
module Digits {

  predicate IsDigit(c: char) { '0' <= c <= '9' }

  predicate IsHexDigit(c: char) { IsDigit(c) || 'a' <= c <= 'f' }

  predicate AllDigits(s: string) { forall i | 0 <= i < |s| :: IsDigit(s[i]) }

  function DigitChar(d: nat): (c: char)
    requires d < 16
    ensures IsHexDigit(c) && (d < 10 ==> IsDigit(c))
  {
    if d < 10 then '0' + d as char else 'a' + (d - 10) as char
  }

  /** The lowest `width` digits of `n`, most significant first. */
  function Positional(n: nat, width: nat, base: nat): (s: string)
    requires 2 <= base <= 16
    ensures |s| == width
  {
    if width == 0 then "" else Positional(n / base, width - 1, base) + [DigitChar(n % base)]
  }

  /** Decimal notation without leading zeros. */
  function Decimal(n: nat): (s: string)
    ensures s != ""
  {
    if n < 10 then [DigitChar(n)] else Decimal(n / 10) + [DigitChar(n % 10)]
  }

  function DigitValue(c: char): nat
    requires IsDigit(c)
  {
    (c - '0') as nat
  }

  /** The number a run of decimal digits stands for. */
  function Value(s: string): nat
    requires AllDigits(s)
  {
    if s == "" then 0 else 10 * Value(s[..|s| - 1]) + DigitValue(s[|s| - 1])
  }

  lemma AppendDigit(t: string, d: nat)
    requires AllDigits(t) && d < 10
    ensures AllDigits(t + [DigitChar(d)]) && Value(t + [DigitChar(d)]) == 10 * Value(t) + d
  {
    assert (t + [DigitChar(d)])[..|t|] == t;
  }

  lemma {:induction false} DecimalReads(n: nat)
    ensures AllDigits(Decimal(n)) && Value(Decimal(n)) == n
  {
    if n < 10 {
    } else {
      DecimalReads(n / 10);
      AppendDigit(Decimal(n / 10), n % 10);
    }
  }

  lemma {:induction false} DecimalLength(n: nat, k: nat, bound: nat)
    requires k > 0 && bound == Power10(k) && n < bound
    ensures |Decimal(n)| <= k
  {
    if n < 10 {
    } else {
      DecimalLength(n / 10, k - 1, bound / 10);
    }
  }

  function Power10(k: nat): (p: nat)
    ensures p > 0
  {
    if k == 0 then 1 else 10 * Power10(k - 1)
  }

  lemma {:induction false} PaddedReads(n: nat, width: nat)
    requires n < Power10(width)
    ensures AllDigits(Positional(n, width, 10)) && Value(Positional(n, width, 10)) == n
  {
    if width == 0 {
    } else {
      PaddedReads(n / 10, width - 1);
      AppendDigit(Positional(n / 10, width - 1, 10), n % 10);
    }
  }

  lemma {:induction false} HexDigitsOnly(n: nat, width: nat)
    ensures forall i | 0 <= i < width :: IsHexDigit(Positional(n, width, 16)[i])
  {
    if width == 0 {
    } else {
      HexDigitsOnly(n / 16, width - 1);
    }
  }

  predicate IsHex(s: string) { forall i | 0 <= i < |s| :: IsHexDigit(s[i]) }

  /** The number a run of hexadecimal digits stands for. */
  function HexValue(s: string): nat
    requires IsHex(s)
  {
    if s == "" then 0
    else
      var c := s[|s| - 1];
      16 * HexValue(s[..|s| - 1]) + (if IsDigit(c) then DigitValue(c) else 10 + (c - 'a') as nat)
  }

  lemma {:induction false} HexReads(n: nat, width: nat)
    requires n < Power16(width)
    ensures IsHex(Positional(n, width, 16)) && HexValue(Positional(n, width, 16)) == n
  {
    if width == 0 {
    } else {
      var t := Positional(n / 16, width - 1, 16);
      HexReads(n / 16, width - 1);
      assert (t + [DigitChar(n % 16)])[..|t|] == t;
    }
  }

  function Power16(k: nat): nat {
    if k == 0 then 1 else 16 * Power16(k - 1)
  }

  /** A hexadecimal field wide enough for its value determines it. */
  lemma {:induction false} HexInjective(m: nat, n: nat, width: nat)
    requires m < Power16(width) && n < Power16(width)
    requires Positional(m, width, 16) == Positional(n, width, 16)
    ensures m == n
  {
    if width == 0 {
    } else {
      var s, t := Positional(m, width, 16), Positional(n, width, 16);
      assert s[..width - 1] == Positional(m / 16, width - 1, 16);
      assert t[..width - 1] == Positional(n / 16, width - 1, 16);
      HexInjective(m / 16, n / 16, width - 1);
      assert s[width - 1] == DigitChar(m % 16) && t[width - 1] == DigitChar(n % 16);
    }
  }
}
