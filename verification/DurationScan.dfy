/** How the scanner of duration.c moves over a text. */
module DurationScan {
  import opened CStrings
  import opened Digits
  import opened DurationSpec
  import opened Options

  // -------------------------------------------------------------- the cursor

  predicate IsDesignator(k: char) { k in "YMDHS." }

  lemma {:induction false} BlanksHideNothing(s: string, k: char)
    requires !IsBlank(k)
    ensures StrChr(SkipBlanks(s), k) == StrChr(s, k)
  {
    if s == "" || !IsBlank(s[0]) {
    } else {
      BlanksHideNothing(s[1..], k);
    }
  }

  lemma {:induction false} DigitsHideNothing(s: string, k: char)
    requires !IsDigit(k)
    ensures StrChr(s[DigitRun(s)..], k) == StrChr(s, k)
  {
    if s == "" || !IsDigit(s[0]) {
    } else {
      DigitsHideNothing(s[1..], k);
      assert s[DigitRun(s)..] == s[1..][DigitRun(s[1..])..];
    }
  }

  /** After scanning an item, `strchr` for its designator finds the place where
      the scan stopped: no designator can occur in blanks, sign or digits. */
  lemma CursorLands(s: string)
    requires ScanItem(s).Some? && IsDesignator(ScanItem(s).value.k)
    ensures StrChr(s, ScanItem(s).value.k) == Some(ScanLong(s).value.1)
  {
    var k := ScanItem(s).value.k;
    BlanksHideNothing(s, k);
    var t := SkipBlanks(s);
    var signed := t != "" && (t[0] == '-' || t[0] == '+');
    DigitsHideNothing(if signed then t[1..] else t, k);
  }

  function PrependAll<T>(items: seq<Item>, rest: Option<(seq<Item>, T)>): Option<(seq<Item>, T)> {
    match rest
    case None => None
    case Some((more, x)) => Some((items + more, x))
  }

  lemma PrependNothing<T>(rest: Option<(seq<Item>, T)>)
    ensures PrependAll([], rest) == rest
  {
    if rest.Some? { assert [] + rest.value.0 == rest.value.0; }
  }

  lemma PrependAllCons<T>(items: seq<Item>, rest: Option<(seq<Item>, T)>)
    requires items != []
    ensures Prepend(items[0], PrependAll(items[1..], rest)) == PrependAll(items, rest)
  {
    if rest.Some? {
      assert [items[0]] + (items[1..] + rest.value.0) == items + rest.value.0;
    }
  }

  lemma PrependAllStep<T>(items: seq<Item>, item: Item, rest: Option<(seq<Item>, T)>)
    ensures PrependAll(items, Prepend(item, rest)) == PrependAll(items + [item], rest)
  {
    if rest.Some? {
      assert items + ([item] + rest.value.0) == (items + [item]) + rest.value.0;
    }
  }

  // ------------------------------------------------------------ the printout

  /** Dividing step by step gives the same parts as dividing at once. */
  lemma SplitInSteps(u: nat)
    ensures u / 1000 % 60 == Split(u).s && u / 1000 / 60 % 60 == Split(u).m
    ensures u / 1000 / 60 / 60 % 24 == Split(u).h && u / 1000 / 60 / 60 / 24 == Split(u).d
  {
    assert u / 1000 / 60 == u / 60_000;
    assert u / 60_000 / 60 == u / 3_600_000;
    assert u / 3_600_000 / 24 == u / 86_400_000;
  }

  lemma SplitRecombines(u: nat)
    ensures var p := Split(u);
            && p.h < 24 && p.m < 60 && p.s < 60 && p.f < 1000
            && u == (((p.d * 24 + p.h) * 60 + p.m) * 60 + p.s) * 1000 + p.f
  {
    SplitInSteps(u);
  }

  lemma PartsArePrintable(u: nat)
    requires u <= LONG64_MAX
    ensures var p := Split(u);
            && |Decimal(p.d)| <= 12 && '\0' !in Decimal(p.d)
            && |Decimal(p.h)| <= 2 && '\0' !in Decimal(p.h)
            && |Decimal(p.m)| <= 2 && '\0' !in Decimal(p.m)
            && |Decimal(p.s)| <= 2 && '\0' !in Decimal(p.s)
            && '\0' !in Positional(p.f, 3, 10)
            && p.d <= 106_751_991_167
  {
    var p := Split(u);
    DecimalReads(p.d); DecimalReads(p.h); DecimalReads(p.m); DecimalReads(p.s);
    assert Power10(2) == 100 && Power10(12) == 1_000_000_000_000 && Power10(3) == 1000;
    DecimalLength(p.d, 12, Power10(12));
    DecimalLength(p.h, 2, 100);
    DecimalLength(p.m, 2, 100);
    DecimalLength(p.s, 2, 100);
    PaddedReads(p.f, 3);
  }

  /** Both halves of the text are short and free of NUL. */
  lemma TextIsPrintable(u: nat)
    requires u <= LONG64_MAX
    ensures var p := Split(u);
            && |DayText(p.d)| <= 13 && '\0' !in DayText(p.d)
            && |ClockText(p)| <= 14 && '\0' !in ClockText(p)
  {
    PartsArePrintable(u);
  }
}
