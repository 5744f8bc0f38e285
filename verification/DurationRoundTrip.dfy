/** What printing followed by parsing does to a duration. */
module DurationRoundTrip {
  import opened Bitwise
  import opened Digits
  import opened DurationScan
  import opened DurationSpec
  import opened Options

  // --------------------------------------------------- reading rendered items

  /** Items, without their signs, in the notation of section 3.2.6 of XML Schema Part 2. */
  function Render(items: seq<Item>): string {
    if items == [] then "" else RenderItem(items[0]) + Render(items[1..])
  }

  function RenderItem(item: Item): string { Decimal(Abs(item.n)) + [item.k] }

  predicate Renderable(items: seq<Item>, designators: string) {
    forall item | item in items :: item.n >= 0 && item.k in designators
  }

  lemma {:induction false} DigitRunEnds(p: string, rest: string)
    requires AllDigits(p) && (rest != "" ==> !IsDigit(rest[0]))
    ensures DigitRun(p + rest) == |p|
  {
    if p == "" {
      assert p + rest == rest;
    } else {
      DigitRunEnds(p[1..], rest);
      assert (p + rest)[1..] == p[1..] + rest;
    }
  }

  /** A run of digits scans as its value, up to the first other character. */
  lemma DigitsScan(p: string, rest: string)
    requires AllDigits(p) && p != "" && rest != "" && !IsDigit(rest[0])
    ensures ScanLong(p + rest) == Some((Value(p), rest))
  {
    var s := p + rest;
    DigitRunEnds(p, rest);
    assert s[0] == p[0] && IsDigit(s[0]);
    assert SkipBlanks(s) == s && DigitRun(s) == |p|;
    assert s[..|p|] == p && s[|p|..] == rest;
  }

  /** A printed number scans as itself. */
  lemma DecimalScans(n: nat, rest: string)
    requires rest != "" && !IsDigit(rest[0])
    ensures ScanLong(Decimal(n) + rest) == Some((n, rest))
  {
    DecimalReads(n);
    DigitsScan(Decimal(n), rest);
  }

  lemma ItemScans(item: Item, tail: string)
    requires item.n >= 0 && !IsDigit(item.k)
    ensures var s := RenderItem(item) + tail;
            ScanItem(s) == Some(item) && AfterItem(s) == tail && IsDigit(s[0])
  {
    var s := RenderItem(item) + tail;
    assert s == Decimal(item.n) + ([item.k] + tail);
    DecimalScans(item.n, [item.k] + tail);
    DecimalReads(item.n);
    assert s[0] == Decimal(item.n)[0];
  }

  lemma RenderSplits(items: seq<Item>, tail: string)
    requires items != []
    ensures Render(items) + tail == RenderItem(items[0]) + (Render(items[1..]) + tail)
  {
  }

  /** A rendered date part reads back as the items it was made of. */
  lemma {:induction false} DateReads(items: seq<Item>, tail: string)
    requires Renderable(items, "YMD") && (tail != "" ==> tail[0] == 'T')
    ensures DateItems(Render(items) + tail) == Some((items, if tail == "" then "" else tail[1..]))
  {
    if items == [] {
      assert Render(items) + tail == tail;
    } else {
      RenderSplits(items, tail);
      ItemScans(items[0], Render(items[1..]) + tail);
      DateReads(items[1..], tail);
      assert [items[0]] + items[1..] == items;
    }
  }

  /** A rendered time part reads back as its items followed by whatever the
      text after them reads as. */
  lemma {:induction false} TimeReads(items: seq<Item>, tail: string, readFloat: FloatReader)
    requires Renderable(items, "HMS")
    ensures TimeItems(Render(items) + tail, readFloat) == PrependAll(items, TimeItems(tail, readFloat))
  {
    if items == [] {
      assert Render(items) + tail == tail;
      PrependNothing(TimeItems(tail, readFloat));
    } else {
      RenderSplits(items, tail);
      ItemScans(items[0], Render(items[1..]) + tail);
      TimeReads(items[1..], tail, readFloat);
      PrependAllCons(items, TimeItems(tail, readFloat));
    }
  }

  /** Seconds with a fraction: the scan stops at the fraction, whatever follows. */
  lemma FractionReads(n: nat, fraction: string, readFloat: FloatReader)
    requires fraction != "" && fraction[0] == '.' && readFloat(fraction).Some?
    ensures TimeItems(Decimal(n) + fraction, readFloat) == Some(([Item(n, 'S')], readFloat(fraction).value))
  {
    DecimalScans(n, fraction);
  }

  function RenderAll(negative: bool, date: seq<Item>, time: seq<Item>): string {
    SignText(if negative then -1 else 0) + Render(date) + ("T" + Render(time))
  }

  /** Parsing inverts rendering, for every list of items in every order. */
  lemma RenderedReads(negative: bool, date: seq<Item>, time: seq<Item>, readFloat: FloatReader)
    requires Renderable(date, "YMD") && Renderable(time, "HMS")
    ensures Parse(RenderAll(negative, date, time), readFloat) == Some(Reading(negative, date, time, 0.0))
  {
    SignFirst(if negative then -1 else 0, Render(date), "T" + Render(time));
    DateReads(date, "T" + Render(time));
    TimeReads(time, "", readFloat);
    assert ("T" + Render(time))[1..] == Render(time) + "";
    assert time + [] == time;
  }

  // ------------------------------------------------------- reading a printout

  function DayItems(d: nat): seq<Item> { if d > 0 then [Item(d, 'D')] else [] }

  function ClockItems(p: Parts): seq<Item> {
    if p.f > 0 || p.h > 0 then [Item(p.h, 'H'), Item(p.m, 'M'), Item(p.s, 'S')]
    else if p.m > 0 then [Item(p.m, 'M'), Item(p.s, 'S')]
    else if p.s > 0 || p.d == 0 then [Item(p.s, 'S')]
    else []
  }

  /** The reader accepts the fraction of this count, if it has one. */
  predicate FractionAccepted(u: nat, readFloat: FloatReader) {
    u % 1000 > 0 ==> readFloat(FractionText(u % 1000)).Some?
  }

  function FractionRead(u: nat, readFloat: FloatReader): real {
    if FractionAccepted(u, readFloat) && u % 1000 > 0 then readFloat(FractionText(u % 1000)).value else 0.0
  }

  /** What a printed text lists. */
  function TextReading(a: int, readFloat: FloatReader): Reading {
    var p := Split(Abs(a));
    Reading(a < 0, DayItems(p.d), ClockItems(p), FractionRead(Abs(a), readFloat))
  }

  lemma RenderCons(x: Item, more: seq<Item>)
    ensures Render([x] + more) == RenderItem(x) + Render(more)
  {
    assert ([x] + more)[1..] == more;
  }

  lemma RenderUpToThree(x: Item, y: Item, z: Item)
    ensures Render([z]) == RenderItem(z)
    ensures Render([y, z]) == RenderItem(y) + RenderItem(z)
    ensures Render([x, y, z]) == RenderItem(x) + RenderItem(y) + RenderItem(z)
  {
    RenderCons(z, []);
    RenderCons(y, [z]);
    RenderCons(x, [y, z]);
    assert [z] + [] == [z] && [y] + [z] == [y, z] && [x] + [y, z] == [x, y, z];
    assert RenderItem(z) + "" == RenderItem(z);
    assert RenderItem(x) + (RenderItem(y) + RenderItem(z)) == RenderItem(x) + RenderItem(y) + RenderItem(z);
  }

  /** The clock part of a printout without a fraction is its items rendered. */
  lemma ClockRenders(p: Parts)
    requires p.f == 0
    ensures ClockText(p) == if ClockItems(p) == [] then "" else "T" + Render(ClockItems(p))
  {
    var h, m, s := Decimal(p.h), Decimal(p.m), Decimal(p.s);
    RenderUpToThree(Item(p.h, 'H'), Item(p.m, 'M'), Item(p.s, 'S'));
    if p.h > 0 {
      ThreePairs(h, m, s);
    } else if p.m > 0 {
      TwoPairs(m, s);
    } else if p.s > 0 || p.d == 0 {
      assert "T" + s + "S" == "T" + (s + "S");
    }
  }

  lemma ThreePairs(h: string, m: string, s: string)
    ensures "T" + h + "H" + m + "M" + s + "S" == "T" + ((h + "H") + (m + "M") + (s + "S"))
  {
  }

  lemma TwoPairs(m: string, s: string)
    ensures "T" + m + "M" + s + "S" == "T" + ((m + "M") + (s + "S"))
  {
  }

  lemma ClockReads(p: Parts, readFloat: FloatReader)
    requires p.f == 0 && ClockText(p) != ""
    ensures TimeItems(ClockText(p)[1..], readFloat) == Some((ClockItems(p), 0.0))
  {
    ClockRenders(p);
    assert ClockText(p)[1..] == Render(ClockItems(p)) + "";
    TimeReads(ClockItems(p), "", readFloat);
    assert ClockItems(p) + [] == ClockItems(p);
  }

  lemma FractionClockText(p: Parts)
    requires p.f > 0
    ensures ClockText(p)[1..]
            == RenderItem(Item(p.h, 'H')) + RenderItem(Item(p.m, 'M')) + (Decimal(p.s) + FractionText(p.f))
  {
    var hours, minutes := RenderItem(Item(p.h, 'H')), RenderItem(Item(p.m, 'M'));
    assert ClockText(p) == "T" + (hours + minutes + (Decimal(p.s) + FractionText(p.f)));
  }

  lemma FractionClockReads(p: Parts, readFloat: FloatReader)
    requires p.f > 0 && readFloat(FractionText(p.f)).Some?
    ensures TimeItems(ClockText(p)[1..], readFloat) == Some((ClockItems(p), readFloat(FractionText(p.f)).value))
  {
    var h, m, s := Item(p.h, 'H'), Item(p.m, 'M'), Item(p.s, 'S');
    RenderUpToThree(h, h, m);
    var seconds := Decimal(p.s) + FractionText(p.f);
    FractionReads(p.s, FractionText(p.f), readFloat);
    FractionClockText(p);
    TimeReads([h, m], seconds, readFloat);
    assert [h, m] + [s] == [h, m, s];
  }

  lemma TextAfterP(a: int)
    ensures var p := Split(Abs(a)); var t := Unsigned(Text(a));
            t != "" && t[0] == 'P' && t[1..] == Render(DayItems(p.d)) + ClockText(p) && (Text(a)[0] == '-' <==> a < 0)
  {
    var p := Split(Abs(a));
    var d := Item(p.d, 'D');
    RenderUpToThree(d, d, d);
    SignFirst(a, DayText(p.d), ClockText(p));
  }

  lemma SignFirst(a: int, days: string, clock: string)
    ensures var s := SignText(a) + days + clock;
            s[0] == (if a < 0 then '-' else 'P') && Unsigned(s) == "P" + (days + clock)
                && Unsigned(s)[1..] == days + clock
  {
    var s := SignText(a) + days + clock;
    assert s == SignText(a) + (days + clock);
    assert Unsigned(s) == "P" + (days + clock);
  }

  lemma ClockStarts(p: Parts)
    ensures ClockText(p) != "" ==> ClockText(p)[0] == 'T'
    ensures ClockText(p) == "" ==> ClockItems(p) == [] && p.f == 0
  {
  }

  lemma DaysRender(p: Parts)
    ensures Renderable(DayItems(p.d), "YMD")
  {
  }

  /** Every printed text is accepted, and lists exactly the parts printed. */
  lemma TextReads(a: int, readFloat: FloatReader)
    requires FractionAccepted(Abs(a), readFloat)
    ensures Parse(Text(a), readFloat) == Some(TextReading(a, readFloat))
  {
    hide Text, ClockText, DayItems, ClockItems, DateItems;
    var p := Split(Abs(a));
    TextAfterP(a);
    ClockStarts(p);
    DaysRender(p);
    DateReads(DayItems(p.d), ClockText(p));
    if p.f > 0 {
      FractionClockReads(p, readFloat);
    } else if ClockText(p) != "" {
      ClockReads(p, readFloat);
    }
  }

  lemma LastSnoc(items: seq<Item>, x: Item, k: char)
    ensures Last(items + [x], k) == if x.k == k then x.n else Last(items, k)
  {
    assert (items + [x])[..|items|] == items;
  }

  lemma LastOfThree(x: Item, y: Item, z: Item, k: char)
    ensures Last([z], k) == if z.k == k then z.n else 0
    ensures Last([y, z], k) == if z.k == k then z.n else if y.k == k then y.n else 0
    ensures Last([x, y, z], k) == if z.k == k then z.n else if y.k == k then y.n else if x.k == k then x.n else 0
  {
    LastSnoc([], x, k); LastSnoc([], y, k); LastSnoc([], z, k);
    LastSnoc([y], z, k); LastSnoc([x], y, k); LastSnoc([x, y], z, k);
    assert [] + [x] == [x] && [] + [y] == [y] && [] + [z] == [z];
    assert [y] + [z] == [y, z] && [x] + [y] == [x, y] && [x, y] + [z] == [x, y, z];
  }

  lemma LastOfParts(p: Parts)
    ensures Last(DayItems(p.d), 'Y') == 0 && Last(DayItems(p.d), 'M') == 0 && Last(DayItems(p.d), 'D') == p.d
    ensures Last(ClockItems(p), 'S') == p.s
    ensures Last(ClockItems(p), 'M') == p.m
    ensures Last(ClockItems(p), 'H') == p.h
  {
    var d, h, m, s := Item(p.d, 'D'), Item(p.h, 'H'), Item(p.m, 'M'), Item(p.s, 'S');
    LastOfThree(d, d, d, 'Y'); LastOfThree(d, d, d, 'M'); LastOfThree(d, d, d, 'D');
    LastOfThree(h, m, s, 'H'); LastOfThree(h, m, s, 'M'); LastOfThree(h, m, s, 'S');
  }

  /** The central fact: everything but the milliseconds survives, and these
      are replaced by what the reader makes of the printed fraction. */
  lemma TextTotal(a: int, readFloat: FloatReader)
    ensures var r := TextReading(a, readFloat);
            && 1000 * Seconds(r) == Abs(a) - Abs(a) % 1000
            && Total(r) == (if a < 0 then -1 else 1) * (Abs(a) - Abs(a) % 1000 + Millis(r))
  {
    LastOfParts(Split(Abs(a)));
    SplitRecombines(Abs(a));
  }

  /** No intermediate result of the conversion exceeds the printed count. */
  lemma TextNeverOverflows(a: int, readFloat: FloatReader)
    requires 0 <= Millis(TextReading(a, readFloat)) <= Abs(a) % 1000
    ensures StepsWithin(TextReading(a, readFloat), 0 - Abs(a), Abs(a))
  {
    LastOfParts(Split(Abs(a)));
    SplitRecombines(Abs(a));
  }

  /** The parser accepts the printed text of `a`, without overflow and with a fraction
      below one second, and makes `b` of it. */
  ghost predicate ReadsBack(a: int, readFloat: FloatReader, b: int) {
    var r := TextReading(a, readFloat);
    && Parse(Text(a), readFloat) == Some(r)
    && StepsWithin(r, 0 - Abs(a), Abs(a)) && 0 <= Millis(r) < 1000
    && Total(r) == b
  }

  predicate Fitting(items: seq<Item>) { forall item | item in items :: Within(item.n, LONG64_MIN, LONG64_MAX) }

  lemma {:induction false} RenderedDateFits(items: seq<Item>, tail: string)
    requires Renderable(items, "YMD") && Fitting(items) && (tail != "" ==> tail[0] == 'T' && TimeFits(tail[1..]))
    ensures DateFits(Render(items) + tail)
  {
    if items == [] {
      assert Render(items) + tail == tail;
    } else {
      RenderSplits(items, tail);
      ItemScans(items[0], Render(items[1..]) + tail);
      RenderedDateFits(items[1..], tail);
    }
  }

  lemma {:induction false} RenderedTimeFits(items: seq<Item>, tail: string)
    requires Renderable(items, "HMS") && Fitting(items) && TimeFits(tail)
    ensures TimeFits(Render(items) + tail)
  {
    if items == [] {
      assert Render(items) + tail == tail;
    } else {
      RenderSplits(items, tail);
      ItemScans(items[0], Render(items[1..]) + tail);
      RenderedTimeFits(items[1..], tail);
    }
  }

  lemma SecondsFit(n: nat, fraction: string)
    requires n < 60 && fraction != "" && fraction[0] == '.'
    ensures TimeFits(Decimal(n) + fraction)
  {
    DecimalScans(n, fraction);
  }

  lemma ClockFits(p: Parts)
    requires p.h < 24 && p.m < 60 && p.s < 60 && ClockText(p) != ""
    ensures TimeFits(ClockText(p)[1..])
  {
    hide TimeFits, ClockText;
    var h, m := Item(p.h, 'H'), Item(p.m, 'M');
    if p.f == 0 {
      ClockRenders(p);
      assert ClockText(p)[1..] == Render(ClockItems(p)) + "";
      RenderedTimeFits(ClockItems(p), "");
    } else {
      var seconds := Decimal(p.s) + FractionText(p.f);
      SecondsFit(p.s, FractionText(p.f));
      FractionClockText(p);
      RenderUpToThree(h, h, m);
      RenderedTimeFits([h, m], seconds);
    }
  }

  lemma TextFits(a: int)
    requires LONG64_MIN < a <= LONG64_MAX
    ensures NumbersFit(Text(a))
  {
    var p := Split(Abs(a));
    TextAfterP(a);
    SplitRecombines(Abs(a));
    if ClockText(p) != "" { ClockFits(p); }
    RenderedDateFits(DayItems(p.d), ClockText(p));
  }

  /** Printing and parsing compose without a violated precondition. */
  lemma ReadsBackFits(a: int, readFloat: FloatReader, b: int)
    requires LONG64_MIN < a <= LONG64_MAX && ReadsBack(a, readFloat, b)
    ensures Representable(Text(a), readFloat)
  {
    hide Text, Parse, TextReading, Last, Total, Millis, ChainWithin, NumbersFit;
    var r := TextReading(a, readFloat);
    ChainWidens(Last(r.date, 'Y'), Last(r.date, 'M'), Last(r.date, 'D'), Last(r.time, 'H'), Last(r.time, 'M'),
                Last(r.time, 'S'),
                Millis(r), r.negative, Abs(a), LONG64_MIN, LONG64_MAX);
    TextFits(a);
    FitsByReading(Text(a), r, readFloat);
  }

  lemma FitsByReading(s: string, r: Reading, readFloat: FloatReader)
    requires NumbersFit(s) && Parse(s, readFloat) == Some(r)
    requires StepsWithin(r, LONG64_MIN, LONG64_MAX) && 0 <= Millis(r) < 1000
    ensures Representable(s, readFloat)
  {
    hide Parse, NumbersFit, StepsWithin, Millis;
  }

  lemma ChainWidens(y: int, mo: int, d: int, h: int, n: int, s: int, ms: int, negative: bool, bound: int, lo: int,
                    hi: int)
    requires lo <= -bound && bound <= hi && ChainWithin(y, mo, d, h, n, s, ms, negative, -bound, bound)
    ensures ChainWithin(y, mo, d, h, n, s, ms, negative, lo, hi)
  {
  }

  // -------------------------------------------------------------- main results

  /** What printing and parsing a count comes to. */
  function Back(a: int, millis: int): int { (if a < 0 then -1 else 1) * (Abs(a) - Abs(a) % 1000 + millis) }

  lemma MillisRead(a: int, readFloat: FloatReader)
    ensures var f := Abs(a) % 1000;
            Millis(TextReading(a, readFloat))
            == if f > 0 && readFloat(FractionText(f)).Some? then Truncate(1000.0 * readFloat(FractionText(f)).value)
                else 0
  {
  }

  /** If the reader takes the fraction, and makes no more of it than it is, the text
      is read back with the milliseconds that the reader gives. */
  lemma ReadsBackWith(a: int, readFloat: FloatReader, millis: int)
    requires FractionAccepted(Abs(a), readFloat)
    requires millis == Millis(TextReading(a, readFloat)) && 0 <= millis <= Abs(a) % 1000
    ensures ReadsBack(a, readFloat, Back(a, millis))
  {
    hide Text, Parse, StepsWithin, TextReading, Total, Millis, FractionAccepted;
    TextReads(a, readFloat);
    TextTotal(a, readFloat);
    TextNeverOverflows(a, readFloat);
  }

  /** Whole seconds survive exactly, whatever the C library does with fractions. */
  lemma WholeSecondsSurvive(a: int, readFloat: FloatReader)
    requires a % 1000 == 0
    ensures ReadsBack(a, readFloat, a)
  {
    hide ReadsBack, Millis, TextReading;
    assert Abs(a) % 1000 == 0;
    MillisRead(a, readFloat);
    ReadsBackWith(a, readFloat, 0);
  }

  /** The reader accepts every printed fraction and is off by at most one part
      in 2^24: rounding to single precision at its worst. */
  ghost predicate ReadsClosely(readFloat: FloatReader) {
    forall f: nat | 0 < f < 1000 :: Close(f, readFloat(FractionText(f)))
  }

  predicate Close(f: nat, v: Option<real>) {
    v.Some? && -(f as real) <= 16_777_216.0 * (1000.0 * v.value - f as real) <= f as real
  }

  lemma CloseTruncates(f: nat, v: Option<real>)
    requires 0 < f < 1000 && Close(f, v)
    ensures f - 1 <= Truncate(1000.0 * v.value) <= f
  {
    assert f as real - 1.0 < 1000.0 * v.value < f as real + 1.0;
  }

  lemma BackIsNear(a: int, millis: int)
    requires var f := Abs(a) % 1000; 0 <= millis <= f && (f > 0 ==> f - 1 <= millis)
    ensures var b := Back(a, millis); Abs(a) - 1 <= Abs(b) <= Abs(a) && (b > 0 ==> a > 0) && (b < 0 ==> a < 0)
  {
  }

  /** Any duration survives up to one millisecond, and never grows. */
  lemma MillisecondsNearlySurvive(a: int, readFloat: FloatReader)
    requires ReadsClosely(readFloat)
    ensures exists b ::
              && ReadsBack(a, readFloat, b)
              && Abs(a) - 1 <= Abs(b) <= Abs(a) && (b > 0 ==> a > 0) && (b < 0 ==> a < 0)
  {
    hide ReadsBack, Millis, TextReading, FractionText, Truncate;
    var f, millis := Abs(a) % 1000, Millis(TextReading(a, readFloat));
    if f > 0 { CloseTruncates(f, readFloat(FractionText(f))); }
    MillisRead(a, readFloat);
    ReadsBackWith(a, readFloat, millis);
    BackIsNear(a, millis);
  }

  /** `f / 1000` lies between 2^-Exponent(f) and twice that. */
  function Exponent(f: nat): (e: nat)
    requires 0 < f < 1000
    ensures 1000 <= f * Pow2(e) < 2000 && e >= 1
    decreases 1000 - f
  {
    if f >= 500 then
      assert Pow2(1) == 2;
      1
    else
      var e := Exponent(2 * f);
      assert f * Pow2(e + 1) == (2 * f) * Pow2(e);
      e + 1
  }

  /** `v` is the single-precision number nearest to `f / 1000`: a multiple of
      2^-(23 + exponent), at most half a unit away. */
  ghost predicate Nearest(f: nat, v: Option<real>)
    requires 0 < f < 1000
  {
    var unit := Pow2(23 + Exponent(f));
    v.Some? && exists m: int :: IsUnits(v.value, unit, m) && Rounds(f, unit, m)
  }

  predicate IsUnits(v: real, unit: nat, m: int) { v * unit as real == m as real }

  predicate Rounds(f: nat, unit: nat, m: int) { -500 <= 1000 * m - f * unit <= 500 }

  ghost predicate ReadsNearest(readFloat: FloatReader) {
    forall f: nat | 0 < f < 1000 :: Nearest(f, readFloat(FractionText(f)))
  }

  /** The milliseconds whose single-precision image does not fall short. */
  predicate FractionSurvives(f: nat)
    requires f < 1000
  {
    f == 0 || var r := f * Pow2(20 + Exponent(f)) % 125; r == 0 || r >= 63
  }

  lemma ScaledBound(x: real, unit: nat, k: int, m: int)
    requires unit > 0 && IsUnits(x, unit, m)
    ensures x >= k as real <==> m >= k * unit
  {
    if x >= k as real { assert x * unit as real >= k as real * unit as real; }
    if x < k as real { assert x * unit as real < k as real * unit as real; }
  }

  lemma FloorNear(x: real, unit: nat, f: int, m: int)
    requires unit > 500 && IsUnits(x, unit, m) && -500 <= m - f * unit <= 500
    ensures x.Floor == if m >= f * unit then f else f - 1
  {
    assert (f - 1) * unit == f * unit - unit && (f + 1) * unit == f * unit + unit;
    ScaledBound(x, unit, f - 1, m);
    ScaledBound(x, unit, f, m);
    ScaledBound(x, unit, f + 1, m);
  }

  /** Rounding q / 125 to the nearest integer does not round down. */
  lemma RoundedUp(q: nat, m: int)
    requires -500 <= 1000 * m - 8 * q <= 500
    ensures 1000 * m >= 8 * q <==> q % 125 == 0 || q % 125 >= 63
  {
  }

  lemma UnitOf(f: nat)
    requires 0 < f < 1000
    ensures var unit := Pow2(23 + Exponent(f));
            unit > 500 && f * unit == 8 * (f * Pow2(20 + Exponent(f))) && f * unit >= 1000 * Pow2(23)
  {
    var e := Exponent(f);
    PowersOfUnit(e);
    UnitAlgebra(f, Pow2(23 + e), Pow2(20 + e), Pow2(23), Pow2(e));
  }

  lemma PowersOfUnit(e: nat)
    ensures Pow2(23 + e) == 8 * Pow2(20 + e) && Pow2(23 + e) == Pow2(23) * Pow2(e) && Pow2(23 + e) > 500
  {
    assert Pow2(23 + e) == 2 * Pow2(22 + e) && Pow2(22 + e) == 2 * Pow2(21 + e);
    Pow2Sum(23, e);
    Pow2Monotone(23, 23 + e);
    Pow2Values();
  }

  lemma UnitAlgebra(f: nat, p: nat, q: nat, a: nat, b: nat)
    requires p == 8 * q && p == a * b && f * b >= 1000
    ensures f * p == 8 * (f * q) && f * p >= 1000 * a
  {
    assert f * p == (f * b) * a;
  }

  lemma NearestTruncates(f: nat, v: Option<real>)
    requires 0 < f < 1000 && Nearest(f, v)
    ensures Truncate(1000.0 * v.value) == if FractionSurvives(f) then f else f - 1
  {
    hide Pow2, Exponent, Truncate;
    var unit, q := Pow2(23 + Exponent(f)), f * Pow2(20 + Exponent(f));
    var m: int :| IsUnits(v.value, unit, m) && Rounds(f, unit, m);
    UnitOf(f);
    UnitsTruncate(v.value, f, unit, q, m);
  }

  lemma UnitsTruncate(v: real, f: nat, unit: nat, q: nat, m: int)
    requires 0 < f && unit > 500 && f * unit == 8 * q && IsUnits(v, unit, m) && Rounds(f, unit, m)
    ensures Truncate(1000.0 * v) == if q % 125 == 0 || q % 125 >= 63 then f else f - 1
  {
    RoundedUp(q, m);
    ScaleUnits(v, unit, m);
    FloorNear(1000.0 * v, unit, f, 1000 * m);
  }

  lemma ScaleUnits(v: real, unit: nat, m: int)
    requires IsUnits(v, unit, m)
    ensures IsUnits(1000.0 * v, unit, 1000 * m)
  {
    assert (1000.0 * v) * unit as real == 1000.0 * (v * unit as real);
  }

  function Surviving(a: int): int {
    if FractionSurvives(Abs(a) % 1000) then a else if a < 0 then a + 1 else a - 1
  }

  lemma NothingSurvives()
    ensures FractionSurvives(0)
  {
  }

  lemma NearestAccepted(f: nat, readFloat: FloatReader)
    requires f < 1000 && ReadsNearest(readFloat)
    ensures f > 0 ==> readFloat(FractionText(f)).Some?
  {
    hide FractionText;
    assert f > 0 ==> Nearest(f, readFloat(FractionText(f)));
  }

  /** With correct rounding, a duration survives exactly when the image of its
      milliseconds does not fall short; otherwise it loses one millisecond. */
  lemma ExactlyWhatSurvives(a: int, readFloat: FloatReader)
    requires ReadsNearest(readFloat)
    ensures ReadsBack(a, readFloat, Surviving(a))
  {
    hide ReadsBack, Millis, TextReading, FractionText, Truncate, Nearest, FractionSurvives;
    var f := Abs(a) % 1000;
    if f > 0 { NearestTruncates(f, readFloat(FractionText(f))); }
    NothingSurvives();
    MillisRead(a, readFloat);
    NearestAccepted(f, readFloat);
    var millis := Millis(TextReading(a, readFloat));
    ReadsBackWith(a, readFloat, millis);
  }

  /** The smallest loss: 5 ms print as .005 and read back as 4 ms. */
  lemma FiveMillisecondsBecomeFour(a: int, readFloat: FloatReader)
    requires a == 5 && ReadsNearest(readFloat)
    ensures Text(a) == "PT0H0M0.005S" && ReadsBack(a, readFloat, 4)
  {
    TextOfFive();
    FiveFallsShort(a);
    ExactlyWhatSurvives(a, readFloat);
  }

  lemma TextOfFive()
    ensures Text(5) == "PT0H0M0.005S"
  {
    assert Split(5) == Parts(0, 0, 0, 0, 5);
    assert Positional(5, 3, 10) == "005";
  }

  lemma FiveFallsShort(a: int)
    requires a == 5
    ensures Surviving(a) == 4
  {
    var f := Abs(a) % 1000;
    ExponentOfFive();
    Pow2Values();
    assert Pow2(20 + Exponent(f)) == 0x1000_0000;
    assert 0x5000_0000 % 125 == 30;
  }

  lemma ExponentOfFive()
    ensures Exponent(5) == 8
  {
    assert Exponent(640) == 1 && Exponent(320) == 2 && Exponent(160) == 3 && Exponent(80) == 4;
  }

  /** Correct rounding is close, so both results above apply to it. */
  lemma NearestIsClose(readFloat: FloatReader)
    requires ReadsNearest(readFloat)
    ensures ReadsClosely(readFloat)
  {
    hide Pow2, Exponent, FractionText;
    forall f: nat | 0 < f < 1000
      ensures Close(f, readFloat(FractionText(f)))
    {
      var unit, v := Pow2(23 + Exponent(f)), readFloat(FractionText(f));
      var m: int :| IsUnits(v.value, unit, m) && Rounds(f, unit, m);
      UnitOf(f);
      Pow2Values();
      ScaleUnits(v.value, unit, m);
      RelativeError(1000.0 * v.value, f, unit, 1000 * m);
    }
  }

  lemma RelativeError(x: real, f: nat, unit: nat, m: int)
    requires unit > 0 && IsUnits(x, unit, m) && -500 <= m - f * unit <= 500
    requires f * unit >= 1000 * 8_388_608
    ensures -(f as real) <= 16_777_216.0 * (x - f as real) <= f as real
  {
    var y, n := 16_777_216.0 * (x - f as real), 16_777_216 * (m - f * unit);
    assert y * unit as real == 16_777_216.0 * (x * unit as real - f as real * unit as real);
    assert f as real * unit as real == (f * unit) as real;
    ScaledBound(y, unit, 0 - f, n);
    ScaledBound(-y, unit, 0 - f, -n);
  }

  /** A reader that rounds correctly. */
  function NearestReader(s: string): Option<real> {
    if s == "" || s[0] != '.' then None
    else
      var r := DigitRun(s[1..]);
      if r == 0 then None
      else
        var f := Value(s[1..][..r]);
        if 0 < f < 1000 then Some(NearestUnits(f) as real / Pow2(23 + Exponent(f)) as real) else Some(0.0)
  }

  function NearestUnits(f: nat): nat
    requires 0 < f < 1000
  {
    (f * Pow2(23 + Exponent(f)) + 500) / 1000
  }

  /** The assumption of correct rounding can be met. */
  lemma NearestCanBeRead()
    ensures ReadsNearest(NearestReader)
  {
    forall f: nat | 0 < f < 1000
      ensures Nearest(f, NearestReader(FractionText(f)))
    {
      FractionScans(f);
      UnitOf(f);
      NearestFraction(Pow2(23 + Exponent(f)), NearestUnits(f));
      assert Rounds(f, Pow2(23 + Exponent(f)), NearestUnits(f));
    }
  }

  lemma NearestFraction(unit: nat, m: nat)
    requires unit > 0
    ensures IsUnits(m as real / unit as real, unit, m)
  {
  }

  lemma FractionScans(f: nat)
    requires 0 < f < 1000
    ensures var s := FractionText(f);
            s[0] == '.' && DigitRun(s[1..]) == 3 && AllDigits(s[1..][..3]) && Value(s[1..][..3]) == f
  {
    var digits := Positional(f, 3, 10);
    assert Power10(3) == 1000;
    PaddedReads(f, 3);
    DigitRunEnds(digits, "S");
    assert FractionText(f)[1..] == digits + "S";
    assert (digits + "S")[..3] == digits;
  }

  /** An exact reading of a printed fraction, for use as a specification. */
  function ExactReader(s: string): Option<real> {
    if s == "" || s[0] != '.' then None
    else
      var r := DigitRun(s[1..]);
      if r == 0 then None else Some(Value(s[1..][..r]) as real / Power10(r) as real)
  }

  lemma ExactReaderIsExact(f: nat)
    requires 0 < f < 1000
    ensures ExactReader(FractionText(f)) == Some(f as real / 1000.0)
  {
    assert Power10(3) == 1000;
    FractionScans(f);
  }

  /** Read exactly, a printed text gives back the count, milliseconds included. */
  lemma ExactReadingRecovers(a: int)
    ensures ReadsBack(a, ExactReader, a)
  {
    hide ReadsBack, Millis, TextReading, FractionText, ExactReader;
    var f := Abs(a) % 1000;
    if f > 0 {
      ExactReaderIsExact(f);
      assert 1000.0 * (f as real / 1000.0) == f as real;
    }
    MillisRead(a, ExactReader);
    ReadsBackWith(a, ExactReader, f);
  }

  /** Distinct durations print differently. */
  lemma TextIsInjective(a: int, b: int)
    requires Text(a) == Text(b)
    ensures a == b
  {
    ExactReadingRecovers(a);
    ExactReadingRecovers(b);
  }
}
