/** What a duration text means: the order of its items, the fixed calendar, and
    the lexical form of section 3.2.6 of XML Schema Part 2. */
module DurationMeaning {
  import opened Digits
  import opened DurationLanguage
  import opened DurationRoundTrip
  import opened DurationScan
  import opened DurationSpec
  import opened DurationValue
  import opened Options

  // ------------------------------------------------------- order of the items

  predicate DistinctDesignators(items: seq<Item>) {
    forall i, j | 0 <= i < j < |items| :: items[i].k != items[j].k
  }

  /** Without repetition, an item's number is its designator's last number. */
  lemma {:induction false} LastOfMember(items: seq<Item>, item: Item)
    requires DistinctDesignators(items) && item in items
    ensures Last(items, item.k) == item.n
  {
    var last := items[|items| - 1];
    if item == last {
    } else {
      assert item in items[..|items| - 1];
      LastOfMember(items[..|items| - 1], item);
    }
  }

  lemma LastIgnoresOrder(items: seq<Item>, permuted: seq<Item>, k: char)
    requires multiset(items) == multiset(permuted)
    requires DistinctDesignators(items) && DistinctDesignators(permuted)
    ensures Last(items, k) == Last(permuted, k)
  {
    forall item: Item
      ensures item in items <==> item in permuted
    {
      assert item in items <==> item in multiset(items);
      assert item in permuted <==> item in multiset(permuted);
    }
    if item :| item in items && item.k == k {
      LastOfMember(items, item);
      LastOfMember(permuted, item);
    } else {
      LastOfAbsent(items, k);
      LastOfAbsent(permuted, k);
    }
  }

  /** Two accepted texts that list the same items, each designator once, in
      whatever order within each part, have the same value. */
  lemma OrderIsIrrelevant(s: string, t: string, readFloat: FloatReader)
    requires Parse(s, readFloat).Some? && Parse(t, readFloat).Some?
    requires var r, q := Parse(s, readFloat).value, Parse(t, readFloat).value;
             && r.negative == q.negative && r.fraction == q.fraction
             && multiset(r.date) == multiset(q.date) && multiset(r.time) == multiset(q.time)
             && DistinctDesignators(r.date) && DistinctDesignators(q.date)
             && DistinctDesignators(r.time) && DistinctDesignators(q.time)
    ensures Total(Parse(s, readFloat).value) == Total(Parse(t, readFloat).value)
  {
    var r, q := Parse(s, readFloat).value, Parse(t, readFloat).value;
    LastIgnoresOrder(r.date, q.date, 'Y');
    LastIgnoresOrder(r.date, q.date, 'M');
    LastIgnoresOrder(r.date, q.date, 'D');
    LastIgnoresOrder(r.time, q.time, 'H');
    LastIgnoresOrder(r.time, q.time, 'M');
    LastIgnoresOrder(r.time, q.time, 'S');
  }

  // ------------------------------------------------------------- repetitions

  function Without<T>(s: seq<T>, i: nat): seq<T>
    requires i < |s|
  {
    s[..i] + s[i + 1..]
  }

  /** A later item has the same designator. */
  predicate Repeated(items: seq<Item>, i: nat) {
    i < |items| && exists j | i < j < |items| :: items[j].k == items[i].k
  }

  lemma {:induction false} LastWithout(items: seq<Item>, i: nat, k: char)
    requires i < |items| && (items[i].k != k || Repeated(items, i))
    ensures Last(Without(items, i), k) == Last(items, k)
  {
    var n := |items| - 1;
    if i == n {
      assert Without(items, i) == items[..n];
    } else {
      assert Without(items, i) == Without(items[..n], i) + [items[n]];
      LastSnoc(Without(items[..n], i), items[n], k);
      if items[n].k != k { LastWithout(items[..n], i, k); }
    }
  }

  lemma {:induction false} ItemsJoin(a: seq<Numeral>, b: seq<Numeral>)
    requires forall w | w in a + b :: IsNumeral(w)
    ensures (forall w | w in a :: w in a + b) && (forall w | w in b :: w in a + b)
            && Items(a + b) == Items(a) + Items(b)
  {
    hide IsNumeral;
    if a == [] {
      assert a + b == b;
    } else {
      assert (a + b)[1..] == a[1..] + b && a == [a[0]] + a[1..];
      ItemsJoin(a[1..], b);
    }
  }

  lemma ItemsAround(a: seq<Numeral>, w: Numeral, b: seq<Numeral>)
    requires forall v | v in a + ([w] + b) :: IsNumeral(v)
    ensures forall v | v in a + b :: IsNumeral(v)
    ensures Items(a + b) == Without(Items(a + ([w] + b)), |a|)
  {
    hide IsNumeral;
    ItemsJoin(a, [w] + b);
    ItemsJoin([w], b);
    ItemsJoin(a, b);
    DropMiddle(Items(a), Items([w]), Items(b));
  }

  lemma DropMiddle(a: seq<Item>, w: seq<Item>, b: seq<Item>)
    requires |w| == 1
    ensures Without(a + (w + b), |a|) == a + b
  {
  }

  lemma ItemsWithout(ws: seq<Numeral>, i: nat)
    requires (forall w | w in ws :: IsNumeral(w)) && i < |ws|
    ensures (forall w | w in Without(ws, i) :: w in ws) && Items(Without(ws, i)) == Without(Items(ws), i)
  {
    hide IsNumeral, Items;
    assert ws == ws[..i] + ([ws[i]] + ws[i + 1..]);
    ItemsAround(ws[..i], ws[i], ws[i + 1..]);
  }

  /** `y` is `x` without a number whose designator comes once more. */
  predicate DropsEarlier(x: Script, y: Script, i: nat, readFloat: FloatReader)
    requires Admissible(x, readFloat)
  {
    || (i < |x.date| && y == x.(date := Without(x.date, i)) && Repeated(Items(x.date), i))
    || (i < |x.time| && y == x.(time := Without(x.time, i)) && Repeated(Items(x.time) + FractionItems(x.fraction), i))
  }

  lemma SameLasts(items: seq<Item>, i: nat)
    requires Repeated(items, i)
    ensures forall k :: Last(Without(items, i), k) == Last(items, k)
  {
    forall k
      ensures Last(Without(items, i), k) == Last(items, k)
    {
      LastWithout(items, i, k);
    }
  }

  lemma SameTotal(r: Reading, q: Reading)
    requires r.negative == q.negative && r.fraction == q.fraction
    requires forall k :: Last(r.date, k) == Last(q.date, k)
    requires forall k :: Last(r.time, k) == Last(q.time, k)
    ensures Total(r) == Total(q)
  {
    hide Last;
  }

  lemma DroppingKeepsTotal(x: Script, y: Script, i: nat, readFloat: FloatReader)
    requires Admissible(x, readFloat) && DropsEarlier(x, y, i, readFloat)
    ensures Admissible(y, readFloat) && Total(ReadingOf(x, readFloat)) == Total(ReadingOf(y, readFloat))
  {
    hide IsNumeral, Last, Repeated, Total, FractionItems, FractionValue, Items;
    var more := FractionItems(x.fraction);
    if i < |x.date| && y == x.(date := Without(x.date, i)) && Repeated(Items(x.date), i) {
      ItemsWithout(x.date, i);
      SameLasts(Items(x.date), i);
    } else {
      ItemsWithout(x.time, i);
      SameLasts(Items(x.time) + more, i);
      assert Without(Items(x.time) + more, i) == Without(Items(x.time), i) + more;
    }
    SameTotal(ReadingOf(x, readFloat), ReadingOf(y, readFloat));
  }

  /** Of several numbers for a designator only the last counts: the others can be
      taken out of any accepted text without changing its value. */
  lemma EarlierNumberIsIgnored(x: Script, y: Script, i: nat, readFloat: FloatReader)
    requires Admissible(x, readFloat) && DropsEarlier(x, y, i, readFloat)
    ensures Parse(Written(x), readFloat).Some? && Parse(Written(y), readFloat).Some?
    ensures Total(Parse(Written(x), readFloat).value) == Total(Parse(Written(y), readFloat).value)
  {
    hide Admissible, DropsEarlier, Parse, Written, Total, ReadingOf;
    DroppingKeepsTotal(x, y, i, readFloat);
    WrittenIsAccepted(x, readFloat);
    WrittenIsAccepted(y, readFloat);
  }

  // ------------------------------------------------------- the fixed calendar

  lemma SingleReads(n: nat, k: char, readFloat: FloatReader)
    requires k in "YMD"
    ensures Parse("P" + RenderItem(Item(n, k)), readFloat) == Some(Reading(false, [Item(n, k)], [], 0.0))
  {
    var item := Item(n, k);
    var s := "P" + RenderItem(item);
    RenderUpToThree(item, item, item);
    assert Unsigned(s)[1..] == Render([item]) + "";
    DateReads([item], "");
  }

  /** A year is twelve months and a month is thirty days, whatever the date. */
  lemma FixedCalendar(n: nat, readFloat: FloatReader)
    ensures var months := Parse("P" + RenderItem(Item(n, 'M')), readFloat);
            var days := Parse("P" + RenderItem(Item(30 * n, 'D')), readFloat);
            months.Some? && days.Some? && Total(months.value) == Total(days.value) == 2_592_000_000 * n
    ensures var years := Parse("P" + RenderItem(Item(n, 'Y')), readFloat);
            var months := Parse("P" + RenderItem(Item(12 * n, 'M')), readFloat);
            years.Some? && months.Some? && Total(years.value) == Total(months.value)
  {
    SingleReads(n, 'M', readFloat);
    SingleReads(30 * n, 'D', readFloat);
    SingleReads(n, 'Y', readFloat);
    SingleReads(12 * n, 'M', readFloat);
    SingleValue(n, 'M');
    SingleValue(30 * n, 'D');
    SingleValue(n, 'Y');
    SingleValue(12 * n, 'M');
  }

  lemma SingleValue(n: nat, k: char)
    requires k in "YMD"
    ensures Total(Reading(false, [Item(n, k)], [], 0.0))
            == 86_400_000 * n * (if k == 'Y' then 360 else if k == 'M' then 30 else 1)
  {
    var item := Item(n, k);
    LastOfThree(item, item, item, 'Y');
    LastOfThree(item, item, item, 'M');
    LastOfThree(item, item, item, 'D');
  }

  /** The same letter counts minutes once a 'T' has been seen. */
  lemma MinutesAfterT(n: nat, readFloat: FloatReader)
    ensures var minutes := Parse("PT" + RenderItem(Item(n, 'M')), readFloat);
            minutes.Some? && Total(minutes.value) == 60_000 * n
  {
    var item := Item(n, 'M');
    RenderUpToThree(item, item, item);
    assert RenderAll(false, [], [item]) == "PT" + RenderItem(item);
    RenderedReads(false, [], [item], readFloat);
    LastOfThree(item, item, item, 'H');
    LastOfThree(item, item, item, 'M');
    LastOfThree(item, item, item, 'S');
  }

  // --------------------------------------------------------- the lexical form

  /** The pieces of an xsd:duration: digit strings, empty where left out. */
  datatype Lexeme = Lexeme(negative: bool, years: string, months: string, days: string,
                           hasTime: bool, hours: string, minutes: string, seconds: string, fraction: string)

  function Piece(digits: string, designator: string): string {
    if digits == "" then "" else digits + designator
  }

  function Spell(x: Lexeme): string {
    (if x.negative then "-P" else "P")
    + Piece(x.years, "Y") + Piece(x.months, "M") + Piece(x.days, "D")
    + TimeSpelled(x)
  }

  function TimeSpelled(x: Lexeme): string {
    if x.hasTime then "T" + Piece(x.hours, "H") + Piece(x.minutes, "M")
                      + Piece(x.seconds, if x.fraction == "" then "S" else "." + x.fraction + "S")
    else ""
  }

  /** At least one number, at least one after a 'T', and no fraction without seconds. */
  predicate WellFormed(x: Lexeme) {
    && AllDigits(x.years) && AllDigits(x.months) && AllDigits(x.days)
    && AllDigits(x.hours) && AllDigits(x.minutes) && AllDigits(x.seconds) && AllDigits(x.fraction)
    && (x.fraction != "" ==> x.seconds != "")
    && (x.hasTime <==> x.hours + x.minutes + x.seconds != "")
    && x.years + x.months + x.days + x.hours + x.minutes + x.seconds != ""
  }

  /** A lexical representation of xsd:duration. */
  ghost predicate IsDuration(s: string) {
    exists x: Lexeme :: WellFormed(x) && Spell(x) == s
  }

  function LexemeOf(a: int): Lexeme {
    var p := Split(Abs(a));
    var clock := p.f > 0 || p.h > 0 || p.m > 0 || p.s > 0 || p.d == 0;
    Lexeme(a < 0, "", "", if p.d > 0 then Decimal(p.d) else "", clock,
           if p.f > 0 || p.h > 0 then Decimal(p.h) else "",
           if p.f > 0 || p.h > 0 || p.m > 0 then Decimal(p.m) else "",
           if clock then Decimal(p.s) else "",
           if p.f > 0 then Positional(p.f, 3, 10) else "")
  }

  lemma LexemeIsWellFormed(a: int)
    ensures WellFormed(LexemeOf(a))
  {
    var p := Split(Abs(a));
    DecimalReads(p.d); DecimalReads(p.h); DecimalReads(p.m); DecimalReads(p.s);
    assert Power10(3) == 1000;
    PaddedReads(p.f, 3);
  }

  lemma ClockSpells(a: int)
    ensures ClockText(Split(Abs(a))) == TimeSpelled(LexemeOf(a))
  {
    var p := Split(Abs(a));
    var h, m, s := Decimal(p.h), Decimal(p.m), Decimal(p.s);
    if p.f > 0 {
      Group(h, m, s, FractionText(p.f));
    } else if p.h > 0 {
      Group(h, m, s, "S");
    } else if p.m > 0 {
      assert "T" + m + "M" + s + "S" == "T" + "" + (m + "M") + (s + "S");
    } else if p.s > 0 || p.d == 0 {
      assert Decimal(0) == "0";
      assert "T" + s + "S" == "T" + "" + "" + (s + "S");
    }
  }

  lemma Group(h: string, m: string, s: string, tail: string)
    ensures "T" + h + "H" + m + "M" + s + tail == "T" + (h + "H") + (m + "M") + (s + tail)
  {
  }

  lemma LexemeSpells(a: int)
    ensures Spell(LexemeOf(a)) == Text(a)
  {
    var x, p := LexemeOf(a), Split(Abs(a));
    ClockSpells(a);
    assert Piece(x.days, "D") == DayText(p.d);
    assert SignText(a) + "" + "" + DayText(p.d) == SignText(a) + DayText(p.d);
  }

  /** Every printed text is an xsd:duration of at most 29 characters and at
      most 106751991167 days. */
  lemma TextIsDuration(a: int)
    requires LONG64_MIN < a <= LONG64_MAX
    ensures IsDuration(Text(a)) && |Text(a)| <= 29 && Split(Abs(a)).d <= 106_751_991_167
  {
    LexemeIsWellFormed(a);
    LexemeSpells(a);
    TextIsPrintable(Abs(a));
    PartsArePrintable(Abs(a));
  }

  // ------------------------------------------------- every duration is accepted

  function PieceItems(digits: string, k: char): seq<Item>
    requires AllDigits(digits)
  {
    if digits == "" then [] else [Item(Value(digits), k)]
  }

  lemma PieceScans(digits: string, k: char, tail: string)
    requires AllDigits(digits) && digits != "" && !IsDigit(k)
    ensures var s := Piece(digits, [k]) + tail;
            ScanItem(s) == Some(Item(Value(digits), k)) && AfterItem(s) == tail && s[0] == digits[0]
  {
    var s := Piece(digits, [k]) + tail;
    assert s == digits + ([k] + tail);
    DigitsScan(digits, [k] + tail);
  }

  lemma DatePieceReads(digits: string, k: char, tail: string)
    requires AllDigits(digits) && k in "YMD"
    ensures DateItems(Piece(digits, [k]) + tail) == PrependAll(PieceItems(digits, k), DateItems(tail))
  {
    if digits == "" {
      assert Piece(digits, [k]) + tail == tail;
      PrependNothing(DateItems(tail));
    } else {
      PieceScans(digits, k, tail);
    }
  }

  lemma TimePieceReads(digits: string, k: char, tail: string, readFloat: FloatReader)
    requires AllDigits(digits) && k in "HMS"
    ensures TimeItems(Piece(digits, [k]) + tail, readFloat)
            == PrependAll(PieceItems(digits, k), TimeItems(tail, readFloat))
  {
    if digits == "" {
      assert Piece(digits, [k]) + tail == tail;
      PrependNothing(TimeItems(tail, readFloat));
    } else {
      PieceScans(digits, k, tail);
    }
  }

  lemma SecondsPieceReads(x: Lexeme, readFloat: FloatReader)
    requires WellFormed(x) && FractionOf(x, readFloat).Some?
    ensures TimeItems(Piece(x.seconds, if x.fraction == "" then "S" else "." + x.fraction + "S"), readFloat)
            == Some((PieceItems(x.seconds, 'S'), FractionOf(x, readFloat).value))
  {
    if x.fraction == "" {
      TimePieceReads(x.seconds, 'S', "", readFloat);
      assert Piece(x.seconds, "S") + "" == Piece(x.seconds, "S");
      assert PieceItems(x.seconds, 'S') + [] == PieceItems(x.seconds, 'S');
    } else {
      DigitsScan(x.seconds, "." + x.fraction + "S");
    }
  }

  /** What the reader makes of the fraction; zero if there is none. */
  function FractionOf(x: Lexeme, readFloat: FloatReader): Option<real> {
    if x.fraction == "" then Some(0.0) else readFloat("." + x.fraction + "S")
  }

  lemma JoinItems<T>(a: seq<Item>, b: seq<Item>, c: seq<Item>, x: T)
    ensures PrependAll(a, PrependAll(b, Some((c, x)))) == Some((a + b + c, x))
  {
    assert a + (b + c) == a + b + c;
  }

  function DateListed(x: Lexeme): seq<Item>
    requires WellFormed(x)
  {
    PieceItems(x.years, 'Y') + PieceItems(x.months, 'M') + PieceItems(x.days, 'D')
  }

  function TimeListed(x: Lexeme): seq<Item>
    requires WellFormed(x)
  {
    PieceItems(x.hours, 'H') + PieceItems(x.minutes, 'M') + PieceItems(x.seconds, 'S')
  }

  lemma TimeListRead(x: Lexeme, readFloat: FloatReader)
    requires WellFormed(x) && FractionOf(x, readFloat).Some? && x.hasTime
    ensures TimeItems(TimeSpelled(x)[1..], readFloat) == Some((TimeListed(x), FractionOf(x, readFloat).value))
  {
    var h, m := Piece(x.hours, "H"), Piece(x.minutes, "M");
    var s := Piece(x.seconds, if x.fraction == "" then "S" else "." + x.fraction + "S");
    Regroup("T", h, m, s, "");
    SecondsPieceReads(x, readFloat);
    TimePieceReads(x.minutes, 'M', s, readFloat);
    TimePieceReads(x.hours, 'H', m + s, readFloat);
    JoinItems(PieceItems(x.hours, 'H'), PieceItems(x.minutes, 'M'), PieceItems(x.seconds, 'S'),
              FractionOf(x, readFloat).value);
  }

  lemma DateListRead(x: Lexeme, tail: string)
    requires WellFormed(x) && (tail == "" || tail[0] == 'T')
    ensures DateItems(Piece(x.years, "Y") + (Piece(x.months, "M") + (Piece(x.days, "D") + tail)))
            == Some((DateListed(x), if tail == "" then "" else tail[1..]))
  {
    var y, m, d := PieceItems(x.years, 'Y'), PieceItems(x.months, 'M'), PieceItems(x.days, 'D');
    DatePieceReads(x.days, 'D', tail);
    DatePieceReads(x.months, 'M', Piece(x.days, "D") + tail);
    DatePieceReads(x.years, 'Y', Piece(x.months, "M") + (Piece(x.days, "D") + tail));
    assert d + [] == d;
    JoinItems(y, m, d, if tail == "" then "" else tail[1..]);
  }

  lemma SpellInParts(x: Lexeme)
    ensures var t := Unsigned(Spell(x));
            && t != "" && t[0] == 'P' && (Spell(x)[0] == '-' <==> x.negative)
            && t[1..] == Piece(x.years, "Y") + (Piece(x.months, "M") + (Piece(x.days, "D") + TimeSpelled(x)))
  {
    Regroup(if x.negative then "-P" else "P", Piece(x.years, "Y"), Piece(x.months, "M"), Piece(x.days, "D"),
            TimeSpelled(x));
  }

  lemma Regroup(a: string, b: string, c: string, d: string, e: string)
    ensures a + b + c + d + e == a + (b + (c + (d + e)))
    ensures |a| == 1 ==> (a + b + c + d)[1..] == b + (c + d)
  {
    assert a + b + c + d == a + (b + (c + d));
  }

  lemma LastOfPieces(x: string, y: string, z: string, i: char, j: char, k: char)
    requires AllDigits(x) && AllDigits(y) && AllDigits(z) && i != j && j != k && i != k
    ensures var items := PieceItems(x, i) + PieceItems(y, j) + PieceItems(z, k);
            Last(items, i) == Value(x) && Last(items, j) == Value(y) && Last(items, k) == Value(z)
  {
    LastOfPiece([], x, i, i); LastOfPiece([], x, i, j); LastOfPiece([], x, i, k);
    var a := [] + PieceItems(x, i);
    assert a == PieceItems(x, i);
    LastOfPiece(a, y, j, i); LastOfPiece(a, y, j, j); LastOfPiece(a, y, j, k);
    var b := a + PieceItems(y, j);
    LastOfPiece(b, z, k, i); LastOfPiece(b, z, k, j); LastOfPiece(b, z, k, k);
  }

  lemma LastOfPiece(items: seq<Item>, digits: string, i: char, k: char)
    requires AllDigits(digits)
    ensures Last(items + PieceItems(digits, i), k) == if i == k && digits != "" then Value(digits) else Last(items, k)
  {
    if digits == "" {
      assert items + [] == items;
    } else {
      LastSnoc(items, Item(Value(digits), i), k);
    }
  }

  /** Seconds in a calendar of 30-day months and twelve-month years. */
  function CalendarSeconds(x: Lexeme): int
    requires WellFormed(x)
  {
    86_400 * (360 * Value(x.years) + 30 * Value(x.months) + Value(x.days))
    + 3600 * Value(x.hours) + 60 * Value(x.minutes) + Value(x.seconds)
  }

  lemma LexemeValue(x: Lexeme, fraction: real)
    requires WellFormed(x)
    ensures Total(Reading(x.negative, DateListed(x), TimeListed(x), fraction))
            == (if x.negative then -1 else 1) * (1000 * CalendarSeconds(x) + Truncate(1000.0 * fraction))
  {
    hide Truncate, Last, PieceItems, WellFormed;
    LexemeNumbers(x);
  }

  lemma LexemeNumbers(x: Lexeme)
    requires WellFormed(x)
    ensures AllDigits(x.years) && AllDigits(x.months) && AllDigits(x.days)
    ensures AllDigits(x.hours) && AllDigits(x.minutes) && AllDigits(x.seconds)
    ensures Last(DateListed(x), 'Y') == Value(x.years) && Last(DateListed(x), 'M') == Value(x.months)
            && Last(DateListed(x), 'D') == Value(x.days)
    ensures Last(TimeListed(x), 'H') == Value(x.hours) && Last(TimeListed(x), 'M') == Value(x.minutes)
            && Last(TimeListed(x), 'S') == Value(x.seconds)
  {
    hide Last;
    LastOfPieces(x.years, x.months, x.days, 'Y', 'M', 'D');
    LastOfPieces(x.hours, x.minutes, x.seconds, 'H', 'M', 'S');
  }

  lemma LexemeIsRead(x: Lexeme, readFloat: FloatReader)
    requires WellFormed(x) && FractionOf(x, readFloat).Some?
    ensures Parse(Spell(x), readFloat)
            == Some(Reading(x.negative, DateListed(x), TimeListed(x), FractionOf(x, readFloat).value))
  {
    hide Spell, DateItems, TimeItems, DateListed, Piece, FractionOf;
    SpellInParts(x);
    DateListRead(x, TimeSpelled(x));
    if x.hasTime { TimeListRead(x, readFloat); } else { NoTimeRead(x, readFloat); }
  }

  lemma NoTimeRead(x: Lexeme, readFloat: FloatReader)
    requires WellFormed(x) && !x.hasTime
    ensures TimeSpelled(x) == "" && TimeItems("", readFloat) == Some((TimeListed(x), 0.0))
    ensures FractionOf(x, readFloat) == Some(0.0)
  {
    assert TimeListed(x) == [];
  }

  /** The parser accepts every xsd:duration whose fraction the reader accepts, and gives
      it the value of the fixed calendar, with the fraction cut to milliseconds, and
      negative exactly if the duration is. */
  lemma DurationsAreAccepted(x: Lexeme, readFloat: FloatReader)
    requires WellFormed(x) && FractionOf(x, readFloat).Some?
    ensures var r := Reading(x.negative, DateListed(x), TimeListed(x), FractionOf(x, readFloat).value);
            && Parse(Spell(x), readFloat) == Some(r)
            && Total(r) == (if x.negative then -1 else 1)
                           * (1000 * CalendarSeconds(x) + Truncate(1000.0 * FractionOf(x, readFloat).value))
  {
    hide Truncate, Total, Parse, Spell, DateListed, TimeListed, FractionOf, CalendarSeconds;
    LexemeIsRead(x, readFloat);
    LexemeValue(x, FractionOf(x, readFloat).value);
  }
}
