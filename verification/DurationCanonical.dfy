/** Which of the texts that the parser accepts are durations in the sense of
    section 3.2.6 of XML Schema Part 2. */
module DurationCanonical {
  import opened CStrings
  import opened Digits
  import opened DurationLanguage
  import opened DurationMeaning
  import opened DurationRoundTrip
  import opened DurationScan
  import opened DurationSpec
  import opened Options

  // ------------------------------------------------------------- the condition

  /** Neither blanks nor signs. */
  predicate Plain(t: string) { forall c | c in t :: !IsBlank(c) && c != '+' && c != '-' }

  /** The place of a designator in its part. */
  function Rank(k: char): nat { if k == 'Y' || k == 'H' then 0 else if k == 'M' then 1 else 2 }

  /** All that is no digit. */
  function Letters(t: string): string {
    if t == "" then "" else if IsDigit(t[0]) then Letters(t[1..]) else [t[0]] + Letters(t[1..])
  }

  /** The place of a letter in the whole text, before and after the T; -1 if it has none. */
  function Place(c: char, afterT: bool): int {
    if afterT then
      if c == 'H' then 4 else if c == 'M' then 5 else if c == '.' then 6 else if c == 'S' then 7 else -1
    else
      if c == 'Y' then 0 else if c == 'M' then 1 else if c == 'D' then 2 else if c == 'T' then 3 else -1
  }

  /** The letters come in order, each at most once, behind the given place. */
  predicate InPlace(letters: string, last: int) {
    letters == "" || var p := Place(letters[0], last >= 3); p > last && InPlace(letters[1..], p)
  }

  /** Behind a decimal point there are digits and a final S, and nothing else. */
  predicate FractionEnds(s: string) {
    match StrChr(s, '.')
    case None => true
    case Some(t) => |t| > 2 && t[|t| - 1] == 'S' && AllDigits(t[1..|t| - 1])
  }

  /** What can be read off a text, before it is parsed: behind the P there are neither
      blanks nor signs, there is some letter, the letters come in order, the last one is
      not the T, and a decimal point is followed by digits and a final S. */
  predicate Canonical(s: string) {
    && Plain(Unsigned(s)) && Unsigned(s) != ""
    && var letters := Letters(Unsigned(s)[1..]);
    && letters != "" && letters[|letters| - 1] != 'T' && InPlace(letters, -1)
    && FractionEnds(s)
  }

  // --------------------------------------------- from durations to the condition

  lemma PieceIsPlain(digits: string, designator: string)
    requires AllDigits(digits) && Plain(designator)
    ensures Plain(Piece(digits, designator))
    ensures forall c | c in Piece(digits, designator) :: IsDigit(c) || c in designator
  {
  }

  lemma PlainJoins(a: string, b: string)
    ensures Plain(a + b) <==> Plain(a) && Plain(b)
  {
    assert forall c | c in a :: c in a + b;
    assert forall c | c in b :: c in a + b;
  }

  function SecondsDesignator(x: Lexeme): string { if x.fraction == "" then "S" else "." + x.fraction + "S" }

  lemma SecondsArePlain(x: Lexeme)
    requires WellFormed(x)
    ensures Plain(SecondsDesignator(x)) && 'T' !in SecondsDesignator(x)
  {
  }

  lemma TimeIsPlain(x: Lexeme)
    requires WellFormed(x)
    ensures Plain(TimeSpelled(x)) && ('T' in TimeSpelled(x) <==> x.hasTime)
  {
    var h, m, s := Piece(x.hours, "H"), Piece(x.minutes, "M"), Piece(x.seconds, SecondsDesignator(x));
    SecondsArePlain(x);
    PieceIsPlain(x.hours, "H");
    PieceIsPlain(x.minutes, "M");
    PieceIsPlain(x.seconds, SecondsDesignator(x));
    PlainJoins("T", h);
    PlainJoins("T" + h, m);
    PlainJoins("T" + h + m, s);
    if x.hasTime { assert TimeSpelled(x)[0] == 'T'; }
  }

  lemma SpellingIsPlain(x: Lexeme)
    requires WellFormed(x)
    ensures Plain(Unsigned(Spell(x))) && ('T' in Spell(x) <==> x.hasTime)
  {
    hide Piece, TimeSpelled, Spell;
    var y, m, d, t := Piece(x.years, "Y"), Piece(x.months, "M"), Piece(x.days, "D"), TimeSpelled(x);
    SpellInParts(x);
    PieceIsPlain(x.years, "Y");
    PieceIsPlain(x.months, "M");
    PieceIsPlain(x.days, "D");
    TimeIsPlain(x);
    var u := Unsigned(Spell(x));
    assert u == "P" + (y + (m + (d + t)));
    PlainJoins(d, t);
    PlainJoins(m, d + t);
    PlainJoins(y, m + (d + t));
    PlainJoins("P", y + (m + (d + t)));
    assert 'T' in u <==> x.hasTime;
    assert Spell(x) == (if x.negative then "-" else "") + u;
  }

  lemma NoPoint(digits: string, designator: string)
    requires AllDigits(digits) && '.' !in designator
    ensures '.' !in Piece(digits, designator)
  {
  }

  lemma TimePoint(x: Lexeme)
    requires WellFormed(x)
    ensures StrChr(TimeSpelled(x), '.') == if x.fraction == "" then None else Some("." + x.fraction + "S")
  {
    hide StrChr;
    var h, m := Piece(x.hours, "H"), Piece(x.minutes, "M");
    NoPoint(x.hours, "H");
    NoPoint(x.minutes, "M");
    if x.fraction == "" {
      NoPoint(x.seconds, "S");
      assert '.' !in TimeSpelled(x);
      PointAbsent(TimeSpelled(x));
    } else {
      var p, rest := "T" + h + m + x.seconds, "." + x.fraction + "S";
      assert '.' !in p;
      assert TimeSpelled(x) == p + rest;
      StrChrSkips(p, rest, '.');
      PointFirst(x.fraction);
    }
  }

  lemma PointFirst(fraction: string)
    ensures StrChr("." + fraction + "S", '.') == Some("." + fraction + "S")
  {
  }

  lemma PointAbsent(t: string)
    requires '.' !in t
    ensures StrChr(t, '.') == None
  {
    assert t + "" == t;
    StrChrSkips(t, "", '.');
  }

  lemma SpelledPoint(x: Lexeme)
    requires WellFormed(x)
    ensures StrChr(Spell(x), '.') == if x.fraction == "" then None else Some("." + x.fraction + "S")
  {
    hide StrChr, Piece, TimeSpelled, Spell;
    var y, m, d, t := Piece(x.years, "Y"), Piece(x.months, "M"), Piece(x.days, "D"), TimeSpelled(x);
    SpellInParts(x);
    NoPoint(x.years, "Y");
    NoPoint(x.months, "M");
    NoPoint(x.days, "D");
    TimePoint(x);
    var p := (if x.negative then "-" else "") + ("P" + (y + (m + d)));
    assert '.' !in p;
    assert Unsigned(Spell(x)) == "P" + (y + (m + (d + t)));
    assert Spell(x) == (if x.negative then "-" else "") + Unsigned(Spell(x));
    PrefixGroups(if x.negative then "-" else "", "P", y, m, d, t);
    StrChrSkips(p, t, '.');
  }

  lemma PrefixGroups(a: string, b: string, c: string, d: string, e: string, f: string)
    ensures a + (b + (c + (d + (e + f)))) == a + (b + (c + (d + e))) + f
  {
  }

  lemma FractionIsDigits(s: string, fraction: string)
    requires AllDigits(fraction) && StrChr(s, '.') == if fraction == "" then None else Some("." + fraction + "S")
    ensures FractionEnds(s)
  {
    hide StrChr;
    if fraction != "" {
      var t := "." + fraction + "S";
      assert t[1..|t| - 1] == fraction;
    }
  }

  lemma {:induction false} LettersJoin(a: string, b: string)
    ensures Letters(a + b) == Letters(a) + Letters(b)
  {
    if a == "" {
      assert a + b == b;
    } else {
      assert (a + b)[1..] == a[1..] + b;
      LettersJoin(a[1..], b);
    }
  }

  lemma {:induction false} LettersOfDigits(digits: string)
    requires AllDigits(digits)
    ensures Letters(digits) == ""
  {
    if digits == "" {
    } else {
      LettersOfDigits(digits[1..]);
    }
  }

  lemma LettersOfPiece(digits: string, designator: string)
    requires AllDigits(digits)
    ensures Letters(Piece(digits, designator)) == if digits == "" then "" else Letters(designator)
  {
    LettersOfDigits(digits);
    LettersJoin(digits, designator);
  }

  /** A letter, or none, in front of letters that come later. */
  lemma FrontLetter(c: char, there: bool, rest: string, last: int, p: int)
    requires p == Place(c, last >= 3) && p > last && InPlace(rest, p) && (p >= 3 <==> last >= 3)
    ensures InPlace((if there then [c] else "") + rest, last)
  {
    if there {
      assert ([c] + rest)[1..] == rest;
    } else {
      assert "" + rest == rest;
    }
  }

  function SecondsLetters(x: Lexeme): string {
    if x.seconds == "" then "" else if x.fraction == "" then "S" else ".S"
  }

  function TimeLetters(x: Lexeme): string {
    if !x.hasTime then ""
    else "T" + ((if x.hours == "" then "" else "H") + ((if x.minutes == "" then "" else "M") + SecondsLetters(x)))
  }

  lemma LettersOfTime(x: Lexeme)
    requires WellFormed(x)
    ensures Letters(TimeSpelled(x)) == TimeLetters(x)
  {
    hide Letters, Piece;
    var h, m, s := Piece(x.hours, "H"), Piece(x.minutes, "M"), Piece(x.seconds, SecondsDesignator(x));
    LettersOfPiece(x.hours, "H");
    LettersOfPiece(x.minutes, "M");
    LettersOfPiece(x.seconds, SecondsDesignator(x));
    LettersOfDesignators(x);
    LettersJoin(m, s);
    LettersJoin(h, m + s);
    LettersJoin("T", h + (m + s));
    if x.hasTime { assert TimeSpelled(x) == "T" + (h + (m + s)); }
  }

  lemma LettersOfDesignators(x: Lexeme)
    requires WellFormed(x)
    ensures Letters("T") == "T" && Letters("H") == "H" && Letters("M") == "M"
    ensures Letters(SecondsDesignator(x)) == if x.fraction == "" then "S" else ".S"
    ensures Letters("") == ""
  {
    LettersOfDigits(x.fraction);
    LettersJoin("." + x.fraction, "S");
    LettersJoin(".", x.fraction);
  }

  lemma TimeInPlace(x: Lexeme)
    requires WellFormed(x)
    ensures InPlace(TimeLetters(x), 2)
    ensures x.hasTime ==> |TimeLetters(x)| > 1 && TimeLetters(x)[|TimeLetters(x)| - 1] != 'T'
  {
    hide InPlace;
    if x.hasTime {
      var seconds := SecondsLetters(x);
      SecondsInPlace(x);
      var minutes := (if x.minutes == "" then "" else "M") + seconds;
      FrontLetter('M', x.minutes != "", seconds, 4, 5);
      FrontLetter('H', x.hours != "", minutes, 3, 4);
      TFirst((if x.hours == "" then "" else "H") + minutes);
    } else {
      NoLetters();
    }
  }

  lemma NoLetters()
    ensures InPlace("", 2)
  {
  }

  lemma SecondsInPlace(x: Lexeme)
    ensures InPlace(SecondsLetters(x), 5)
  {
    assert ".S"[1..] == "S" && "S"[1..] == "";
  }

  lemma TFirst(rest: string)
    requires InPlace(rest, 3)
    ensures InPlace("T" + rest, 2)
  {
    assert ("T" + rest)[1..] == rest;
  }

  function DateLetters(y: bool, m: bool, d: bool, t: string): string {
    (if y then "Y" else "") + ((if m then "M" else "") + ((if d then "D" else "") + t))
  }

  lemma LettersOfSpelling(x: Lexeme)
    requires WellFormed(x)
    ensures Unsigned(Spell(x)) != ""
    ensures Letters(Unsigned(Spell(x))[1..])
            == DateLetters(x.years != "", x.months != "", x.days != "", TimeLetters(x))
  {
    hide Letters, Piece, TimeSpelled, TimeLetters, Spell;
    var y, m, d, t := Piece(x.years, "Y"), Piece(x.months, "M"), Piece(x.days, "D"), TimeSpelled(x);
    SpellInParts(x);
    LettersOfPiece(x.years, "Y");
    LettersOfPiece(x.months, "M");
    LettersOfPiece(x.days, "D");
    LettersOfDateDesignators();
    LettersOfTime(x);
    LettersJoin(d, t);
    LettersJoin(m, d + t);
    LettersJoin(y, m + (d + t));
  }

  lemma LettersOfDateDesignators()
    ensures Letters("Y") == "Y" && Letters("M") == "M" && Letters("D") == "D" && Letters("") == ""
  {
  }

  lemma DateInPlace(y: bool, m: bool, d: bool, t: string)
    requires InPlace(t, 2)
    ensures InPlace(DateLetters(y, m, d, t), -1)
  {
    hide InPlace;
    var days := (if d then "D" else "") + t;
    FrontLetter('D', d, t, 1, 2);
    FrontLetter('M', m, days, 0, 1);
    FrontLetter('Y', y, (if m then "M" else "") + days, -1, 0);
  }

  lemma DateEnds(y: bool, m: bool, d: bool, t: string)
    requires (t != "" && t[|t| - 1] != 'T') || (t == "" && (y || m || d))
    ensures var letters := DateLetters(y, m, d, t); letters != "" && letters[|letters| - 1] != 'T'
  {
    var days := (if d then "D" else "") + t;
    var months := (if m then "M" else "") + days;
    assert days != "" ==> months[|months| - 1] == days[|days| - 1];
  }

  lemma SpellingInPlace(x: Lexeme)
    requires WellFormed(x)
    ensures var letters := Letters(Unsigned(Spell(x))[1..]);
            letters != "" && letters[|letters| - 1] != 'T' && InPlace(letters, -1)
  {
    hide Letters, TimeLetters, Spell, InPlace;
    LettersOfSpelling(x);
    TimeInPlace(x);
    NoTimeLetters(x);
    DateInPlace(x.years != "", x.months != "", x.days != "", TimeLetters(x));
    DateEnds(x.years != "", x.months != "", x.days != "", TimeLetters(x));
  }

  lemma NoTimeLetters(x: Lexeme)
    ensures !x.hasTime ==> TimeLetters(x) == ""
  {
  }

  /** Every duration is in canonical form, accepted or not. */
  lemma DurationIsCanonical(x: Lexeme)
    requires WellFormed(x)
    ensures Canonical(Spell(x))
  {
    hide Spell, Plain, FractionEnds, StrChr, Letters, InPlace;
    SpellingIsPlain(x);
    LettersOfSpelling(x);
    SpellingInPlace(x);
    SpelledPoint(x);
    FractionIsDigits(Spell(x), x.fraction);
  }

  // --------------------------------------------- from the condition to durations

  predicate PlainNumeral(w: Numeral) { IsNumeral(w) && w.blanks == "" && w.sign == "" }

  lemma HasElement<T>(s: seq<T>)
    ensures s != [] ==> exists x :: x in s
  {
    if s != [] { assert s[0] in s; }
  }

  lemma NumeralIsPlain(w: Numeral)
    requires IsNumeral(w) && Plain(Write(w))
    ensures PlainNumeral(w)
  {
    PlainJoins(w.blanks, w.sign + (w.digits + [w.k]));
    PlainJoins(w.sign, w.digits + [w.k]);
    HasElement(w.blanks);
    HasElement(w.sign);
  }

  lemma {:induction false} NumeralsArePlain(ws: seq<Numeral>)
    requires (forall w | w in ws :: IsNumeral(w)) && Plain(WriteAll(ws))
    ensures forall w | w in ws :: PlainNumeral(w)
  {
    if ws == [] {
    } else {
      PlainJoins(Write(ws[0]), WriteAll(ws[1..]));
      NumeralIsPlain(ws[0]);
      NumeralsArePlain(ws[1..]);
      assert ws == [ws[0]] + ws[1..];
    }
  }

  lemma {:induction false} NoPointInNumerals(ws: seq<Numeral>)
    requires forall w | w in ws :: PlainNumeral(w) && w.k != '.'
    ensures '.' !in WriteAll(ws)
  {
    if ws == [] {
    } else {
      NoPointInNumerals(ws[1..]);
      assert '.' !in Write(ws[0]);
    }
  }

  /** Plain numbers in ascending order of their designators, from the given rank on. */
  predicate InOrder(ws: seq<Numeral>, from: nat) {
    && (forall w | w in ws :: PlainNumeral(w) && Rank(w.k) >= from)
    && (forall i, j | 0 <= i < j < |ws| :: Rank(ws[i].k) < Rank(ws[j].k))
  }

  /** The digits of the first number if it has the designator, and the numbers left. */
  function FirstDigits(ws: seq<Numeral>, k: char): string { if ws != [] && ws[0].k == k then ws[0].digits else "" }

  function Others(ws: seq<Numeral>, k: char): seq<Numeral> { if ws != [] && ws[0].k == k then ws[1..] else ws }

  lemma Peel(ws: seq<Numeral>, k: char, from: nat)
    requires InOrder(ws, from) && Rank(k) == from && forall w | w in ws :: Rank(w.k) == from ==> w.k == k
    ensures InOrder(Others(ws, k), from + 1) && AllDigits(FirstDigits(ws, k))
    ensures WriteAll(ws) == Piece(FirstDigits(ws, k), [k]) + WriteAll(Others(ws, k))
    ensures ws == [] <==> FirstDigits(ws, k) == "" && Others(ws, k) == []
  {
    hide IsBlank;
    if ws == [] {
    } else if ws[0].k == k {
      assert Write(ws[0]) == Piece(ws[0].digits, [k]);
      forall w | w in ws[1..]
        ensures Rank(w.k) >= from + 1
      {
        var j :| 1 <= j < |ws| && ws[j] == w;
      }
    } else {
      forall w | w in ws
        ensures Rank(w.k) >= from + 1
      {
        var j :| 0 <= j < |ws| && ws[j] == w;
        assert ws[0] in ws;
      }
      assert "" + WriteAll(ws) == WriteAll(ws);
    }
  }

  datatype Three = Three(a: string, b: string, c: string)

  function ThreePieces(ws: seq<Numeral>, i: char, j: char, k: char): Three {
    var later := Others(ws, i);
    Three(FirstDigits(ws, i), FirstDigits(later, j), FirstDigits(Others(later, j), k))
  }

  predicate Spells(ws: seq<Numeral>, t: Three, i: char, j: char, k: char) {
    && AllDigits(t.a) && AllDigits(t.b) && AllDigits(t.c)
    && WriteAll(ws) == Piece(t.a, [i]) + (Piece(t.b, [j]) + Piece(t.c, [k]))
    && (ws == [] <==> t.a == "" && t.b == "" && t.c == "")
  }

  /** Numbers in order are the pieces of a date or of a time. */
  lemma InOrderSpells(ws: seq<Numeral>, i: char, j: char, k: char)
    requires InOrder(ws, 0) && Rank(i) == 0 && Rank(j) == 1 && Rank(k) == 2
    requires forall w | w in ws :: w.k == i || w.k == j || w.k == k
    ensures Spells(ws, ThreePieces(ws, i, j, k), i, j, k)
    ensures (forall w | w in ws :: w.k != k) ==> ThreePieces(ws, i, j, k).c == ""
  {
    hide PlainNumeral, Piece, AllDigits, InOrder, WriteAll;
    var second := Others(ws, i);
    var third := Others(second, j);
    var none := Others(third, k);
    Peel(ws, i, 0);
    Peel(second, j, 1);
    Peel(third, k, 2);
    NothingBeyond(none);
    assert Piece(FirstDigits(third, k), [k]) + WriteAll(none) == Piece(FirstDigits(third, k), [k]);
    assert third != [] ==> third[0] in ws;
  }

  lemma NothingBeyond(ws: seq<Numeral>)
    requires InOrder(ws, 3)
    ensures ws == [] && WriteAll(ws) == ""
  {
    HasElement(ws);
  }

  /** The duration that a text in canonical form spells. */
  function LexemeFor(x: Script): Lexeme {
    var date, time := ThreePieces(x.date, 'Y', 'M', 'D'), ThreePieces(x.time, 'H', 'M', 'S');
    match x.fraction
    case None => Lexeme(x.negative, date.a, date.b, date.c, x.hasTime, time.a, time.b, time.c, "")
    case Some(f) =>
      Lexeme(x.negative, date.a, date.b, date.c, x.hasTime, time.a, time.b, f.seconds.digits,
             if f.rest == "" then "" else f.rest[..|f.rest| - 1])
  }

  /** What the condition says about the parts of the text. */
  predicate CanonicalParts(x: Script) {
    && InOrder(x.date, 0) && InOrder(x.time, 0)
    && (forall w | w in x.date :: w.k == 'Y' || w.k == 'M' || w.k == 'D')
    && (forall w | w in x.time :: w.k == 'H' || w.k == 'M' || w.k == 'S')
    && (x.hasTime <==> x.time != [] || x.fraction.Some?)
    && (x.date != [] || x.time != [] || x.fraction.Some?)
    && match x.fraction
       case None => true
       case Some(f) =>
         && PlainNumeral(f.seconds) && f.seconds.k == '.' && (forall w | w in x.time :: w.k != 'S')
         && |f.rest| > 1 && f.rest[|f.rest| - 1] == 'S' && AllDigits(f.rest[..|f.rest| - 1])
  }

  lemma PartsSpellTime(x: Script)
    requires CanonicalParts(x)
    ensures TimeWritten(x) == TimeSpelled(LexemeFor(x))
  {
    hide PlainNumeral, AllDigits, InOrder, WriteAll, ThreePieces;
    var L, t := LexemeFor(x), ThreePieces(x.time, 'H', 'M', 'S');
    InOrderSpells(x.time, 'H', 'M', 'S');
    var h, m := Piece(t.a, "H"), Piece(t.b, "M");
    match x.fraction
    case None =>
      assert FractionWritten(None) == "";
      GroupTime(h, m, Piece(t.c, "S"));
    case Some(f) =>
      assert f.rest == f.rest[..|f.rest| - 1] + "S";
      FractionSpells(f);
      assert m + "" == m;
      GroupTime(h, m, FractionWritten(x.fraction));
  }

  lemma GroupTime(h: string, m: string, s: string)
    ensures "T" + (h + (m + s) + "") == "T" + h + m + s && "T" + (h + m + s) == "T" + h + m + s
  {
  }

  lemma FractionSpells(f: Fraction)
    requires PlainNumeral(f.seconds) && f.seconds.k == '.' && |f.rest| > 1 && f.rest[|f.rest| - 1] == 'S'
    requires f.rest == f.rest[..|f.rest| - 1] + "S"
    ensures FractionWritten(Some(f)) == Piece(f.seconds.digits, "." + f.rest[..|f.rest| - 1] + "S")
  {
    GroupFraction(f.seconds.digits, f.rest[..|f.rest| - 1], f.rest);
  }

  lemma GroupFraction(seconds: string, digits: string, rest: string)
    requires rest == digits + "S"
    ensures "" + ("" + (seconds + ['.'])) + rest == seconds + ("." + digits + "S")
  {
  }

  lemma PartsSpell(x: Script)
    requires CanonicalParts(x)
    ensures WellFormed(LexemeFor(x)) && Spell(LexemeFor(x)) == Written(x)
  {
    hide InOrder, WriteAll, ThreePieces, TimeWritten, TimeSpelled, Piece;
    var L, date := LexemeFor(x), ThreePieces(x.date, 'Y', 'M', 'D');
    InOrderSpells(x.date, 'Y', 'M', 'D');
    InOrderSpells(x.time, 'H', 'M', 'S');
    PartsSpellTime(x);
    GroupDate(if x.negative then "-" else "", Piece(date.a, "Y"), Piece(date.b, "M"), Piece(date.c, "D"),
              TimeWritten(x));
  }

  lemma GroupDate(sign: string, y: string, m: string, d: string, t: string)
    ensures sign + ("P" + (y + (m + d) + t)) == (sign + "P") + y + m + d + t
    ensures "-" + "P" == "-P" && "" + "P" == "P"
  {
  }

  // ------------------------------------------------- the condition on the parts

  /** The sign, the date and the time that the text begins with have no point and
      no T, apart from the T between date and time. */
  lemma FirstPoint(x: Script, f: Fraction)
    requires x.hasTime && x.fraction == Some(f) && PlainNumeral(f.seconds) && f.seconds.k == '.'
    requires forall w | w in x.date + x.time :: PlainNumeral(w) && w.k != '.'
    ensures StrChr(Written(x), '.') == Some("." + f.rest)
  {
    hide StrChr, WriteAll, PlainNumeral;
    NoPointInNumerals(x.date);
    NoPointInNumerals(x.time);
    WrittenSeconds(f);
    var sign := if x.negative then "-" else "";
    var p := sign + ("P" + (WriteAll(x.date) + ("T" + (WriteAll(x.time) + f.seconds.digits))));
    assert '.' !in f.seconds.digits by { DigitsHaveNoPoint(f.seconds); }
    assert '.' !in p;
    GroupPoint(sign, "P", WriteAll(x.date), "T", WriteAll(x.time), f.seconds.digits, "." + f.rest);
    StrChrSkips(p, "." + f.rest, '.');
    PointIsFound(f.rest);
  }

  lemma DigitsHaveNoPoint(w: Numeral)
    requires PlainNumeral(w)
    ensures '.' !in w.digits
  {
  }

  lemma PointIsFound(rest: string)
    ensures StrChr("." + rest, '.') == Some("." + rest)
  {
  }

  lemma WrittenSeconds(f: Fraction)
    requires PlainNumeral(f.seconds) && f.seconds.k == '.'
    ensures FractionWritten(Some(f)) == f.seconds.digits + ("." + f.rest)
  {
    GroupSeconds(f.seconds.digits, f.rest);
  }

  lemma GroupSeconds(digits: string, rest: string)
    ensures "" + ("" + (digits + ['.'])) + rest == digits + ("." + rest)
  {
  }

  lemma GroupPoint(a: string, b: string, c: string, d: string, e: string, f: string, g: string)
    ensures a + (b + (c + (d + (e + (f + g))))) == a + (b + (c + (d + (e + f)))) + g
  {
  }

  /** In a plain text all numbers are plain. */
  lemma PlainParts(x: Script, readFloat: FloatReader)
    requires Admissible(x, readFloat) && Plain(Unsigned(Written(x)))
    ensures forall w | w in x.date + x.time :: PlainNumeral(w) && IsNumeral(w)
    ensures x.fraction.Some? ==> PlainNumeral(x.fraction.value.seconds)
  {
    hide Plain, PlainNumeral, IsNumeral, WriteAll;
    WrittenSign(x);
    PlainJoins("P", WriteAll(x.date) + TimeWritten(x));
    PlainJoins(WriteAll(x.date), TimeWritten(x));
    NumeralsArePlain(x.date);
    if x.hasTime {
      PlainJoins("T", WriteAll(x.time) + FractionWritten(x.fraction));
      PlainJoins(WriteAll(x.time), FractionWritten(x.fraction));
      NumeralsArePlain(x.time);
      if x.fraction.Some? {
        PlainJoins(Write(x.fraction.value.seconds), x.fraction.value.rest);
        NumeralIsPlain(x.fraction.value.seconds);
      }
    }
  }

  lemma FractionEndsRest(rest: string)
    requires var t := "." + rest; |t| > 2 && t[|t| - 1] == 'S' && AllDigits(t[1..|t| - 1])
    ensures |rest| > 1 && rest[|rest| - 1] == 'S' && AllDigits(rest[..|rest| - 1])
  {
    assert ("." + rest)[1..|rest|] == rest[..|rest| - 1];
  }

  /** The designators of numbers in a row. */
  function Keys(ws: seq<Numeral>): string {
    if ws == [] then "" else [ws[0].k] + Keys(ws[1..])
  }

  lemma LettersOfNumeral(w: Numeral)
    requires PlainNumeral(w)
    ensures Letters(Write(w)) == [w.k]
  {
    LettersOfDigits(w.digits);
    LettersJoin(w.digits, [w.k]);
    assert Write(w) == w.digits + [w.k];
    assert [w.k][1..] == "";
  }

  lemma {:induction false} LettersOfNumerals(ws: seq<Numeral>)
    requires forall w | w in ws :: PlainNumeral(w)
    ensures Letters(WriteAll(ws)) == Keys(ws)
  {
    hide PlainNumeral, Write;
    if ws == [] {
    } else {
      LettersOfNumeral(ws[0]);
      LettersOfNumerals(ws[1..]);
      LettersJoin(Write(ws[0]), WriteAll(ws[1..]));
    }
  }

  function FractionLetters(fraction: Option<Fraction>): string {
    if fraction.Some? then "." + Letters(fraction.value.rest) else ""
  }

  /** The letters of a plain text, part by part. */
  lemma LettersOfScript(x: Script)
    requires forall w | w in x.date + x.time :: PlainNumeral(w)
    requires x.fraction.Some? ==> PlainNumeral(x.fraction.value.seconds) && x.fraction.value.seconds.k == '.'
    ensures Unsigned(Written(x)) != ""
    ensures Letters(Unsigned(Written(x))[1..])
            == Keys(x.date) + if x.hasTime then "T" + (Keys(x.time) + FractionLetters(x.fraction)) else ""
  {
    hide PlainNumeral, Letters, WriteAll, Write, Keys, Unsigned, Written;
    var d, t, f := WriteAll(x.date), WriteAll(x.time), FractionWritten(x.fraction);
    WrittenSign(x);
    assert Unsigned(Written(x))[1..] == d + TimeWritten(x);
    assert forall w | w in x.date :: w in x.date + x.time;
    assert forall w | w in x.time :: w in x.date + x.time;
    LettersOfNumerals(x.date);
    LettersOfNumerals(x.time);
    LettersJoin(d, TimeWritten(x));
    LettersJoin("T", t + f);
    LettersJoin(t, f);
    LettersOfT();
    if x.fraction.Some? {
      LettersOfNumeral(x.fraction.value.seconds);
      LettersJoin(Write(x.fraction.value.seconds), x.fraction.value.rest);
    }
  }

  lemma LettersOfT()
    ensures Letters("T") == "T" && Letters("") == ""
  {
  }

  /** The place of the last of the letters, if there is one. */
  function EndPlace(letters: string, last: int): int {
    if letters == "" then last else EndPlace(letters[1..], Place(letters[0], last >= 3))
  }

  lemma {:induction false} InPlaceSplits(a: string, b: string, last: int)
    requires InPlace(a + b, last)
    ensures InPlace(a, last) && InPlace(b, EndPlace(a, last)) && EndPlace(a, last) >= last
  {
    if a == "" {
      assert a + b == b;
    } else {
      assert (a + b)[1..] == a[1..] + b;
      InPlaceSplits(a[1..], b, Place(a[0], last >= 3));
    }
  }

  /** A designator of numbers on that side of the T. */
  predicate Sided(k: char, afterT: bool) {
    if afterT then k == 'H' || k == 'M' || k == 'S' else k == 'Y' || k == 'M' || k == 'D'
  }

  /** Numbers whose letters are in place, all on one side of the T. */
  lemma {:induction false} KeysBetween(ws: seq<Numeral>, last: int, afterT: bool)
    requires InPlace(Keys(ws), last) && afterT == (last >= 3)
    requires forall w | w in ws :: Sided(w.k, afterT)
    ensures forall w | w in ws :: last < Place(w.k, afterT) <= EndPlace(Keys(ws), last)
    ensures last <= EndPlace(Keys(ws), last) && afterT == (EndPlace(Keys(ws), last) >= 3)
  {
    if ws == [] {
    } else {
      assert Keys(ws)[1..] == Keys(ws[1..]);
      assert Sided(ws[0].k, afterT);
      KeysBetween(ws[1..], Place(ws[0].k, afterT), afterT);
      assert ws == [ws[0]] + ws[1..];
    }
  }

  lemma {:induction false} KeysAscend(ws: seq<Numeral>, last: int, afterT: bool)
    requires InPlace(Keys(ws), last) && afterT == (last >= 3)
    requires forall w | w in ws :: Sided(w.k, afterT)
    ensures forall i, j | 0 <= i < j < |ws| :: Rank(ws[i].k) < Rank(ws[j].k)
  {
    hide Rank;
    if ws == [] {
    } else {
      var p := Place(ws[0].k, afterT);
      assert Keys(ws)[1..] == Keys(ws[1..]);
      assert Sided(ws[0].k, afterT);
      KeysBetween(ws[1..], p, afterT);
      KeysAscend(ws[1..], p, afterT);
      forall i, j | 0 <= i < j < |ws|
        ensures Rank(ws[i].k) < Rank(ws[j].k)
      {
        assert ws[j] == ws[1..][j - 1] && ws[j] in ws[1..];
        if i == 0 { RankByPlace(ws[0].k, ws[j].k, afterT); } else { assert ws[i] == ws[1..][i - 1]; }
      }
    }
  }

  lemma RankByPlace(j: char, k: char, afterT: bool)
    requires Sided(j, afterT) && Sided(k, afterT) && Place(j, afterT) < Place(k, afterT)
    ensures Rank(j) < Rank(k)
  {
  }

  lemma PartsInPlace(x: Script)
    requires forall w | w in x.date :: PlainNumeral(w) && Sided(w.k, false)
    requires forall w | w in x.time :: PlainNumeral(w) && Sided(w.k, true)
    requires var more := if x.hasTime then "T" + (Keys(x.time) + FractionLetters(x.fraction)) else "";
             InPlace(Keys(x.date) + more, -1)
    ensures InOrder(x.date, 0) && (x.hasTime ==> InOrder(x.time, 0))
    ensures x.hasTime && x.fraction.Some? ==> forall w | w in x.time :: w.k != 'S'
  {
    hide PlainNumeral, Keys, InPlace, EndPlace, Letters;
    var later := Keys(x.time) + FractionLetters(x.fraction);
    var more := if x.hasTime then "T" + later else "";
    InPlaceSplits(Keys(x.date), more, -1);
    KeysBetween(x.date, -1, false);
    KeysAscend(x.date, -1, false);
    if x.hasTime {
      var p := EndPlace(Keys(x.date), -1);
      BehindT(later, p);
      InPlaceSplits(Keys(x.time), FractionLetters(x.fraction), 3);
      KeysBetween(x.time, 3, true);
      KeysAscend(x.time, 3, true);
      if x.fraction.Some? { BehindPoint(Letters(x.fraction.value.rest), EndPlace(Keys(x.time), 3)); }
    }
  }

  lemma BehindT(rest: string, last: int)
    requires InPlace("T" + rest, last) && last < 3
    ensures InPlace(rest, 3)
  {
    assert ("T" + rest)[1..] == rest;
  }

  lemma BehindPoint(rest: string, last: int)
    requires InPlace("." + rest, last) && last >= 3
    ensures last < 6
  {
    assert ("." + rest)[0] == '.';
  }

  lemma PresentParts(x: Script)
    requires var letters := Keys(x.date) + if x.hasTime then "T" + (Keys(x.time) + FractionLetters(x.fraction)) else "";
             letters != "" && letters[|letters| - 1] != 'T'
    requires !x.hasTime ==> x.time == [] && x.fraction == None
    ensures x.hasTime <==> x.time != [] || x.fraction.Some?
    ensures x.date != [] || x.time != [] || x.fraction.Some?
  {
    DanglingT(Keys(x.date));
  }

  lemma DanglingT(keys: string)
    ensures var letters := keys + ("T" + ("" + ""));
            letters[|letters| - 1] == 'T'
  {
  }

  lemma FractionParts(x: Script, f: Fraction)
    requires forall w | w in x.date + x.time :: PlainNumeral(w) && w.k != '.'
    requires x.hasTime && x.fraction == Some(f) && PlainNumeral(f.seconds) && f.seconds.k == '.'
             && FractionEnds(Written(x))
    ensures |f.rest| > 1 && f.rest[|f.rest| - 1] == 'S' && AllDigits(f.rest[..|f.rest| - 1])
  {
    hide PlainNumeral, StrChr, Written, AllDigits;
    FirstPoint(x, f);
    FractionEndsRest(f.rest);
  }

  lemma SidedParts(x: Script, readFloat: FloatReader)
    requires Admissible(x, readFloat)
    ensures forall w | w in x.date :: Sided(w.k, false)
    ensures forall w | w in x.time :: Sided(w.k, true)
  {
    hide IsNumeral;
  }

  lemma CanonicalTakenApart(x: Script, readFloat: FloatReader)
    requires Admissible(x, readFloat) && Canonical(Written(x))
    ensures CanonicalParts(x)
  {
    hide IsNumeral, PlainNumeral, Plain, InOrder, FractionEnds, Written, AllDigits, Letters, InPlace, Keys,
         FractionLetters, Numerals, Unsigned;
    PlainParts(x, readFloat);
    SidedParts(x, readFloat);
    LettersOfScript(x);
    assert forall w | w in x.date :: w in x.date + x.time;
    assert forall w | w in x.time :: w in x.date + x.time;
    PartsInPlace(x);
    PresentParts(x);
    NothingInOrder();
    if x.fraction.Some? { FractionParts(x, x.fraction.value); }
  }

  lemma NothingInOrder()
    ensures InOrder([], 0)
  {
  }

  /** Among the accepted texts, exactly those in canonical form are durations. */
  lemma ExactlyTheDurations(s: string, readFloat: FloatReader)
    requires Parse(s, readFloat).Some?
    ensures IsDuration(s) <==> Canonical(s)
  {
    hide Parse, Canonical, CanonicalParts, WellFormed, Spell, Written, Admissible, ScriptOf, LexemeFor;
    if x: Lexeme :| WellFormed(x) && Spell(x) == s {
      DurationIsCanonical(x);
    }
    if Canonical(s) {
      var x := ScriptOf(s, readFloat);
      AcceptedIsWritten(s, readFloat);
      CanonicalTakenApart(x, readFloat);
      PartsSpell(x);
    }
  }

  /** Accepted texts that are no durations: one that lists nothing, and one that
      lists a negative number of days. */
  lemma AcceptedButNoDuration(s: string, t: string, readFloat: FloatReader)
    requires s == "P" && t == "P-5D"
    ensures Parse(s, readFloat) == Some(Reading(false, [], [], 0.0)) && !IsDuration(s)
    ensures Parse(t, readFloat) == Some(Reading(false, [Item(-5, 'D')], [], 0.0)) && !IsDuration(t)
  {
    hide Parse, IsDuration;
    NothingListed(readFloat);
    ExactlyTheDurations(s, readFloat);
    NegativeDays(Numeral("", "-", "5", 'D'), readFloat);
    ExactlyTheDurations(t, readFloat);
    assert t[1] == '-' && t[1] in Unsigned(t);
  }

  lemma NothingListed(readFloat: FloatReader)
    ensures Parse("P", readFloat) == Some(Reading(false, [], [], 0.0))
  {
    hide Parse;
    var x := Script(false, [], false, [], None);
    assert Written(x) == "P";
    WrittenIsAccepted(x, readFloat);
  }

  lemma NegativeDays(five: Numeral, readFloat: FloatReader)
    requires five == Numeral("", "-", "5", 'D')
    ensures Parse("P-5D", readFloat) == Some(Reading(false, [Item(-5, 'D')], [], 0.0))
  {
    hide Parse;
    var x := Script(false, [five], false, [], None);
    assert Write(five) == "-5D";
    assert WriteAll([five]) == Write(five) + WriteAll([]);
    assert Written(x) == "P-5D";
    assert five.digits == "5" && five.digits[..0] == "" && Value(five.digits) == 5;
    assert NumberOf(five) == -5;
    assert Items([five]) == [Item(-5, 'D')];
    assert x.time == [] && Items(x.time) + FractionItems(None) == [];
    WrittenIsAccepted(x, readFloat);
  }
}
