/** The texts that the parser of duration.c accepts, all of them: blanks, signs,
    repetitions and any order included. */
module DurationLanguage {
  import opened Digits
  import opened DurationScan
  import opened DurationSpec
  import opened DurationRoundTrip
  import opened Options

  /** A number as `%lld%c` takes it: blanks, an optional sign, digits, and the
      character behind them. */
  datatype Numeral = Numeral(blanks: string, sign: string, digits: string, k: char)

  predicate IsNumeral(w: Numeral) {
    && (forall c | c in w.blanks :: IsBlank(c))
    && (w.sign == "" || w.sign == "+" || w.sign == "-")
    && w.digits != "" && AllDigits(w.digits) && !IsDigit(w.k)
  }

  function Write(w: Numeral): string { w.blanks + (w.sign + (w.digits + [w.k])) }

  function NumberOf(w: Numeral): int
    requires IsNumeral(w)
  {
    var n: int := Value(w.digits);
    if w.sign == "-" then -n else n
  }

  // ----------------------------------------------------------------- one number

  lemma {:induction false} BlanksSkipped(blanks: string, rest: string)
    requires (forall c | c in blanks :: IsBlank(c)) && rest != "" && !IsBlank(rest[0])
    ensures SkipBlanks(blanks + rest) == rest
  {
    if blanks == "" {
      assert blanks + rest == rest;
    } else {
      assert blanks[0] in blanks && (blanks + rest)[1..] == blanks[1..] + rest;
      BlanksSkipped(blanks[1..], rest);
    }
  }

  lemma ScanBehindBlanks(s: string, sign: string, u: string)
    requires SkipBlanks(s) == sign + u && (sign == "" || sign == "+" || sign == "-")
    requires u != "" && IsDigit(u[0]) && DigitRun(u) > 0
    ensures var r := DigitRun(u);
            var n: int := Value(u[..r]);
            ScanLong(s) == Some((if sign == "-" then -n else n, u[r..]))
  {
    hide SkipBlanks, DigitRun, Value;
    var t := SkipBlanks(s);
    if sign == "" {
      assert t == u;
    } else {
      assert t[0] == sign[0] && t[1..] == u;
    }
  }

  lemma ScanInParts(blanks: string, sign: string, u: string)
    requires (forall c | c in blanks :: IsBlank(c)) && (sign == "" || sign == "+" || sign == "-")
    requires u != "" && IsDigit(u[0])
    ensures var r := DigitRun(u);
            var n: int := Value(u[..r]);
            ScanLong(blanks + (sign + u)) == Some((if sign == "-" then -n else n, u[r..]))
  {
    hide Value, ScanLong;
    BlanksSkipped(blanks, sign + u);
    ScanBehindBlanks(blanks + (sign + u), sign, u);
  }

  /** What the scanner makes of a number, whatever follows. */
  lemma NumeralScans(w: Numeral, tail: string)
    requires IsNumeral(w)
    ensures ScanLong(Write(w) + tail) == Some((NumberOf(w), [w.k] + tail))
  {
    hide ScanLong, DigitRun, Value;
    var rest := [w.k] + tail;
    var u := w.digits + rest;
    assert u[0] == w.digits[0];
    WriteGroups(w, tail);
    DigitRunEnds(w.digits, rest);
    assert u[..|w.digits|] == w.digits && u[|w.digits|..] == rest;
    ScanInParts(w.blanks, w.sign, u);
  }

  lemma WriteGroups(w: Numeral, tail: string)
    ensures Write(w) + tail == w.blanks + (w.sign + (w.digits + ([w.k] + tail)))
  {
    Regrouped(w.blanks, w.sign, w.digits, [w.k], tail);
  }

  lemma NumeralIsItem(w: Numeral, tail: string)
    requires IsNumeral(w)
    ensures var s := Write(w) + tail;
            ScanItem(s) == Some(Item(NumberOf(w), w.k)) && AfterItem(s) == tail && s != "" && s[0] != 'T'
  {
    NumeralScans(w, tail);
    assert ([w.k] + tail)[1..] == tail;
    NumeralStarts(w, tail);
  }

  lemma NumeralStarts(w: Numeral, tail: string)
    requires IsNumeral(w)
    ensures Write(w) + tail != "" && (Write(w) + tail)[0] != 'T'
  {
    var s := Write(w) + tail;
    if w.blanks != "" {
      assert s[0] == w.blanks[0] && w.blanks[0] in w.blanks;
    } else if w.sign == "" {
      assert s[0] == w.digits[0];
    } else {
      assert s[0] == w.sign[0];
    }
  }

  /** The number that a scan has found. */
  function NumeralAt(s: string): Numeral
    requires ScanItem(s).Some?
  {
    var t := SkipBlanks(s);
    var sign := if t[0] == '-' || t[0] == '+' then [t[0]] else "";
    var u := t[|sign|..];
    Numeral(s[..|s| - |t|], sign, u[..DigitRun(u)], u[DigitRun(u)])
  }

  lemma {:induction false} BlanksThere(s: string)
    ensures var n := |s| - |SkipBlanks(s)|;
            s[n..] == SkipBlanks(s) && forall c | c in s[..n] :: IsBlank(c)
  {
    if s == "" || !IsBlank(s[0]) {
      assert s[..0] == "" && s[0..] == s;
    } else {
      BlanksThere(s[1..]);
      var n := |s| - |SkipBlanks(s)|;
      assert s[..n] == [s[0]] + s[1..][..n - 1] && s[n..] == s[1..][n - 1..];
    }
  }

  lemma NumeralThere(s: string)
    requires ScanItem(s).Some?
    ensures var w := NumeralAt(s);
            IsNumeral(w) && s == Write(w) + AfterItem(s) && ScanItem(s) == Some(Item(NumberOf(w), w.k))
  {
    hide ScanItem, AfterItem, NumeralAt, IsNumeral, Write;
    NumeralWhole(s);
    NumeralParts(s);
    WriteGroups(NumeralAt(s), AfterItem(s));
  }

  lemma Cut(s: string, n: nat)
    requires n <= |s|
    ensures s == s[..n] + s[n..]
  {
  }

  lemma First(s: string)
    requires s != ""
    ensures s == [s[0]] + s[1..]
  {
  }

  lemma NumeralParts(s: string)
    requires ScanItem(s).Some?
    ensures var w := NumeralAt(s);
            s == w.blanks + (w.sign + (w.digits + ([w.k] + AfterItem(s))))
  {
    hide SkipBlanks, DigitRun, Value;
    var w, t := NumeralAt(s), SkipBlanks(s);
    BlanksThere(s);
    Cut(s, |s| - |t|);
    var u := t[|w.sign|..];
    SignThere(t, w.sign);
    Cut(u, DigitRun(u));
    First(u[DigitRun(u)..]);
  }

  lemma SignThere(t: string, sign: string)
    requires t != "" && sign == if t[0] == '-' || t[0] == '+' then [t[0]] else ""
    ensures t == sign + t[|sign|..]
  {
    if sign == "" { assert t[0..] == t; }
  }

  lemma NumeralWhole(s: string)
    requires ScanItem(s).Some?
    ensures IsNumeral(NumeralAt(s)) && ScanItem(s) == Some(Item(NumberOf(NumeralAt(s)), NumeralAt(s).k))
  {
    hide SkipBlanks, DigitRun, Value;
    BlanksThere(s);
  }

  lemma Regrouped(a: string, b: string, c: string, d: string, e: string)
    ensures a + (b + (c + (d + e))) == a + (b + (c + d)) + e
  {
  }

  // ------------------------------------------------------------ lists of numbers

  predicate Numerals(ws: seq<Numeral>, designators: string) {
    forall w | w in ws :: IsNumeral(w) && w.k in designators
  }

  function WriteAll(ws: seq<Numeral>): string {
    if ws == [] then "" else Write(ws[0]) + WriteAll(ws[1..])
  }

  function Items(ws: seq<Numeral>): (items: seq<Item>)
    requires forall w | w in ws :: IsNumeral(w)
    ensures |items| == |ws|
  {
    if ws == [] then [] else [Item(NumberOf(ws[0]), ws[0].k)] + Items(ws[1..])
  }

  lemma WriteSplits(ws: seq<Numeral>, tail: string)
    requires ws != []
    ensures WriteAll(ws) + tail == Write(ws[0]) + (WriteAll(ws[1..]) + tail)
  {
  }

  lemma {:induction false} WrittenDateReads(ws: seq<Numeral>, tail: string)
    requires Numerals(ws, "YMD") && (tail != "" ==> tail[0] == 'T')
    ensures DateItems(WriteAll(ws) + tail) == Some((Items(ws), if tail == "" then "" else tail[1..]))
  {
    if ws == [] {
      assert WriteAll(ws) + tail == tail;
    } else {
      WriteSplits(ws, tail);
      NumeralIsItem(ws[0], WriteAll(ws[1..]) + tail);
      WrittenDateReads(ws[1..], tail);
    }
  }

  lemma {:induction false} WrittenTimeReads(ws: seq<Numeral>, tail: string, readFloat: FloatReader)
    requires Numerals(ws, "HMS")
    ensures TimeItems(WriteAll(ws) + tail, readFloat) == PrependAll(Items(ws), TimeItems(tail, readFloat))
  {
    if ws == [] {
      assert WriteAll(ws) + tail == tail;
      PrependNothing(TimeItems(tail, readFloat));
    } else {
      WriteSplits(ws, tail);
      NumeralIsItem(ws[0], WriteAll(ws[1..]) + tail);
      WrittenTimeReads(ws[1..], tail, readFloat);
      assert Items(ws)[1..] == Items(ws[1..]);
      PrependAllCons(Items(ws), TimeItems(tail, readFloat));
    }
  }

  // ------------------------------------------------------------------ whole texts

  /** Seconds followed by a decimal point, and all that stands behind the point. */
  datatype Fraction = Fraction(seconds: Numeral, rest: string)

  datatype Script = Script(negative: bool, date: seq<Numeral>, hasTime: bool, time: seq<Numeral>,
                           fraction: Option<Fraction>)

  function FractionWritten(fraction: Option<Fraction>): string {
    if fraction.Some? then Write(fraction.value.seconds) + fraction.value.rest else ""
  }

  function TimeWritten(x: Script): string {
    if x.hasTime then "T" + (WriteAll(x.time) + FractionWritten(x.fraction)) else ""
  }

  function Written(x: Script): string {
    (if x.negative then "-" else "") + ("P" + (WriteAll(x.date) + TimeWritten(x)))
  }

  predicate FractionAdmissible(fraction: Option<Fraction>, readFloat: FloatReader) {
    fraction.Some? ==>
      IsNumeral(fraction.value.seconds) && fraction.value.seconds.k == '.' && readFloat("." + fraction.value.rest).Some?
  }

  /** A sign, a P, numbers with the designators Y, M and D, and possibly a T, numbers
      with the designators H, M and S, and seconds with a readable fraction. */
  predicate Admissible(x: Script, readFloat: FloatReader) {
    && Numerals(x.date, "YMD") && Numerals(x.time, "HMS")
    && (!x.hasTime ==> x.time == [] && x.fraction == None)
    && FractionAdmissible(x.fraction, readFloat)
  }

  function FractionItems(fraction: Option<Fraction>): seq<Item>
    requires fraction.Some? ==> IsNumeral(fraction.value.seconds)
  {
    if fraction.Some? then [Item(NumberOf(fraction.value.seconds), 'S')] else []
  }

  function FractionValue(fraction: Option<Fraction>, readFloat: FloatReader): real
    requires FractionAdmissible(fraction, readFloat)
  {
    if fraction.Some? then readFloat("." + fraction.value.rest).value else 0.0
  }

  function ReadingOf(x: Script, readFloat: FloatReader): Reading
    requires Admissible(x, readFloat)
  {
    Reading(x.negative, Items(x.date), Items(x.time) + FractionItems(x.fraction), FractionValue(x.fraction, readFloat))
  }

  lemma WrittenFractionReads(fraction: Option<Fraction>, readFloat: FloatReader)
    requires FractionAdmissible(fraction, readFloat)
    ensures TimeItems(FractionWritten(fraction), readFloat)
            == Some((FractionItems(fraction), FractionValue(fraction, readFloat)))
  {
    if fraction.Some? {
      NumeralScans(fraction.value.seconds, fraction.value.rest);
      NumeralStarts(fraction.value.seconds, fraction.value.rest);
    }
  }

  lemma WrittenSign(x: Script)
    ensures Written(x) != "" && (Written(x)[0] == '-' <==> x.negative)
    ensures Unsigned(Written(x)) == "P" + (WriteAll(x.date) + TimeWritten(x))
  {
    var t := "P" + (WriteAll(x.date) + TimeWritten(x));
    if x.negative { assert ("-" + t)[1..] == t; } else { assert "" + t == t; }
  }

  /** Every text of this form is accepted, and lists its numbers. */
  lemma WrittenIsAccepted(x: Script, readFloat: FloatReader)
    requires Admissible(x, readFloat)
    ensures Parse(Written(x), readFloat) == Some(ReadingOf(x, readFloat))
  {
    hide TimeItems, DateItems, WriteAll, Items, TimeWritten, FractionItems, FractionValue, Numerals, FractionAdmissible;
    WrittenSign(x);
    var t := Unsigned(Written(x));
    var tail := TimeWritten(x);
    assert t[0] == 'P' && t[1..] == WriteAll(x.date) + tail;
    TimeWrittenReads(x, readFloat);
    WrittenDateReads(x.date, tail);
  }

  lemma TimeWrittenReads(x: Script, readFloat: FloatReader)
    requires Admissible(x, readFloat)
    ensures var tail := TimeWritten(x);
            && (tail != "" ==> tail[0] == 'T')
            && TimeItems(if tail == "" then "" else tail[1..], readFloat)
               == Some((Items(x.time) + FractionItems(x.fraction), FractionValue(x.fraction, readFloat)))
  {
    hide Write, IsNumeral;
    if x.hasTime {
      assert TimeWritten(x)[1..] == WriteAll(x.time) + FractionWritten(x.fraction);
      WrittenTimeReads(x.time, FractionWritten(x.fraction), readFloat);
      WrittenFractionReads(x.fraction, readFloat);
    } else {
      assert Items(x.time) + FractionItems(x.fraction) == [];
    }
  }

  // -------------------------------------------------------- taking a text apart

  function DateNumerals(s: string): seq<Numeral>
    requires DateItems(s).Some?
    decreases |s|
  {
    if s == "" || s[0] == 'T' then [] else [NumeralAt(s)] + DateNumerals(AfterItem(s))
  }

  /** The text from its T on. */
  function DateTail(s: string): string
    requires DateItems(s).Some?
    decreases |s|
  {
    if s == "" || s[0] == 'T' then s else DateTail(AfterItem(s))
  }

  lemma {:induction false} DateThere(s: string)
    requires DateItems(s).Some?
    ensures s == WriteAll(DateNumerals(s)) + DateTail(s) && Numerals(DateNumerals(s), "YMD")
    ensures var tail := DateTail(s);
            (tail != "" ==> tail[0] == 'T') && DateItems(s).value.1 == if tail == "" then "" else tail[1..]
    decreases |s|
  {
    hide IsNumeral, Write, NumeralAt;
    if s == "" || s[0] == 'T' {
      assert "" + s == s;
    } else {
      NumeralThere(s);
      DateThere(AfterItem(s));
      PrependNumeral(NumeralAt(s), DateNumerals(AfterItem(s)), DateTail(s));
    }
  }

  lemma PrependNumeral(w: Numeral, ws: seq<Numeral>, tail: string)
    ensures WriteAll([w] + ws) + tail == Write(w) + (WriteAll(ws) + tail)
  {
    assert ([w] + ws)[1..] == ws;
  }

  function TimeNumerals(s: string, readFloat: FloatReader): seq<Numeral>
    requires TimeItems(s, readFloat).Some?
    decreases |s|
  {
    if s == "" || NumeralAt(s).k == '.' then [] else [NumeralAt(s)] + TimeNumerals(AfterItem(s), readFloat)
  }

  function TimeFraction(s: string, readFloat: FloatReader): Option<Fraction>
    requires TimeItems(s, readFloat).Some?
    decreases |s|
  {
    if s == "" then None
    else if NumeralAt(s).k == '.' then Some(Fraction(NumeralAt(s), AfterItem(s)))
    else TimeFraction(AfterItem(s), readFloat)
  }

  lemma {:induction false} TimeThere(s: string, readFloat: FloatReader)
    requires TimeItems(s, readFloat).Some?
    ensures s == WriteAll(TimeNumerals(s, readFloat)) + FractionWritten(TimeFraction(s, readFloat))
    ensures Numerals(TimeNumerals(s, readFloat), "HMS") && FractionAdmissible(TimeFraction(s, readFloat), readFloat)
    decreases |s|
  {
    hide IsNumeral, Write;
    if s == "" {
    } else {
      NumeralThere(s);
      if NumeralAt(s).k == '.' {
        FractionThere(s);
        assert "" + s == s;
      } else {
        TimeThere(AfterItem(s), readFloat);
        PrependNumeral(NumeralAt(s), TimeNumerals(AfterItem(s), readFloat),
                       FractionWritten(TimeFraction(s, readFloat)));
      }
    }
  }

  lemma FractionThere(s: string)
    requires ScanItem(s).Some? && ScanItem(s).value.k == '.'
    ensures ScanLong(s).value.1 == "." + AfterItem(s)
  {
  }

  function ScriptOf(s: string, readFloat: FloatReader): Script
    requires Parse(s, readFloat).Some?
  {
    var t := Unsigned(s)[1..];
    var tail := DateTail(t);
    DateThere(t);
    if tail == "" then Script(s[0] == '-', DateNumerals(t), false, [], None)
    else Script(s[0] == '-', DateNumerals(t), true, TimeNumerals(tail[1..], readFloat),
                TimeFraction(tail[1..], readFloat))
  }

  /** Every accepted text is of this form. */
  lemma AcceptedIsWritten(s: string, readFloat: FloatReader)
    requires Parse(s, readFloat).Some?
    ensures Admissible(ScriptOf(s, readFloat), readFloat) && Written(ScriptOf(s, readFloat)) == s
  {
    hide IsNumeral, Write, WriteAll, TimeItems, DateItems, DateNumerals, DateTail, TimeNumerals, TimeFraction,
         FractionWritten;
    var x := ScriptOf(s, readFloat);
    var t := Unsigned(s)[1..];
    DateThere(t);
    if x.hasTime { TimeThere(DateTail(t)[1..], readFloat); }
    assert TimeWritten(x) == DateTail(t);
    assert Unsigned(s) == "P" + t;
    assert s == (if x.negative then "-" else "") + Unsigned(s);
  }

  /** The accepted language: a text is accepted exactly if it is of this form. */
  lemma AcceptedLanguage(s: string, readFloat: FloatReader)
    ensures Parse(s, readFloat).Some? <==> exists x: Script :: Admissible(x, readFloat) && Written(x) == s
  {
    hide Parse, Admissible, Written, ReadingOf, ScriptOf;
    if Parse(s, readFloat).Some? {
      AcceptedIsWritten(s, readFloat);
    }
    if x: Script :| Admissible(x, readFloat) && Written(x) == s {
      WrittenIsAccepted(x, readFloat);
    }
  }
}
