/** What duration.c means by a printed and by a parsed xsd:duration, stated on
    strings and unbounded integers. Durations are counted in milliseconds. */
module DurationSpec {
  import opened Digits
  import opened Options

  const LONG64_MAX: int := 0x7FFF_FFFF_FFFF_FFFF
  const LONG64_MIN: int := -0x8000_0000_0000_0000
  const LONG_MAX: int := 0x7FFF_FFFF

  newtype LONG64 = x: int | -0x8000_0000_0000_0000 <= x <= 0x7FFF_FFFF_FFFF_FFFF

  function Abs(a: int): nat { if a < 0 then -a else a }

  // ---------------------------------------------------------------- printing

  datatype Parts = Parts(d: nat, h: nat, m: nat, s: nat, f: nat)

  /** Days, hours, minutes, seconds and milliseconds of a count. */
  function Split(u: nat): Parts {
    Parts(u / 86_400_000, u / 3_600_000 % 24, u / 60_000 % 60, u / 1000 % 60, u % 1000)
  }

  function DayText(d: nat): string { if d > 0 then Decimal(d) + "D" else "" }

  function ClockText(p: Parts): string {
    if p.f > 0 then "T" + Decimal(p.h) + "H" + Decimal(p.m) + "M" + Decimal(p.s) + FractionText(p.f)
    else if p.h > 0 then "T" + Decimal(p.h) + "H" + Decimal(p.m) + "M" + Decimal(p.s) + "S"
    else if p.m > 0 then "T" + Decimal(p.m) + "M" + Decimal(p.s) + "S"
    else if p.s > 0 then "T" + Decimal(p.s) + "S"
    else if p.d == 0 then "T0S"
    else ""
  }

  /** The printed milliseconds, from the decimal point to the designator. */
  function FractionText(f: nat): string { "." + Positional(f, 3, 10) + "S" }

  function SignText(a: int): string { if a < 0 then "-P" else "P" }

  function Text(a: int): string {
    var p := Split(Abs(a));
    SignText(a) + DayText(p.d) + ClockText(p)
  }

  // ---------------------------------------------------------------- scanning

  predicate IsBlank(c: char) { c in " \t\n\r\U{0B}\U{0C}" }

  function SkipBlanks(s: string): (t: string)
    ensures |t| <= |s|
  {
    if s != "" && IsBlank(s[0]) then SkipBlanks(s[1..]) else s
  }

  function DigitRun(s: string): (r: nat)
    ensures r <= |s| && AllDigits(s[..r])
    ensures r < |s| ==> !IsDigit(s[r])
  {
    if s != "" && IsDigit(s[0]) then
      var r := 1 + DigitRun(s[1..]);
      assert s[..r] == [s[0]] + s[1..][..r - 1];
      r
    else 0
  }

  /** `sscanf(s, "%lld", &n)`: the number and the text after it. */
  function ScanLong(s: string): (r: Option<(int, string)>)
    ensures r.Some? ==> |r.value.1| < |s|
  {
    var t := SkipBlanks(s);
    var signed := t != "" && (t[0] == '-' || t[0] == '+');
    var u := if signed then t[1..] else t;
    var r := DigitRun(u);
    var n: int := Value(u[..r]);
    if r == 0 then None else Some((if signed && t[0] == '-' then -n else n, u[r..]))
  }

  /** A number with its designator. */
  datatype Item = Item(n: int, k: char)

  /** `sscanf(s, "%lld%c", &n, &k) == 2`: the item scanned, if any. */
  function ScanItem(s: string): Option<Item> {
    match ScanLong(s)
    case None => None
    case Some((n, rest)) => if rest == "" then None else Some(Item(n, rest[0]))
  }

  /** The rest of the text once its first number and designator are gone. */
  function AfterItem(s: string): (t: string)
    requires ScanItem(s).Some?
    ensures |t| < |s| - 1
  {
    ScanLong(s).value.1[1..]
  }

  // ----------------------------------------------------------------- parsing

  /** The items of the date part, and the text after the 'T' that ends it. */
  function DateItems(s: string): Option<(seq<Item>, string)>
    decreases |s|
  {
    if s == "" then Some(([], ""))
    else if s[0] == 'T' then Some(([], s[1..]))
    else match ScanItem(s)
      case None => None
      case Some(item) =>
        if item.k !in "YMD" then None else Prepend(item, DateItems(AfterItem(s)))
  }

  /** The C library's `sscanf(s, "%g", &f)`, as a function of the text scanned. */
  type FloatReader = string -> Option<real>

  /** The items of the time part, and the fraction of the seconds. A decimal
      point ends the scan: what follows the fraction is never looked at. */
  function TimeItems(s: string, readFloat: FloatReader): Option<(seq<Item>, real)>
    decreases |s|
  {
    if s == "" then Some(([], 0.0))
    else match ScanItem(s)
      case None => None
      case Some(item) =>
        if item.k == '.' then
          match readFloat(ScanLong(s).value.1)
          case None => None
          case Some(f) => Some(([Item(item.n, 'S')], f))
        else if item.k !in "HMS" then None
        else Prepend(item, TimeItems(AfterItem(s), readFloat))
  }

  function Prepend<T>(item: Item, rest: Option<(seq<Item>, T)>): Option<(seq<Item>, T)> {
    match rest
    case None => None
    case Some((items, x)) => Some(([item] + items, x))
  }

  datatype Reading = Reading(negative: bool, date: seq<Item>, time: seq<Item>, fraction: real)

  function Unsigned(s: string): string { if s != "" && s[0] == '-' then s[1..] else s }

  /** The whole parser: what an accepted text lists. */
  function Parse(s: string, readFloat: FloatReader): Option<Reading> {
    var t := Unsigned(s);
    if t == "" || t[0] != 'P' then None
    else match DateItems(t[1..])
      case None => None
      case Some((date, tail)) =>
        match TimeItems(tail, readFloat)
        case None => None
        case Some((time, fraction)) => Some(Reading(s[0] == '-', date, time, fraction))
  }

  // ----------------------------------------------------------------- meaning

  /** The last number given for a designator, 0 if there is none. */
  function Last(items: seq<Item>, k: char): int {
    if items == [] then 0
    else if items[|items| - 1].k == k then items[|items| - 1].n
    else Last(items[..|items| - 1], k)
  }

  /** Seconds of a reading: a year counts 360 days and a month 30. */
  function Seconds(r: Reading): int {
    86_400 * (360 * Last(r.date, 'Y') + 30 * Last(r.date, 'M') + Last(r.date, 'D'))
    + 3600 * Last(r.time, 'H') + 60 * Last(r.time, 'M') + Last(r.time, 'S')
  }

  /** A C conversion from floating point to integer drops the fraction. */
  function Truncate(x: real): (k: int)
    ensures x >= 0.0 ==> 0 <= k && k as real <= x < k as real + 1.0
    ensures x <= 0.0 ==> k <= 0 && k as real - 1.0 < x <= k as real
  {
    if x >= 0.0 then x.Floor else -((-x).Floor)
  }

  function Millis(r: Reading): int { Truncate(1000.0 * r.fraction) }

  function Total(r: Reading): int {
    (if r.negative then -1 else 1) * (1000 * Seconds(r) + Millis(r))
  }

  predicate Within(x: int, lo: int, hi: int) { lo <= x <= hi }

  /** Every operand and every intermediate result of the nested multiply-and-add
      that converts a reading stays between the bounds. */
  predicate StepsWithin(r: Reading, lo: int, hi: int) {
    ChainWithin(Last(r.date, 'Y'), Last(r.date, 'M'), Last(r.date, 'D'),
                Last(r.time, 'H'), Last(r.time, 'M'), Last(r.time, 'S'), Millis(r), r.negative, lo, hi)
  }

  predicate ChainWithin(y: int, mo: int, d: int, h: int, n: int, s: int, ms: int, negative: bool, lo: int, hi: int) {
    var months := y * 12 + mo;
    var days := months * 30 + d;
    var hours := days * 24 + h;
    var minutes := hours * 60 + n;
    var seconds := minutes * 60 + s;
    var total := seconds * 1000 + ms;
    && Within(y, lo, hi) && Within(mo, lo, hi) && Within(d, lo, hi)
    && Within(h, lo, hi) && Within(n, lo, hi) && Within(s, lo, hi)
    && Within(y * 12, lo, hi) && Within(months, lo, hi)
    && Within(months * 30, lo, hi) && Within(days, lo, hi)
    && Within(days * 24, lo, hi) && Within(hours, lo, hi)
    && Within(hours * 60, lo, hi) && Within(minutes, lo, hi)
    && Within(minutes * 60, lo, hi) && Within(seconds, lo, hi)
    && Within(seconds * 1000, lo, hi) && Within(total, lo, hi)
    && Within(if negative then -total else total, lo, hi)
  }

  /** Every number that is scanned in a date part fits, and in the time part behind
      it, whether or not the text turns out to be accepted. */
  predicate DateFits(s: string)
    decreases |s|
  {
    if s == "" then true
    else if s[0] == 'T' then TimeFits(s[1..])
    else match ScanLong(s)
      case None => true
      case Some((n, rest)) =>
        Within(n, LONG64_MIN, LONG64_MAX) && (rest != "" && rest[0] in "YMD" ==> DateFits(rest[1..]))
  }

  predicate TimeFits(s: string)
    decreases |s|
  {
    if s == "" then true
    else match ScanLong(s)
      case None => true
      case Some((n, rest)) =>
        Within(n, LONG64_MIN, LONG64_MAX) && (rest != "" && rest[0] in "HMS" ==> TimeFits(rest[1..]))
  }

  predicate NumbersFit(s: string) {
    var t := Unsigned(s);
    t != "" && t[0] == 'P' ==> DateFits(t[1..])
  }

  /** The numbers scanned, and the conversion of an accepted text, fit the C types. */
  predicate Representable(s: string, readFloat: FloatReader) {
    && NumbersFit(s)
    && match Parse(s, readFloat)
       case None => true
       case Some(r) => StepsWithin(r, LONG64_MIN, LONG64_MAX) && Within(Millis(r), -LONG_MAX - 1, LONG_MAX)
  }
}
