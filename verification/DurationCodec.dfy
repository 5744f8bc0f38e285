/** The two converters of duration.c, as methods on the two members of `struct soap` they use. */
module DurationCodec {
  import opened CStrings
  import opened Constants
  import opened Digits
  import opened DurationScan
  import opened DurationSpec
  import opened DurationValue
  import opened Options

  const TMPBUF_SIZE := 1024

  class Converter {
    var error: int
    const tmpbuf: array<char>

    constructor ()
      ensures error == 0 && fresh(tmpbuf) && tmpbuf.Length == TMPBUF_SIZE
    {
      error := 0;
      tmpbuf := new char[TMPBUF_SIZE];
    }

    /** The buffer holds the NUL-terminated string `t`. */
    ghost predicate Holds(t: string)
      reads tmpbuf
    {
      |t| < tmpbuf.Length && '\0' !in t && tmpbuf[..|t|] == t && tmpbuf[|t|] == '\0'
    }

    /** `strcpy` or `sprintf` to `tmpbuf + k`. */
    method Put(k: nat, t: string)
      requires k + |t| < tmpbuf.Length && '\0' !in t
      modifies tmpbuf
      ensures tmpbuf[..k] == old(tmpbuf[..k])
      ensures '\0' !in tmpbuf[..k] ==> Holds(tmpbuf[..k] + t)
    {
      forall i | 0 <= i < |t| {
        tmpbuf[k + i] := t[i];
      }
      tmpbuf[k + |t|] := '\0';
      assert tmpbuf[..k + |t|] == tmpbuf[..k] + t;
    }

    /** `strlen(tmpbuf)`. */
    method Length(ghost t: string) returns (k: nat)
      requires Holds(t)
      ensures k == |t|
    {
      assert forall i | 0 <= i < |t| :: tmpbuf[i] == tmpbuf[..|t|][i] == t[i] && t[i] in t;
      k := 0;
      while tmpbuf[k] != '\0'
        invariant k <= |t|
        decreases |t| - k
      {
        k := k + 1;
      }
    }

    /** `soap_xsd__duration2s`. The text is left in `tmpbuf`. */
    method Duration2s(value: LONG64)
      requires value as int != LONG64_MIN && tmpbuf.Length == TMPBUF_SIZE
      modifies tmpbuf
      ensures Holds(Text(value as int))
    {
      var a, k := value, 0;
      ghost var u, sign := Abs(value as int), SignText(value as int);
      ghost var p := Split(u);
      ghost var head, clock := sign + DayText(p.d), ClockText(p);
      assert Text(value as int) == head + clock;
      if a < 0 {
        Put(0, "-P");
        k := 2;
        a := -a;
      } else {
        Put(0, "P");
        k := 1;
      }
      assert tmpbuf[..k] == sign;
      assert a as int == u;
      var f := a % 1000;
      a := a / 1000;
      var s := a % 60;
      a := a / 60;
      var m := a % 60;
      a := a / 60;
      var h := a % 24;
      var d := a / 24;
      SplitInSteps(u);
      assert p == Parts(d as nat, h as nat, m as nat, s as nat, f as nat);
      TextIsPrintable(u);
      if d != 0 {
        Put(k, Decimal(d as nat) + "D");
      }
      assert Holds(head);
      if h != 0 || m != 0 || s != 0 || f != 0 {
        if d != 0 {
          k := Length(head);
        }
        assert tmpbuf[..k] == head;
        if f != 0 {
          Put(k, "T" + Decimal(h as nat) + "H" + Decimal(m as nat) + "M" + Decimal(s as nat) + FractionText(f as nat));
        } else if h != 0 {
          Put(k, "T" + Decimal(h as nat) + "H" + Decimal(m as nat) + "M" + Decimal(s as nat) + "S");
        } else if m != 0 {
          Put(k, "T" + Decimal(m as nat) + "M" + Decimal(s as nat) + "S");
        } else if s != 0 {
          Put(k, "T" + Decimal(s as nat) + "S");
        }
      } else if d == 0 {
        Put(k, "T0S");
      }
      assert Holds(head + clock);
    }

    /** `soap_s2xsd__duration`. A missing text leaves the value 0 and no error. */
    method S2Duration(text: Option<string>, readFloat: FloatReader) returns (code: int, a: LONG64)
      requires text.Some? ==> Representable(text.value, readFloat)
      modifies this`error
      ensures code == error
      ensures text.None? ==> a == 0 && error == old(error)
      ensures text.Some? ==>
                match Parse(text.value, readFloat)
                case None => a == 0 && error == SOAP_TYPE
                case Some(r) =>
                  && a as int == Total(r) && error == old(error)
                  && Total(r) == SignOf(text.value) * (Worth(r.date, false) + Worth(r.time, true) + Millis(r))
    {
      a := 0;
      if text.Some? {
        var s := text.value;
        var sign: LONG64 := 1;
        if s != "" && s[0] == '-' {
          sign := -1;
          s := s[1..];
        }
        assert s == Unsigned(text.value);
        if s == "" || s[0] != 'P' {
          error := SOAP_TYPE;
          return error, a;
        }
        var ok, rest, years, months, days, date := DatePart(s[1..]);
        if !ok {
          error := SOAP_TYPE;
          return error, a;
        }
        var okTime, fraction, hours, minutes, seconds, time := TimePart(rest, readFloat);
        if !okTime {
          error := SOAP_TYPE;
          return error, a;
        }
        ghost var r := Reading(sign == -1, date, time, fraction);
        assert Parse(text.value, readFloat) == Some(r);
        ValueIsSum(text.value, readFloat);
        a := Combine(r, sign, years, months, days, hours, minutes, seconds, fraction);
      }
      code := error;
    }

    /** The first loop: numbers with the designators Y, M and D up to a 'T'. */
    method DatePart(text: string)
      returns (ok: bool, rest: string, years: LONG64, months: LONG64, days: LONG64, ghost date: seq<Item>)
      requires DateFits(text)
      ensures ok <==> DateItems(text).Some?
      ensures ok ==> DateItems(text) == Some((date, rest)) && TimeFits(rest)
      ensures ok ==> years as int == Last(date, 'Y') && months as int == Last(date, 'M')
                     && days as int == Last(date, 'D')
    {
      years, months, days := 0, 0, 0;
      var s := text;
      ok, rest, date := false, s, [];
      PrependNothing(DateItems(s));
      while s != ""
        invariant DateItems(text) == PrependAll(date, DateItems(s)) && DateFits(s)
        invariant years as int == Last(date, 'Y') && months as int == Last(date, 'M') && days as int == Last(date, 'D')
        decreases |s|
      {
        if s[0] == 'T' {
          s := s[1..];
          break;
        }
        var item := ScanItem(s);
        if item.None? {
          return;
        }
        var n, k := item.value.n as LONG64, item.value.k;
        if IsDesignator(k) { CursorLands(s); }
        var found := StrChr(s, k);
        if found.None? {
          return;
        }
        if k == 'Y' {
          years := n;
        } else if k == 'M' {
          months := n;
        } else if k == 'D' {
          days := n;
        } else {
          return;
        }
        PrependAllStep(date, item.value, DateItems(AfterItem(s)));
        date := date + [item.value];
        s := found.value[1..];
      }
      assert date + [] == date;
      ok, rest := true, s;
    }

    /** The second loop: numbers with the designators H, M, S and a final fraction. */
    method TimePart(text: string, readFloat: FloatReader)
      returns (ok: bool, fraction: real, hours: LONG64, minutes: LONG64, seconds: LONG64, ghost time: seq<Item>)
      requires TimeFits(text)
      ensures ok <==> TimeItems(text, readFloat).Some?
      ensures ok ==> TimeItems(text, readFloat) == Some((time, fraction))
      ensures ok ==> hours as int == Last(time, 'H') && minutes as int == Last(time, 'M')
                     && seconds as int == Last(time, 'S')
    {
      hours, minutes, seconds, fraction := 0, 0, 0, 0.0;
      ok, time := false, [];
      PrependNothing(TimeItems(text, readFloat));
      var cursor := Some(text);
      while cursor.Some? && cursor.value != ""
        invariant cursor.Some? ==> fraction == 0.0 && TimeFits(cursor.value)
                                   && TimeItems(text, readFloat) == PrependAll(time, TimeItems(cursor.value, readFloat))
        invariant cursor.None? ==> TimeItems(text, readFloat) == Some((time, fraction))
        invariant hours as int == Last(time, 'H') && minutes as int == Last(time, 'M')
                  && seconds as int == Last(time, 'S')
        decreases if cursor.Some? then 1 + |cursor.value| else 0
      {
        var s := cursor.value;
        var item := ScanItem(s);
        if item.None? {
          return;
        }
        var n, k := item.value.n as LONG64, item.value.k;
        if IsDesignator(k) { CursorLands(s); }
        var found := StrChr(s, k);
        if found.None? {
          return;
        }
        if k == 'H' {
          hours := n;
        } else if k == 'M' {
          minutes := n;
        } else if k == '.' {
          seconds := n;
          var f := readFloat(found.value);
          if f.None? {
            return;
          }
          fraction, time, cursor := f.value, time + [Item(n as int, 'S')], None;
          continue;
        } else if k == 'S' {
          seconds := n;
        } else {
          return;
        }
        PrependAllStep(time, item.value, TimeItems(AfterItem(s), readFloat));
        time := time + [item.value];
        cursor := Some(found.value[1..]);
      }
      assert cursor.Some? ==> time + [] == time;
      ok := true;
    }
  }

  /** The nested multiply-and-add in 64-bit arithmetic: nothing overflows. */
  method Combine(ghost r: Reading, sign: LONG64, years: LONG64, months: LONG64, days: LONG64, hours: LONG64,
                 minutes: LONG64, seconds: LONG64, fraction: real) returns (a: LONG64)
    requires sign == (if r.negative then -1 else 1) && fraction == r.fraction
    requires years as int == Last(r.date, 'Y') && months as int == Last(r.date, 'M') && days as int == Last(r.date, 'D')
    requires hours as int == Last(r.time, 'H') && minutes as int == Last(r.time, 'M')
             && seconds as int == Last(r.time, 'S')
    requires StepsWithin(r, LONG64_MIN, LONG64_MAX) && Within(Millis(r), -LONG_MAX - 1, LONG_MAX)
    ensures a as int == Total(r)
    ensures a as int == sign as int * (31_104_000_000 * years as int + 2_592_000_000 * months as int
                                       + 86_400_000 * days as int + 3_600_000 * hours as int + 60_000 * minutes as int
                                       + 1000 * seconds as int + Truncate(1000.0 * fraction))
  {
    var millis := Truncate(1000.0 * fraction) as LONG64;
    var total := ((((((((((years * 12) + months) * 30) + days) * 24) + hours) * 60) + minutes) * 60) + seconds) * 1000
        + millis;
    a := sign * total;
  }
}
