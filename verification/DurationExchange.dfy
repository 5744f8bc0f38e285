/** Printing a duration and parsing the text again, on one context. */
module DurationExchange {
  import opened DurationCodec
  import opened DurationRoundTrip
  import opened DurationSpec
  import opened Options

  lemma ReadsBackSurviving(a: int, readFloat: FloatReader)
    requires a % 1000 == 0 || ReadsNearest(readFloat)
    ensures ReadsBack(a, readFloat, Surviving(a))
  {
    if a % 1000 == 0 {
      assert Abs(a) % 1000 == 0;
      WholeSecondsSurvive(a, readFloat);
    } else {
      ExactlyWhatSurvives(a, readFloat);
    }
  }

  lemma TextIsFit(a: int, readFloat: FloatReader)
    requires LONG64_MIN < a <= LONG64_MAX && (a % 1000 == 0 || ReadsNearest(readFloat))
    ensures Representable(Text(a), readFloat)
    ensures Parse(Text(a), readFloat).Some? && Total(Parse(Text(a), readFloat).value) == Surviving(a)
  {
    hide Text, Parse, Total, Representable, Surviving, ReadsNearest, TextReading, StepsWithin;
    ReadsBackSurviving(a, readFloat);
    ReadsBackFits(a, readFloat, Surviving(a));
  }

  lemma WholeSurvives(a: int)
    ensures a % 1000 == 0 ==> Surviving(a) == a
  {
    assert a % 1000 == 0 ==> Abs(a) % 1000 == 0;
  }

  /** Every count but the minimum can be printed and parsed again, and what comes
      back is exact for whole seconds, whatever the C library makes of fractions,
      and otherwise as far as correct rounding to single precision allows. */
  method PrintAndParse(c: Converter, value: LONG64, readFloat: FloatReader) returns (code: int, back: LONG64)
    requires value as int != LONG64_MIN && c.tmpbuf.Length == TMPBUF_SIZE
    requires value % 1000 == 0 || ReadsNearest(readFloat)
    modifies c, c.tmpbuf
    ensures back as int == Surviving(value as int) && (value % 1000 == 0 ==> back == value)
    ensures code == c.error == old(c.error)
  {
    hide Text, Parse, Total, Representable, Surviving, ReadsNearest;
    ghost var a := value as int;
    TextIsFit(a, readFloat);
    WholeSurvives(a);
    c.Duration2s(value);
    var k := c.Length(Text(a));
    code, back := c.S2Duration(Some(c.tmpbuf[..k]), readFloat);
  }
}
