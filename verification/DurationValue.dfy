/** What a reading is worth, item by item and with the sign read off the text: the
    value that the nested multiply-and-add has to come to. */
module DurationValue {
  import opened DurationSpec
  import opened Options

  /** The milliseconds in one year of 360 days, one month of 30, and so on. */
  function Unit(k: char, afterT: bool): nat {
    if afterT then if k == 'H' then 3_600_000 else if k == 'M' then 60_000 else 1000
    else if k == 'Y' then 31_104_000_000 else if k == 'M' then 2_592_000_000 else 86_400_000
  }

  predicate Given(items: seq<Item>, k: char) { exists item | item in items :: item.k == k }

  /** The sum over the items, each in its unit, without those given once more. */
  function Worth(items: seq<Item>, afterT: bool): int {
    if items == [] then 0
    else
      (if Given(items[1..], items[0].k) then 0 else items[0].n * Unit(items[0].k, afterT)) + Worth(items[1..], afterT)
  }

  lemma {:induction false} LastOfAbsent(items: seq<Item>, k: char)
    requires forall item | item in items :: item.k != k
    ensures Last(items, k) == 0
  {
    if items == [] {
    } else {
      assert items[|items| - 1] in items;
      LastOfAbsent(items[..|items| - 1], k);
    }
  }

  /** The last number for a designator, looked for from the front. */
  lemma {:induction false} LastFromFront(items: seq<Item>, k: char)
    requires items != []
    ensures Last(items, k) == if Given(items[1..], k) then Last(items[1..], k)
                              else if items[0].k == k then items[0].n else 0
  {
    var n := |items| - 1;
    if n == 0 {
      assert items[..0] == [];
    } else if items[n].k == k {
      assert items[1..][n - 1] == items[n] && items[n] in items[1..];
    } else {
      LastFromFront(items[..n], k);
      assert items[..n][1..] == items[1..][..n - 1];
      GivenBefore(items[1..], k);
    }
  }

  lemma GivenBefore(items: seq<Item>, k: char)
    requires items != [] && items[|items| - 1].k != k
    ensures Given(items[..|items| - 1], k) <==> Given(items, k)
    ensures Last(items, k) == Last(items[..|items| - 1], k)
  {
    var front := items[..|items| - 1];
    assert items == front + [items[|items| - 1]];
    assert forall item | item in front :: item in items;
  }

  /** The front item counts for its designator exactly if it does not come again. */
  lemma LastSplits(items: seq<Item>, k: char)
    requires items != []
    ensures Last(items, k) == Last(items[1..], k)
                              + if items[0].k == k && !Given(items[1..], k) then items[0].n else 0
  {
    LastFromFront(items, k);
    if !Given(items[1..], k) { LastOfAbsent(items[1..], k); }
  }

  lemma {:induction false} WorthByDesignator(items: seq<Item>, afterT: bool)
    requires forall item | item in items :: item.k in (if afterT then "HMS" else "YMD")
    ensures afterT ==> Worth(items, afterT) == 3_600_000 * Last(items, 'H') + 60_000 * Last(items, 'M')
                                               + 1000 * Last(items, 'S')
    ensures !afterT ==> Worth(items, afterT) == 31_104_000_000 * Last(items, 'Y') + 2_592_000_000 * Last(items, 'M')
                                                + 86_400_000 * Last(items, 'D')
  {
    if items == [] {
    } else {
      hide Given, Last;
      assert items[0] in items && forall item | item in items[1..] :: item in items;
      WorthByDesignator(items[1..], afterT);
      LastSplits(items, 'H'); LastSplits(items, 'M'); LastSplits(items, 'S');
      LastSplits(items, 'Y'); LastSplits(items, 'D');
    }
  }

  lemma {:induction false} DateDesignators(s: string)
    requires DateItems(s).Some?
    ensures forall item | item in DateItems(s).value.0 :: item.k in "YMD"
    decreases |s|
  {
    if s != "" && s[0] != 'T' { DateDesignators(AfterItem(s)); }
  }

  lemma {:induction false} TimeDesignators(s: string, readFloat: FloatReader)
    requires TimeItems(s, readFloat).Some?
    ensures forall item | item in TimeItems(s, readFloat).value.0 :: item.k in "HMS"
    decreases |s|
  {
    if s != "" && ScanItem(s).value.k != '.' { TimeDesignators(AfterItem(s), readFloat); }
  }

  function SignOf(s: string): int { if s != "" && s[0] == '-' then -1 else 1 }

  /** The value of every accepted text: the items in their units, where of several
      numbers for a designator the last counts, and the milliseconds of the fraction,
      negative if the text begins with a minus sign. */
  lemma ValueIsSum(s: string, readFloat: FloatReader)
    requires Parse(s, readFloat).Some?
    ensures var r := Parse(s, readFloat).value;
            Total(r) == SignOf(s) * (Worth(r.date, false) + Worth(r.time, true) + Millis(r))
  {
    hide ScanItem, Last, Millis, Worth;
    var t := Unsigned(s);
    DateDesignators(t[1..]);
    TimeDesignators(DateItems(t[1..]).value.1, readFloat);
    var r := Parse(s, readFloat).value;
    WorthByDesignator(r.date, false);
    WorthByDesignator(r.time, true);
  }

  /** A minus sign in front of any accepted text without one negates its value. */
  lemma MinusNegates(s: string, readFloat: FloatReader)
    requires Parse(s, readFloat).Some? && s[0] != '-'
    ensures var r := Parse(s, readFloat).value;
            && Parse("-" + s, readFloat) == Some(r.(negative := true))
            && Total(r.(negative := true)) == -Total(r)
  {
    hide DateItems, TimeItems;
    assert ("-" + s)[1..] == s;
    var r := Parse(s, readFloat).value;
    assert !r.negative;
  }
}
