/** The two string searches that the modelled code relies on. */
module CStrings {
  import opened Options

  /** `strchr`: the text from the first occurrence of `k` on. */
  function StrChr(s: string, k: char): Option<string> {
    if s == "" then None else if s[0] == k then Some(s) else StrChr(s[1..], k)
  }

  /** How far two texts agree. */
  function CommonPrefix(s: string, t: string): (i: nat)
    ensures i <= |s| && i <= |t| && s[..i] == t[..i]
    ensures i < |s| && i < |t| ==> s[i] != t[i]
  {
    if s != "" && t != "" && s[0] == t[0] then
      var i := 1 + CommonPrefix(s[1..], t[1..]);
      assert s[..i] == [s[0]] + s[1..][..i - 1] && t[..i] == [t[0]] + t[1..][..i - 1];
      i
    else 0
  }

  lemma StrChrShortens(s: string, k: char)
    ensures StrChr(s, k).Some? ==> 0 < |StrChr(s, k).value| <= |s|
  {
  }

  /** `soap_tagsearch(big, little) != NULL`: is `little` one of the blank-separated
      words of `big`? A word of `big` that ends in ':' also matches as a prefix. */
  function TagSearch(big: string, little: string): bool
    decreases |big|
  {
    var i := CommonPrefix(big, little);
    var rest := big[i..];
    if (rest == "" || rest[0] == ' ') && (i == |little| || (i > 0 && little[i - 1] == ':')) then true
    else
      StrChrShortens(rest, ' ');
      match StrChr(rest, ' ')
      case None => false
      case Some(t) => TagSearch(t[1..], little)
  }

  function Join(words: seq<string>): string
    requires words != []
  {
    if |words| == 1 then words[0] else words[0] + " " + Join(words[1..])
  }

  /** A word: not empty, without blanks, not ending in ':'. */
  predicate IsWord(w: string) { w != "" && ' ' !in w && w[|w| - 1] != ':' }

  /** `little` is the first words of the list, joined by single blanks. */
  predicate StartsRun(words: seq<string>, little: string) {
    && words != []
    && (little == words[0]
        || (words[0] + " " <= little && StartsRun(words[1..], little[|words[0]| + 1..])))
  }

  /** `little` is some consecutive words of the list, joined by single blanks. */
  predicate IsRun(words: seq<string>, little: string) {
    words != [] && (StartsRun(words, little) || IsRun(words[1..], little))
  }

  predicate DistinctWords(words: seq<string>) {
    forall i, j | 0 <= i < j < |words| :: words[i] != words[j]
  }

  /** The text up to its first blank. */
  function FirstWord(t: string): (w: string)
    ensures ' ' !in w && |w| <= |t|
    ensures t == w + t[|w|..] && (|w| < |t| ==> t[|w|] == ' ')
  {
    if t == "" || t[0] == ' ' then ""
    else
      var w := FirstWord(t[1..]);
      assert t == [t[0]] + t[1..] && t[1..][|w|..] == t[1 + |w|..];
      assert [t[0]] + (w + t[1 + |w|..]) == ([t[0]] + w) + t[1 + |w|..];
      [t[0]] + w
  }

  lemma {:induction false} FirstWordOf(w: string, rest: string)
    requires ' ' !in w && (rest == "" || rest[0] == ' ')
    ensures FirstWord(w + rest) == w
  {
    if w == "" {
      assert w + rest == rest;
    } else {
      assert (w + rest)[1..] == w[1..] + rest;
      FirstWordOf(w[1..], rest);
    }
  }

  lemma FirstWordIs(w: string, t: string)
    requires ' ' !in w && w <= t && (|w| < |t| ==> t[|w|] == ' ')
    ensures FirstWord(t) == w
  {
    FirstWordOf(w, t[|w|..]);
    assert t == w + t[|w|..];
  }

  lemma {:induction false} StrChrSkips(p: string, rest: string, k: char)
    requires k !in p
    ensures StrChr(p + rest, k) == StrChr(rest, k)
  {
    if p == "" {
      assert p + rest == rest;
    } else {
      assert (p + rest)[1..] == p[1..] + rest;
      StrChrSkips(p[1..], rest, k);
    }
  }

  lemma {:induction false} CommonPrefixSkips(p: string, s: string, t: string)
    ensures CommonPrefix(p + s, p + t) == |p| + CommonPrefix(s, t)
  {
    if p == "" {
      assert p + s == s && p + t == t;
    } else {
      assert (p + s)[1..] == p[1..] + s && (p + t)[1..] == p[1..] + t;
      CommonPrefixSkips(p[1..], s, t);
    }
  }

  /** A text with another first word than `w` departs from it within `w`. */
  lemma {:induction false} Departs(w: string, tail: string, little: string)
    requires ' ' !in w && FirstWord(little) != w && (tail == "" || tail[0] == ' ')
    ensures var i := CommonPrefix(w + tail, little);
            i <= |w| && (i < |w| || i != |little|)
  {
    if w == "" {
      assert w + tail == tail;
    } else if little != "" && w[0] == little[0] {
      assert (w + tail)[1..] == w[1..] + tail;
      assert FirstWord(little) == [w[0]] + FirstWord(little[1..]);
      assert w == [w[0]] + w[1..];
      Departs(w[1..], tail, little[1..]);
    }
  }

  /** The test that `TagSearch` makes at the beginning of a word. */
  predicate MatchesHere(big: string, little: string) {
    var i := CommonPrefix(big, little);
    (i == |big| || big[i] == ' ') && (i == |little| || (i > 0 && little[i - 1] == ':'))
  }

  /** Where the search goes on after it has failed at the beginning of a word. */
  predicate FoundLater(big: string, little: string) {
    var next := StrChr(big[CommonPrefix(big, little)..], ' ');
    next.Some? && next.value != "" && TagSearch(next.value[1..], little)
  }

  lemma SearchStep(big: string, little: string)
    ensures TagSearch(big, little) <==> MatchesHere(big, little) || FoundLater(big, little)
  {
    var i := CommonPrefix(big, little);
    StrChrShortens(big[i..], ' ');
  }

  /** One step of the search at a word other than the first one looked for. */
  lemma OtherWord(w: string, tail: string, little: string)
    requires IsWord(w) && FirstWord(little) != w && (tail == "" || tail[0] == ' ')
    ensures !MatchesHere(w + tail, little)
    ensures TagSearch(w + tail, little) <==> tail != "" && TagSearch(tail[1..], little)
  {
    var big := w + tail;
    var i := CommonPrefix(big, little);
    Departs(w, tail, little);
    assert big[i..] == w[i..] + tail;
    assert i > 0 ==> little[i - 1] == big[..i][i - 1] == w[i - 1];
    StrChrSkips(w[i..], tail, ' ');
    SearchStep(big, little);
  }

  /** The text of a list of words, from behind the first one on. */
  function Tail(words: seq<string>): string
    requires words != []
  {
    if |words| == 1 then "" else " " + Join(words[1..])
  }

  lemma JoinSplits(words: seq<string>)
    requires words != []
    ensures Join(words) == words[0] + Tail(words)
  {
    if |words| == 1 {
      assert words[0] + "" == words[0];
    } else {
      assert words[0] + " " + Join(words[1..]) == words[0] + (" " + Join(words[1..]));
    }
  }

  predicate AllWords(words: seq<string>) { forall w | w in words :: IsWord(w) }

  lemma OtherWordFirst(words: seq<string>, little: string)
    requires words != [] && IsWord(words[0]) && FirstWord(little) != words[0]
    ensures !MatchesHere(Join(words), little) && !StartsRun(words, little)
    ensures TagSearch(Join(words), little) <==> |words| > 1 && TagSearch(Join(words[1..]), little)
  {
    JoinSplits(words);
    OtherWord(words[0], Tail(words), little);
    OtherStart(words, little);
    if |words| > 1 { assert Tail(words)[1..] == Join(words[1..]); }
  }

  lemma OtherStart(words: seq<string>, little: string)
    requires words != [] && IsWord(words[0]) && FirstWord(little) != words[0]
    ensures !StartsRun(words, little)
  {
    var w := words[0];
    if little == w || w + " " <= little { FirstWordIs(w, little); }
  }

  /** The test at the beginning of a word succeeds exactly for a run of words. */
  lemma {:induction false} MatchIsRun(words: seq<string>, little: string)
    requires words != [] && AllWords(words)
    ensures MatchesHere(Join(words), little) <==> StartsRun(words, little)
  {
    hide StartsRun, MatchesHere, CommonPrefix, Join, Tail, IsWord, FirstWord;
    var w := words[0];
    var r := little[|FirstWord(little)|..];
    if FirstWord(little) != w {
      OtherWordFirst(words, little);
    } else {
      JoinSplits(words);
      assert little == w + r;
      CommonPrefixSkips(w, Tail(words), r);
      if r == "" || |words| == 1 {
        assert little == w <==> r == "";
        LastWord(words, little, r);
      } else {
        MatchIsRun(words[1..], r[1..]);
        MatchGoesOn(words, little, r[1..]);
      }
    }
  }

  lemma MatchGoesOn(words: seq<string>, little: string, more: string)
    requires |words| > 1 && IsWord(words[1]) && little == words[0] + (" " + more)
    requires MatchesHere(Join(words[1..]), more) <==> StartsRun(words[1..], more)
    ensures MatchesHere(Join(words), little) <==> StartsRun(words, little)
  {
    var p := words[0] + " ";
    assert little == p + more && little[|p|..] == more && Join(words) == p + Join(words[1..]);
    CommonPrefixSkips(p, Join(words[1..]), more);
    JoinSplits(words[1..]);
    MatchShifts(p, Join(words[1..]), more);
    assert little != words[0];
  }

  lemma LastWord(words: seq<string>, little: string, r: string)
    requires words != [] && AllWords(words) && little == words[0] + r && (r == "" || |words| == 1)
    requires r != "" ==> r[0] == ' '
    requires CommonPrefix(Join(words), little) == |words[0]| + CommonPrefix(Tail(words), r)
    ensures MatchesHere(Join(words), little) <==> StartsRun(words, little)
  {
    var w := words[0];
    JoinSplits(words);
    assert IsWord(w);
    assert CommonPrefix(Tail(words), r) == 0;
    assert little[|w| - 1] == w[|w| - 1];
    if r == "" { assert little == w; } else { assert words[1..] == []; }
  }

  /** A common prefix that ends in a blank can be dropped. */
  lemma MatchShifts(p: string, s: string, t: string)
    requires p != "" && p[|p| - 1] == ' ' && s != "" && s[0] != ' '
    requires CommonPrefix(p + s, p + t) == |p| + CommonPrefix(s, t)
    ensures MatchesHere(p + s, p + t) <==> MatchesHere(s, t)
  {
    var i := CommonPrefix(s, t);
    assert i < |s| ==> (p + s)[|p| + i] == s[i];
    assert (p + t)[|p| + i - 1] == if i > 0 then t[i - 1] else ' ';
  }

  lemma {:induction false} RunStartsInside(words: seq<string>, little: string)
    requires AllWords(words) && IsRun(words, little)
    ensures FirstWord(little) in words
  {
    if StartsRun(words, little) {
      assert IsWord(words[0]);
      if FirstWord(little) != words[0] { OtherWordFirst(words, little); }
    } else {
      RunStartsInside(words[1..], little);
    }
  }

  lemma {:induction false} AbsentWordIsNotFound(words: seq<string>, little: string)
    requires words != [] && AllWords(words) && FirstWord(little) !in words
    ensures !TagSearch(Join(words), little)
  {
    OtherWordFirst(words, little);
    if |words| == 1 {
    } else {
      AbsentWordIsNotFound(words[1..], little);
    }
  }

  /** From wherever the search goes on, it does not find what begins with no
      later word of the list. */
  lemma {:induction false} NotFoundLater(words: seq<string>, i: nat, little: string)
    requires words != [] && AllWords(words) && i <= |Join(words)| && FirstWord(little) !in words[1..]
    ensures var next := StrChr(Join(words)[i..], ' ');
            next.Some? && next.value != "" ==> !TagSearch(next.value[1..], little)
  {
    var w, tail := words[0], Tail(words);
    assert IsWord(w);
    JoinSplits(words);
    if i <= |w| {
      assert Join(words)[i..] == w[i..] + tail;
      StrChrSkips(w[i..], tail, ' ');
      if |words| > 1 { AbsentWordIsNotFound(words[1..], little); }
    } else {
      assert Join(words)[i..] == Join(words[1..])[i - |w| - 1..];
      NotFoundLater(words[1..], i - |w| - 1, little);
    }
  }

  /** The search finds the runs of the words, exactly: of distinct words for every
      text, and of any words for a text without blanks. */
  lemma {:induction false} SearchFindsRuns(words: seq<string>, little: string)
    requires words != [] && AllWords(words) && (DistinctWords(words) || ' ' !in little)
    ensures TagSearch(Join(words), little) <==> IsRun(words, little)
  {
    var f := FirstWord(little);
    if f != words[0] {
      OtherWordFirst(words, little);
      if |words| > 1 { SearchFindsRuns(words[1..], little); }
    } else {
      SearchStep(Join(words), little);
      MatchIsRun(words, little);
      if !StartsRun(words, little) {
        assert f !in words[1..];
        NotFoundLater(words, CommonPrefix(Join(words), little), little);
        if IsRun(words[1..], little) { RunStartsInside(words[1..], little); }
      }
    }
  }

  /** With a repeated word the search can overlook a run: after a partial match it
      goes on behind the place where it stopped. */
  lemma SearchOverlooks(big: string, little: string)
    requires big == "a a b" && little == "a b"
    ensures IsRun(["a", "a", "b"], little) && big == Join(["a", "a", "b"]) && !TagSearch(big, little)
  {
    assert CommonPrefix("a b", "b") == 0;
  }

  // ------------------------------------------------------- any list of words

  /** How many words of the list, each with its blank, the text begins with. */
  function Agree(words: seq<string>, little: string): (n: nat)
    requires words != []
    ensures n < |words|
  {
    if |words| > 1 && words[0] + " " <= little then 1 + Agree(words[1..], little[|words[0]| + 1..]) else 0
  }

  /** The search in terms of words: it looks for a run at the first word, and
      otherwise goes on behind the word at which the text departs from the list. */
  predicate FoundFrom(words: seq<string>, little: string)
    decreases |words|
  {
    words != [] && (StartsRun(words, little) || FoundFrom(words[Agree(words, little) + 1..], little))
  }

  lemma LongAgreement(w: string, tail: string, little: string)
    requires CommonPrefix(w + tail, little) > |w| && (tail == "" || tail[0] == ' ')
    ensures tail != "" && w + " " <= little
  {
    var i := CommonPrefix(w + tail, little);
    assert little[..|w| + 1] == little[..i][..|w| + 1] == (w + tail)[..i][..|w| + 1] == w + " ";
  }

  lemma ShortAgreement(words: seq<string>, little: string)
    requires words != [] && IsWord(words[0]) && (|words| == 1 || !(words[0] + " " <= little))
    ensures StrChr(Join(words)[CommonPrefix(Join(words), little)..], ' ')
            == if |words| > 1 then Some(" " + Join(words[1..])) else None
  {
    hide CommonPrefix, Join;
    var w, tail := words[0], Tail(words);
    JoinSplits(words);
    var i := CommonPrefix(w + tail, little);
    if i > |w| { LongAgreement(w, tail, little); }
    assert (w + tail)[i..] == w[i..] + tail;
    StrChrSkips(w[i..], tail, ' ');
  }

  lemma GoesOnAfterWord(words: seq<string>, little: string, more: string)
    requires |words| > 1 && little == words[0] + " " + more
    ensures Join(words)[CommonPrefix(Join(words), little)..]
            == Join(words[1..])[CommonPrefix(Join(words[1..]), more)..]
  {
    hide CommonPrefix;
    var p, rest := words[0] + " ", Join(words[1..]);
    assert Join(words) == p + rest && little == p + more;
    CommonPrefixSkips(p, rest, more);
    DropPrefix(p, rest, CommonPrefix(rest, more));
  }

  lemma DropPrefix(p: string, s: string, i: nat)
    requires i <= |s|
    ensures (p + s)[|p| + i..] == s[i..]
  {
  }

  lemma {:induction false} GoesOnBehind(words: seq<string>, little: string)
    requires words != [] && AllWords(words)
    ensures var m := Agree(words, little) + 1;
            StrChr(Join(words)[CommonPrefix(Join(words), little)..], ' ')
            == if m < |words| then Some(" " + Join(words[m..])) else None
  {
    hide CommonPrefix, StrChr, Join, IsWord;
    var w := words[0];
    if |words| > 1 && w + " " <= little {
      var more := little[|w| + 1..];
      assert little == w + " " + more;
      GoesOnAfterWord(words, little, more);
      GoesOnBehind(words[1..], more);
      var m := Agree(words[1..], more) + 1;
      assert words[m + 1..] == words[1..][m..];
    } else {
      ShortAgreement(words, little);
    }
  }

  /** The search through the joined list is that search, for all words and texts. */
  lemma {:induction false} SearchIsGreedy(words: seq<string>, little: string)
    requires words != [] && AllWords(words)
    ensures TagSearch(Join(words), little) <==> FoundFrom(words, little)
    decreases |words|
  {
    hide StrChr, CommonPrefix, MatchesHere, StartsRun, Agree, TagSearch, Join, IsWord;
    var m := Agree(words, little) + 1;
    SearchStep(Join(words), little);
    MatchIsRun(words, little);
    GoesOnBehind(words, little);
    if m == |words| {
      assert words[m..] == [];
    } else {
      SearchIsGreedy(words[m..], little);
      assert (" " + Join(words[m..]))[1..] == Join(words[m..]);
    }
  }

  lemma HasPrefix(p: string, x: string, t: string)
    ensures t == p + x <==> p <= t && t[|p|..] == x
  {
    if p <= t { assert t == p + t[|p|..]; }
  }

  lemma StartsRunCons(w: string, words: seq<string>, little: string)
    ensures StartsRun([w] + words, little)
            <==> little == w || (w + " " <= little && StartsRun(words, little[|w| + 1..]))
  {
    assert ([w] + words)[1..] == words;
  }

  lemma StartsRunOfThree(a: string, b: string, c: string, little: string)
    ensures StartsRun([c], little) <==> little == c
    ensures StartsRun([b, c], little) <==> little in [b, b + " " + c]
    ensures StartsRun([a, b, c], little) <==> little in [a, a + " " + b, a + " " + (b + " " + c)]
  {
    assert [c] == [c] + [] && [b, c] == [b] + [c] && [a, b, c] == [a] + [b, c];
    StartsRunCons(c, [], little);
    StartsRunCons(b, [c], little);
    HasPrefix(b + " ", c, little);
    StartsRunCons(a, [b, c], little);
    HasPrefix(a + " ", b, little);
    HasPrefix(a + " ", b + " " + c, little);
    if a + " " <= little {
      var rest := little[|a| + 1..];
      StartsRunCons(b, [c], rest);
      HasPrefix(b + " ", c, rest);
      if b + " " <= rest { StartsRunCons(c, [], rest[|b| + 1..]); }
    }
    if b + " " <= little { StartsRunCons(c, [], little[|b| + 1..]); }
  }

  /** The runs of three words. */
  lemma RunsOfThree(a: string, b: string, c: string, little: string)
    ensures IsRun([a, b, c], little) <==> little in [a, b, c, a + " " + b, b + " " + c, a + " " + (b + " " + c)]
  {
    assert [a, b, c][1..] == [b, c] && [b, c][1..] == [c] && [c][1..] == [];
    StartsRunOfThree(a, b, c, little);
    assert !IsRun([], little);
    assert IsRun([c], little) <==> StartsRun([c], little);
    assert IsRun([b, c], little) <==> StartsRun([b, c], little) || IsRun([c], little);
    assert IsRun([a, b, c], little) <==> StartsRun([a, b, c], little) || IsRun([b, c], little);
  }
}
