/** Queries for which the script and the binary cut differently, and one whose replay understates the cut. */
module QueryExamples {
  import opened Options
  import opened Text
  import opened Evidence
  import opened QueryTest
  import opened QueryAgreement
  import opened TrimMarker
  import opened RowPattern
  import opened RankedPage
  import opened TailRule
  import opened TailPrice
  import opened SampleRows
  import opened TailQuery
  import Utf8

  predicate IsGreekCapital(c: char) {
    '\U{391}' <= c <= '\U{3A9}' && c != '\U{3A2}'
  }

  /** Letters, digits and cases of ASCII and of the Greek alphabet, as Unicode has them. */
  predicate IsLetterOrDigit(c: char) {
    '0' <= c <= '9' || 'a' <= c <= 'z' || 'A' <= c <= 'Z' || IsGreekCapital(c) || '\U{3B1}' <= c <= '\U{3C9}'
  }

  /** A vowel sign of Devanagari: Alphabetic, but of category Mc. */
  const VOWEL_SIGN := '\U{93F}'

  function LowerCase(c: char): (s: string) {
    if 'A' <= c <= 'Z' || IsGreekCapital(c) then [(c as int + 32) as char] else [c]
  }

  function Letters(): (c: Casing) {
    Casing(IsLetterOrDigit, c => IsLetterOrDigit(c) || c == VOWEL_SIGN, LowerCase,
           c => IsLetterOrDigit(c) && !IsDigit(c), c => false)
  }

  /** Lower cases are one character long, and a letter's is a letter again. */
  lemma LowerCaseFacts(x: char)
    ensures |LowerCase(x)| == 1 && (IsLetterOrDigit(x) ==> IsLetterOrDigit(LowerCase(x)[0]))
    ensures !IsLetterOrDigit(VOWEL_SIGN) && LowerCase(VOWEL_SIGN) == [VOWEL_SIGN]
  {
  }

  lemma LettersAreNoSpaces(x: char)
    requires IsLetterOrDigit(x) || x == VOWEL_SIGN
    ensures !IsSpace(x) && x != '*' && x != ':' && x != '_' && x != '\U{1F}'
  {
  }

  lemma LettersAreTables()
    ensures Tables(Letters())
  {
    forall x | Letters().binaryAlnum(x) ensures Letters().lower(x) != "" && !IsSpace(x) {
      LowerCaseFacts(x);
      LettersAreNoSpaces(x);
    }
    assert LowerCase(CAPITAL_SIGMA) == [SIGMA];
  }

  /** The tables of the examples are as assumed of Unicode's. */
  lemma LettersAreCoded()
    ensures Coded(Letters())
  {
    LettersAreTables();
    var c := Letters();
    forall x ensures |c.lower(x)| == 1 {
      LowerCaseFacts(x);
    }
    forall x, y | c.scriptAlnum(x) && BinaryOnly(c, y) ensures c.lower(x)[0] != c.lower(y)[0] {
      LowerCaseFacts(x);
      assert y == VOWEL_SIGN;
    }
    assert LowerCase(FINAL_SIGMA) == [FINAL_SIGMA];
  }

  lemma LettersHaveSamples()
    ensures Punctuated(Letters()) && Samples(Letters(), '0', '\U{3B1}', VOWEL_SIGN)
  {
    LowerCaseFacts(VOWEL_SIGN);
    assert LowerCase('\U{3B1}') == ['\U{3B1}'];
  }

  /** With these tables, as with Unicode's, the two cut every readable block alike for queries of single
      letters only. */
  lemma LettersCutAlikeIff(query: string)
    ensures SameCuts(Letters(), query) <==> SingleLetters(Letters(), query)
  {
    LettersAreCoded();
    LettersHaveSamples();
    CutsAgreeIff(Letters(), '0', '\U{3B1}', VOWEL_SIGN, query);
  }

  predicate ScriptAccepts(query: string, name: string) {
    Named(ScriptFolds(Letters()), query)(name)
  }

  predicate BinaryAccepts(query: string, name: string) {
    BinaryNamed(BinaryFolds(Letters()), query)(name)
  }

  predicate Small(s: string) {
    forall k :: 0 <= k < |s| ==> IsLetterOrDigit(s[k]) && LowerCase(s[k]) == [s[k]]
  }

  /** Text in lower case folds to itself, for both. */
  lemma SmallFolds(s: string)
    requires Small(s)
    ensures Kept(Letters().scriptAlnum, s) == s && Kept(Letters().binaryAlnum, s) == s
    ensures BinaryFold(Letters(), s) == s && ScriptFold(Letters(), s) == s
  {
    LettersAreTables();
    KeptTwice(Letters().scriptAlnum, s);
    KeptTwice(Letters().binaryAlnum, s);
    LowersItself(s);
    assert LowerCase(CAPITAL_SIGMA) == [SIGMA];
    FoldsAgreeIff(Letters(), s);
  }

  lemma OneWord(space: Spaces, s: string)
    requires s != "" && forall k :: 0 <= k < |s| ==> !space(s[k])
    ensures SplitOn(space, s) == [s]
  {
    var n := WordEnd(space, s);
    assert n == |s| && s[..n] == s && s[n..] == "";
  }

  const SEPARATED := ['a', '\U{1F}', 'b']

  lemma SeparatedWords()
    ensures SplitWords(SEPARATED) == ["a", "b"] && SplitWhitespace(SEPARATED) == [SEPARATED]
  {
    OneWord(IsWhitespace, SEPARATED);
    OneWord(IsSpace, "a");
    OneWord(IsSpace, "b");
    var rest := ['\U{1F}', 'b'];
    assert SEPARATED == "a" + rest && rest[1..] == "b";
    SplitAppend(IsSpace, "a", rest);
    SplitWordsIsSplitOn(SEPARATED);
  }

  lemma KeepsOutside(alnum: char -> bool, a: string, c: char, b: string)
    requires Kept(alnum, a) == a && Kept(alnum, b) == b && !alnum(c)
    ensures Kept(alnum, a + [c] + b) == a + b
  {
    KeptAppend(alnum, a + [c], b);
    KeptAppend(alnum, a, [c]);
    assert [c][1..] == "";
    assert Kept(alnum, [c]) == [] + Kept(alnum, "");
    Nil(a);
  }

  /** Small letters around a character that is dropped. */
  lemma FoldsAround(a: string, x: char, b: string)
    requires Small(a) && Small(b) && Small(a + b)
    ensures !Letters().scriptAlnum(x) ==> ScriptFold(Letters(), a + [x] + b) == a + b
    ensures !Letters().binaryAlnum(x) ==> BinaryFold(Letters(), a + [x] + b) == a + b
  {
    SmallFolds(a);
    SmallFolds(b);
    SmallFolds(a + b);
    if !Letters().scriptAlnum(x) {
      KeepsOutside(Letters().scriptAlnum, a, x, b);
    }
    if !Letters().binaryAlnum(x) {
      KeepsOutside(Letters().binaryAlnum, a, x, b);
    }
  }

  lemma SeparatedFolds()
    ensures ScriptFold(Letters(), "a") == "a" && ScriptFold(Letters(), "b") == "b"
    ensures ScriptFold(Letters(), "b_a") == "ba" && BinaryFold(Letters(), "b_a") == "ba"
    ensures BinaryFold(Letters(), SEPARATED) == "ab"
  {
    SmallFolds("a");
    SmallFolds("b");
    FoldsAround("b", '_', "a");
    FoldsAround("a", '\U{1F}', "b");
    assert "b_a" == "b" + ['_'] + "a" && "b" + "a" == "ba";
    assert SEPARATED == "a" + ['\U{1F}'] + "b" && "a" + "b" == "ab";
  }

  lemma TwoWords(fold: Fold, a: string, b: string, name: string)
    requires fold(a) != "" && fold(b) != "" && Find(fold(name), fold(a), 0).Some? && Find(fold(name), fold(b), 0).Some?
    ensures NamesEvery(fold, [a, b], name)
  {
    assert [a, b][1..] == [b] && [b][1..] == [];
    assert FoldedWords(fold, [b]) == [fold(b)] + FoldedWords(fold, []);
    assert FoldedWords(fold, [a, b]) == [fold(a), fold(b)];
  }

  lemma SingleWord(fold: Fold, word: string, name: string)
    requires fold(word) != ""
    ensures NamesEvery(fold, [word], name) <==> Find(fold(name), fold(word), 0).Some?
  {
    assert [word][1..] == [];
    var folded := FoldedWords(fold, [word]);
    assert folded == [fold(word)] + FoldedWords(fold, []);
    assert folded[0] == fold(word);
  }

  lemma BothOrders()
    ensures Find("ba", "ab", 0).None? && Find("ba", "a", 0).Some? && Find("ba", "b", 0).Some?
  {
    assert "ba"[0..2][0] == 'b';
    assert OccursAt("ba", "a", 1) && OccursAt("ba", "b", 0);
  }

  /** The query `a`, U+001F, `b` and the name `b_a`: the script takes two words and accepts the name, the
      binary takes one and does not. */
  lemma SeparatorSplitsTheTests()
    ensures ScriptAccepts(SEPARATED, "b_a") && !BinaryAccepts(SEPARATED, "b_a")
  {
    SeparatedWords();
    SeparatedFolds();
    BothOrders();
    TwoWords(ScriptFolds(Letters()), "a", "b", "b_a");
    SingleWord(BinaryFolds(Letters()), SEPARATED, "b_a");
  }

  /** A query that is one word in small letters is that word, for both. */
  lemma SmallQuery(query: string, name: string)
    requires Small(query) && query != ""
    ensures ScriptAccepts(query, name) <==> Find(ScriptFold(Letters(), name), query, 0).Some?
    ensures BinaryAccepts(query, name) <==> Find(BinaryFold(Letters(), name), query, 0).Some?
  {
    SmallFolds(query);
    OneWord(IsSpace, query);
    OneWord(IsWhitespace, query);
    SplitWordsIsSplitOn(query);
    SingleWord(ScriptFolds(Letters()), query, name);
    SingleWord(BinaryFolds(Letters()), query, name);
  }

  const CAPITALS := ['\U{391}', CAPITAL_SIGMA]
  const SMALLS := ['\U{3B1}', FINAL_SIGMA]
  const MEDIALS := ['\U{3B1}', SIGMA]

  lemma SigmaFolds()
    ensures ScriptFold(Letters(), CAPITALS) == SMALLS && BinaryFold(Letters(), CAPITALS) == MEDIALS
  {
    var c := Letters();
    KeptTwice(c.scriptAlnum, CAPITALS);
    KeptTwice(c.binaryAlnum, CAPITALS);
    assert CAPITALS[1..] == [CAPITAL_SIGMA] && [CAPITAL_SIGMA][1..] == "";
    assert CasedBefore(c, CAPITALS, 1) && !CasedAfter(c, CAPITALS, 2);
    assert LowerFrom(c, CAPITALS, 1) == [FINAL_SIGMA] + LowerFrom(c, CAPITALS, 2);
    assert LowerCase('\U{391}') == ['\U{3B1}'] && LowerCase(CAPITAL_SIGMA) == [SIGMA];
    assert LowerEach(c.lower, [CAPITAL_SIGMA]) == [SIGMA] + LowerEach(c.lower, "");
  }

  lemma SigmasDiffer()
    ensures Find(MEDIALS, SMALLS, 0).None? && Find(SMALLS, MEDIALS, 0).None?
  {
    assert MEDIALS[0..2] == MEDIALS && SMALLS[0..2] == SMALLS && MEDIALS[1] != SMALLS[1];
  }

  /** A name in Greek capitals that ends in a sigma. Of the query that spells it with a final sigma only the
      script accepts it, of the query that spells it with the other only the binary. */
  lemma SigmaSplitsTheTests()
    ensures ScriptAccepts(SMALLS, CAPITALS) && !BinaryAccepts(SMALLS, CAPITALS)
    ensures !ScriptAccepts(MEDIALS, CAPITALS) && BinaryAccepts(MEDIALS, CAPITALS)
  {
    SigmaFolds();
    SigmasDiffer();
    SmallQuery(SMALLS, CAPITALS);
    SmallQuery(MEDIALS, CAPITALS);
    FoundItself(SMALLS);
    FoundItself(MEDIALS);
  }

  const VOWELED := ['a', VOWEL_SIGN, 'b']

  lemma VowelFolds()
    ensures ScriptFold(Letters(), VOWELED) == "ab" && BinaryFold(Letters(), VOWELED) == VOWELED
  {
    LowerCaseFacts(VOWEL_SIGN);
    FoldsAround("a", VOWEL_SIGN, "b");
    assert VOWELED == "a" + [VOWEL_SIGN] + "b" && "a" + "b" == "ab";
    KeptTwice(Letters().binaryAlnum, VOWELED);
    LowersItself(VOWELED);
  }

  lemma {:induction false} LowersItself(s: string)
    requires forall k :: 0 <= k < |s| ==> LowerCase(s[k]) == [s[k]]
    ensures LowerEach(LowerCase, s) == s
  {
    if s != "" {
      LowersItself(s[1..]);
      Uncons(s);
    }
  }

  lemma ApartIsNotFound(x: char, y: char, v: char)
    requires v != x && v != y
    ensures Find([x, v, y], [x, y], 0).None?
  {
    var s, q := [x, v, y], [x, y];
    assert s[0..2][1] == v && s[1..3][0] == v;
    assert Find(s, q, 2).None?;
    assert Find(s, q, 1).None?;
  }

  /** A name with a vowel sign between two letters, and the query of the two letters: the script drops the
      sign and accepts the name, the binary keeps it and does not. */
  lemma VowelSplitsTheTests()
    ensures ScriptAccepts("ab", VOWELED) && !BinaryAccepts("ab", VOWELED)
  {
    VowelFolds();
    SmallQuery("ab", VOWELED);
    FoundItself("ab");
    ApartIsNotFound('a', 'b', VOWEL_SIGN);
    assert "ab" == ['a', 'b'];
  }

  /** One of the two copies cuts a readable block after its third row and the other leaves it whole. */
  ghost predicate OnlyOneCuts(query: string, byBinary: bool, rows: seq<Row>) {
    var script := CutAt(rows, Named(ScriptFolds(Letters()), query));
    var binary := CutAt(rows, BinaryNamed(BinaryFolds(Letters()), query));
    && RowsOk(rows, Reader(false)) && Convertible(rows)
    && (if byBinary then script == None && binary == Some(3) else script == Some(3) && binary == None)
  }

  lemma OneCutBlock(query: string, other: string, byBinary: bool) returns (rows: seq<Row>)
    requires PlainName(other) && ScriptAccepts(query, other) == byBinary && BinaryAccepts(query, other) != byBinary
    ensures OnlyOneCuts(query, byBinary, rows)
  {
    LettersAreTables();
    rows := SplitBlock(Letters(), query, other);
  }

  lemma NamesArePlain()
    ensures PlainName("b_a") && PlainName(CAPITALS) && PlainName(VOWELED)
  {
  }

  lemma SeparatorSplitsTheCuts() returns (rows: seq<Row>)
    ensures OnlyOneCuts(SEPARATED, true, rows)
  {
    NamesArePlain();
    SeparatorSplitsTheTests();
    rows := OneCutBlock(SEPARATED, "b_a", true);
  }

  lemma SigmaSplitsTheCuts() returns (rows: seq<Row>, others: seq<Row>)
    ensures OnlyOneCuts(SMALLS, true, rows) && OnlyOneCuts(MEDIALS, false, others)
  {
    NamesArePlain();
    SigmaSplitsTheTests();
    rows := OneCutBlock(SMALLS, CAPITALS, true);
    others := OneCutBlock(MEDIALS, CAPITALS, false);
  }

  lemma VowelSplitsTheCuts() returns (rows: seq<Row>)
    ensures OnlyOneCuts("ab", true, rows)
  {
    NamesArePlain();
    VowelSplitsTheTests();
    rows := OneCutBlock("ab", VOWELED, true);
  }

  /** So the two copies of the rule do not always cut alike: three blocks that only the binary cuts, and one
      that only the script cuts. */
  lemma QueriesCanSplitTheRules() returns (a: seq<Row>, b: seq<Row>, c: seq<Row>, d: seq<Row>)
    ensures OnlyOneCuts(SEPARATED, true, a) && OnlyOneCuts(SMALLS, true, b) && OnlyOneCuts("ab", true, c)
    ensures OnlyOneCuts(MEDIALS, false, d)
  {
    a := SeparatorSplitsTheCuts();
    b, d := SigmaSplitsTheCuts();
    c := VowelSplitsTheCuts();
  }

  /** What that means for the page: the binary serves such a block shorter, or whole, whatever its handles. */
  lemma OnlyOneServesShorter(query: string, byBinary: bool, rows: seq<Row>, handleFor: string -> string,
                             stored: string -> bool)
    requires OnlyOneCuts(query, byBinary, rows) && (forall s :: IsHandle(handleFor(s))) && forall s :: stored(s)
    ensures var served := RankedRowsMd(Served(rows), BinaryNamed(BinaryFolds(Letters()), query), handleFor, stored);
            && (Utf8.Size(served) < Utf8.Size(Bodies(rows)) <==> byBinary)
            && (Saved(rows, Named(ScriptFolds(Letters()), query)) > 0 <==> !byBinary)
  {
    BinarySaves(rows, BinaryNamed(BinaryFolds(Letters()), query), handleFor, stored);
  }

  /** So a call served for a query without letters or digits, and replayed with one of its other arguments in
      the query, is recorded with too small a cut. */
  lemma SomeReplaysUnderstate()
    ensures WordsAmong("-", JoinLines(["-", "x"])) && !Overstates(ScriptFolds(Letters()), "-", JoinLines(["-", "x"]))
  {
    var c, larger := Letters(), JoinLines(["-", "x"]);
    LettersAreTables();
    LettersHaveSamples();
    ValuesHoldTheirWords(["-", "x"], 0);
    assert larger == "-" + "\n" + "x" by {
      assert ["-", "x"][1..] == ["x"];
    }
    assert larger[2] == 'x' && 'x' in larger && c.scriptAlnum('x');
    assert !c.scriptAlnum('-') && forall x <- "-" :: x == '-';
    OverstatesIff(c, '0', "-", larger);
  }
}
