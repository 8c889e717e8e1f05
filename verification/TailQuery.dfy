/** The query half of the ranked-tail rule: where the binary and the replay script cut alike, where
    they do not, and what replaying with a larger query does. */
module TailQuery {
  import opened Options
  import opened Text
  import opened Evidence
  import opened QueryTest
  import opened QueryAgreement
  import opened TrimMarker
  import opened RowPattern
  import opened RankedPage
  import opened TailRule
  import opened TailPrice
  import opened SampleRows
  import Utf8

  // ---- the same cut ----

  /** The two folds agree on the words of the query and on the names of the block. */
  predicate SameFolds(rows: seq<Row>, script: Fold, binary: Fold, query: string) {
    && (forall w <- SplitWords(query) :: script(w) == binary(w))
    && (forall i :: 0 <= i < |rows| ==> script(rows[i].name) == binary(rows[i].name))
  }

  /** The binary and the script cut a block at the same row whenever the query holds none of the four
      separators and the folds agree on its words and on the names. */
  lemma QueriesAgree(rows: seq<Row>, script: Fold, binary: Fold, query: string)
    requires SameFolds(rows, script, binary, query) && forall c <- query :: !IsSeparator(c)
    ensures SameNamed(rows, Named(script, query), BinaryNamed(binary, query))
    ensures LowValueTailStart(Served(rows), BinaryNamed(binary, query))
            == (var k := TailStart(rows, Named(script, query)); if k.None? then None else Some((k.value, Best(rows))))
  {
    forall i | 0 <= i < |rows|
      ensures Named(script, query)(rows[i].name) == BinaryNamed(binary, query)(rows[i].name)
    {
      TestsAgree(script, binary, query, rows[i].name);
    }
    RulesAgree(rows, Named(script, query), BinaryNamed(binary, query));
  }

  /** For the two languages' own folds: the cuts are the same whenever the query holds none of the four
      separators and its words and the names are texts the two fold alike. */
  lemma FoldsAlikeAgree(rows: seq<Row>, c: Casing, query: string)
    requires Tables(c) && (forall x <- query :: !IsSeparator(x)) && (forall w <- SplitWords(query) :: FoldsAlike(c, w))
    requires forall i :: 0 <= i < |rows| ==> FoldsAlike(c, rows[i].name)
    ensures SameNamed(rows, Named(ScriptFolds(c), query), BinaryNamed(BinaryFolds(c), query))
    ensures CutAt(rows, Named(ScriptFolds(c), query)) == CutAt(rows, BinaryNamed(BinaryFolds(c), query))
  {
    forall w | w in SplitWords(query) ensures ScriptFold(c, w) == BinaryFold(c, w) {
      FoldsAgreeIff(c, w);
    }
    forall i | 0 <= i < |rows| ensures ScriptFold(c, rows[i].name) == BinaryFold(c, rows[i].name) {
      FoldsAgreeIff(c, rows[i].name);
    }
    QueriesAgree(rows, ScriptFolds(c), BinaryFolds(c), query);
    SameNamedCut(rows, Named(ScriptFolds(c), query), BinaryNamed(BinaryFolds(c), query));
  }

  lemma SameNamedCut(rows: seq<Row>, a: string -> bool, b: string -> bool)
    requires SameNamed(rows, a, b)
    ensures CutAt(rows, a) == CutAt(rows, b)
  {
    RulesAgree(rows, a, b);
    RulesAgree(rows, b, b);
  }

  // ---- comparing cuts ----

  /** The first cut is made wherever the second is, and no later. */
  predicate AtOrBefore(a: Option<nat>, b: Option<nat>) {
    b.Some? ==> a.Some? && a.value <= b.value
  }

  /** A test that protects fewer rows cuts at or before. */
  lemma FewerProtectedCutsMore(rows: seq<Row>, fewer: string -> bool, more: string -> bool)
    requires forall i :: 0 <= i < |rows| && fewer(rows[i].name) ==> more(rows[i].name)
    ensures AtOrBefore(TailStart(rows, fewer), TailStart(rows, more))
  {
    TailStartIsOptimal(rows, fewer);
    TailStartIsOptimal(rows, more);
    if TailStart(rows, more).Some? {
      assert Worthwhile(rows, TailStart(rows, more).value, fewer);
    }
  }

  /** What a cut comes to: it is made wherever the other is and no later, hides no fewer rows and saves no
      fewer bytes. */
  predicate CutsMore(rows: seq<Row>, a: string -> bool, b: string -> bool) {
    && AtOrBefore(CutAt(rows, a), CutAt(rows, b))
    && CutRows(rows, b) <= CutRows(rows, a) && Saved(rows, b) <= Saved(rows, a)
  }

  /** So it does with the price of the marker taken into account, because every row pays for itself. */
  lemma FewerProtectedSavesMore(rows: seq<Row>, fewer: string -> bool, more: string -> bool)
    requires forall i :: 0 <= i < |rows| && fewer(rows[i].name) ==> more(rows[i].name)
    requires forall i :: 0 <= i < |rows| ==> Pays(rows[i])
    ensures CutsMore(rows, fewer, more)
  {
    FewerProtectedCutsMore(rows, fewer, more);
    if CutAt(rows, more).Some? {
      EarlierCutSavesMore(rows, TailStart(rows, fewer).value, TailStart(rows, more).value);
    }
  }

  function BinaryStart(rows: seq<Row>, named: string -> bool): (k: Option<nat>) {
    var tail := LowValueTailStart(Served(rows), named);
    if tail.None? then None else Some(tail.value.0)
  }

  /** The split alone: with one character-by-character fold for both, the binary cuts at or before the
      script, for every query. */
  lemma BinaryCutsAtOrBefore(rows: seq<Row>, fold: Fold, query: string)
    requires CharByChar(fold) && Drops(fold, IsSpace)
    ensures AtOrBefore(BinaryStart(rows, BinaryNamed(fold, query)), TailStart(rows, Named(fold, query)))
  {
    forall i | 0 <= i < |rows| && BinaryNamed(fold, query)(rows[i].name) ensures Named(fold, query)(rows[i].name) {
      BinaryTestImpliesScript(fold, query, rows[i].name);
    }
    FewerProtectedCutsMore(rows, BinaryNamed(fold, query), Named(fold, query));
    RulesAgree(rows, BinaryNamed(fold, query), BinaryNamed(fold, query));
  }

  // ---- where the cuts differ ----

  /** What the binary serves is shorter by exactly what its cut saves. */
  lemma BinarySaves(rows: seq<Row>, binary: string -> bool, handleFor: string -> string, stored: string -> bool)
    requires (forall s :: IsHandle(handleFor(s))) && forall s :: stored(s)
    ensures Utf8.Size(RankedRowsMd(Served(rows), binary, handleFor, stored))
            == Utf8.Size(Bodies(rows)) - Saved(rows, binary)
  {
    BinaryServesTheRule(rows, binary, binary, handleFor, stored);
    var start := CutAt(rows, binary);
    if start.Some? {
      BlockSize(rows, start.value, handleFor(Bodies(rows[start.value..])));
    }
  }

  lemma KeptAndMarker(rows: seq<Row>, k: nat, marker: string)
    requires k < |rows|
    ensures Utf8.Size(Bodies(rows[..k]) + marker) == Utf8.Size(Bodies(rows)) - Bytes(rows[k..]) + Utf8.Size(marker)
  {
    var kept, cut := rows[..k], rows[k..];
    Utf8.EncodeAppend(Bodies(kept), marker);
    ServedText(kept);
    ServedText(rows);
    assert rows == kept + cut;
    BytesAppend(kept, cut);
  }

  lemma BlockSize(rows: seq<Row>, k: nat, handle: string)
    requires k < |rows| && IsHandle(handle)
    ensures Utf8.Size(Bodies(rows[..k]) + CutMarker(rows[k..], Best(rows), handle))
            == Utf8.Size(Bodies(rows)) - SavedAt(rows, k)
  {
    KeptAndMarker(rows, k, CutMarker(rows[k..], Best(rows), handle));
    MarkersAgree(rows[k..], Best(rows), handle);
  }

  lemma BlankIsNotNamed(fold: Fold, words: seq<string>, name: string)
    requires fold(name) == ""
    ensures !NamesEvery(fold, words, name)
  {
    var folded := FoldedWords(fold, words);
    if folded != [] {
      FoldedMembers(fold, words, folded[0]);
    }
  }

  /** Punctuation that the row pattern and the anchor test look for is no letter. */
  ghost predicate Punctuated(c: Casing) {
    !c.binaryAlnum('*') && !c.binaryAlnum(':')
  }

  lemma BreaksAreSpaces(x: char)
    ensures IsBreak(x) ==> IsSpace(x)
  {
  }

  lemma LettersArePlain(c: Casing, name: string)
    requires Tables(c) && Punctuated(c) && name != "" && forall x <- name :: c.binaryAlnum(x)
    ensures PlainName(name)
  {
    forall k | 0 <= k < |name| ensures !IsBreak(name[k]) {
      assert name[k] in name;
      BreaksAreSpaces(name[k]);
    }
  }

  lemma BlankFolds(c: Casing, name: string)
    requires Tables(c) && forall x <- name :: x == ' '
    ensures ScriptFold(c, name) == "" && BinaryFold(c, name) == ""
  {
    KeptIsEmptyIff(c.scriptAlnum, name);
    KeptIsEmptyIff(c.binaryAlnum, name);
  }

  ghost predicate BlankFold(fold: Fold) {
    forall name: string :: (forall x <- name :: x == ' ') ==> fold(name) == ""
  }

  /** A readable block with blank names but for the last row's. */
  ghost predicate Sample(rows: seq<Row>, other: string) {
    && RowsOk(rows, Reader(false)) && Convertible(rows)
    && exists blank :: LongName(blank) && (forall x <- blank :: x == ' ') && rows == FiveNamed(blank, other, '\n', '\n')
  }

  lemma SomeSample(other: string) returns (rows: seq<Row>)
    requires PlainName(other)
    ensures Sample(rows, other)
  {
    var blank := SomeNameIsLong(' ');
    rows := FiveNamed(blank, other, '\n', '\n');
    FiveNamedOk(blank, other, '\n', '\n');
    FiveNamedConvert(blank, other, '\n', '\n');
  }

  /** It is cut after the third row exactly when the test does not accept the last row's name. */
  lemma SampleIsCut(fold: Fold, words: seq<string>, named: string -> bool, other: string, rows: seq<Row>)
    requires Sample(rows, other) && PlainName(other) && (forall name :: named(name) == NamesEvery(fold, words, name))
    requires BlankFold(fold)
    ensures CutAt(rows, named) == if named(other) then None else Some(3)
  {
    var blank :| LongName(blank) && (forall x <- blank :: x == ' ') && rows == FiveNamed(blank, other, '\n', '\n');
    BlankIsNotNamed(fold, words, blank);
    FiveNamedAreCut(blank, other, '\n', '\n', named);
  }

  /** On a name that splits the two tests, exactly one of the two copies of the rule cuts the block. */
  lemma SplitBlock(c: Casing, query: string, other: string) returns (rows: seq<Row>)
    requires Tables(c) && PlainName(other)
    ensures Sample(rows, other)
    ensures CutAt(rows, Named(ScriptFolds(c), query)) == if Named(ScriptFolds(c), query)(other) then None else Some(3)
    ensures CutAt(rows, BinaryNamed(BinaryFolds(c), query))
            == if BinaryNamed(BinaryFolds(c), query)(other) then None else Some(3)
  {
    rows := SomeSample(other);
    forall name: string | forall x <- name :: x == ' ' ensures ScriptFold(c, name) == "" && BinaryFold(c, name) == "" {
      BlankFolds(c, name);
    }
    SampleIsCut(ScriptFolds(c), SplitWords(query), Named(ScriptFolds(c), query), other, rows);
    SampleIsCut(BinaryFolds(c), SplitWhitespace(query), BinaryNamed(BinaryFolds(c), query), other, rows);
  }

  lemma SingleLettersCutAlike(c: Casing, query: string, rows: seq<Row>)
    requires Coded(c) && SingleLetters(c, query)
    ensures CutAt(rows, Named(ScriptFolds(c), query)) == CutAt(rows, BinaryNamed(BinaryFolds(c), query))
  {
    forall i | 0 <= i < |rows|
      ensures Named(ScriptFolds(c), query)(rows[i].name) == BinaryNamed(BinaryFolds(c), query)(rows[i].name)
    {
      SingleLettersAgree(c, query, rows[i].name);
    }
    SameNamedCut(rows, Named(ScriptFolds(c), query), BinaryNamed(BinaryFolds(c), query));
  }

  lemma SplittingNameIsPlain(c: Casing, query: string, name: string)
    requires Tables(c) && Punctuated(c) && (forall x <- name :: c.binaryAlnum(x)) && SplitsTests(c, query, name)
    ensures PlainName(name)
  {
    BlankFolds(c, "");
    BlankIsNotNamed(ScriptFolds(c), SplitWords(query), "");
    BlankIsNotNamed(BinaryFolds(c), SplitWhitespace(query), "");
    LettersArePlain(c, name);
  }

  ghost predicate SameCuts(c: Casing, query: string) {
    forall rows: seq<Row> :: RowsOk(rows, Reader(false)) ==>
      CutAt(rows, Named(ScriptFolds(c), query)) == CutAt(rows, BinaryNamed(BinaryFolds(c), query))
  }

  /** The script and the binary cut every readable block alike if and only if every word of the query is a
      single letter or digit, none of them a sigma or one that only the binary keeps. */
  lemma CutsAgreeIff(c: Casing, n: char, a: char, d: char, query: string)
    requires Coded(c) && Punctuated(c) && Samples(c, n, a, d)
    ensures SameCuts(c, query) <==> SingleLetters(c, query)
  {
    if SingleLetters(c, query) {
      forall rows: seq<Row> | RowsOk(rows, Reader(false))
        ensures CutAt(rows, Named(ScriptFolds(c), query)) == CutAt(rows, BinaryNamed(BinaryFolds(c), query))
      {
        SingleLettersCutAlike(c, query, rows);
      }
    } else {
      var name := SplittingName(c, n, a, d, query);
      SplittingNameIsPlain(c, query, name);
      var rows := SplitBlock(c, query, name);
    }
  }

  // ---- replaying with every argument value as the query ----

  /** Each argument value's words are among the words of the flattened values. */
  lemma {:induction false} ValuesHoldTheirWords(values: seq<string>, i: nat)
    requires i < |values|
    ensures WordsAmong(values[i], JoinLines(values))
  {
    if |values| > 1 {
      var rest := "\n" + JoinLines(values[1..]);
      assert JoinLines(values) == values[0] + rest;
      assert rest[1..] == JoinLines(values[1..]);
      SplitAppend(IsSpace, values[0], rest);
      SplitWordsIsSplitOn(JoinLines(values));
      SplitWordsIsSplitOn(values[0]);
      SplitWordsIsSplitOn(JoinLines(values[1..]));
      if i > 0 {
        ValuesHoldTheirWords(values[1..], i - 1);
      }
    }
  }

  /** Replaying with a query of more words overstates the cut, if the query served has a folded word: the
      replay cuts wherever the rule did and no later, and no fewer rows and bytes. */
  lemma LargerQueryOverstates(rows: seq<Row>, fold: Fold, query: string, larger: string)
    requires WordsAmong(query, larger)
    requires FoldedWords(fold, SplitWords(query)) != [] || FoldedWords(fold, SplitWords(larger)) == []
    ensures AtOrBefore(TailStart(rows, Named(fold, larger)), TailStart(rows, Named(fold, query)))
    ensures (forall i :: 0 <= i < |rows| ==> Pays(rows[i])) ==> CutsMore(rows, Named(fold, larger), Named(fold, query))
  {
    forall i | 0 <= i < |rows| && Named(fold, larger)(rows[i].name) ensures Named(fold, query)(rows[i].name) {
      MoreWordsAcceptLess(fold, query, larger, rows[i].name);
    }
    FewerProtectedCutsMore(rows, Named(fold, larger), Named(fold, query));
    if forall i :: 0 <= i < |rows| ==> Pays(rows[i]) {
      FewerProtectedSavesMore(rows, Named(fold, larger), Named(fold, query));
    }
  }

  /** Otherwise it understates the cut of some readable block: the extra words protect a row by name that
      nothing protected when the page was served. */
  lemma WordlessQueryUnderstates(fold: Fold, query: string, larger: string, name: string) returns (rows: seq<Row>)
    requires BlankFold(fold) && PlainName(name)
    requires FoldedWords(fold, SplitWords(query)) == [] && Named(fold, larger)(name)
    ensures RowsOk(rows, Reader(false)) && Convertible(rows)
    ensures CutAt(rows, Named(fold, query)) == Some(3) && CutAt(rows, Named(fold, larger)) == None
  {
    rows := SomeSample(name);
    SampleIsCut(fold, SplitWords(query), Named(fold, query), name, rows);
    SampleIsCut(fold, SplitWords(larger), Named(fold, larger), name, rows);
  }

  /** Over all readable blocks the larger query cuts more. */
  ghost predicate Overstates(fold: Fold, query: string, larger: string) {
    forall rows: seq<Row> :: RowsOk(rows, Reader(false)) && Convertible(rows) ==>
      CutsMore(rows, Named(fold, larger), Named(fold, query))
  }

  lemma OverstatesIfFolded(fold: Fold, query: string, larger: string)
    requires WordsAmong(query, larger)
    requires FoldedWords(fold, SplitWords(query)) != [] || FoldedWords(fold, SplitWords(larger)) == []
    ensures Overstates(fold, query, larger)
  {
    forall rows: seq<Row> | RowsOk(rows, Reader(false)) && Convertible(rows)
      ensures CutsMore(rows, Named(fold, larger), Named(fold, query))
    {
      ReadableRowsPay(rows, false);
      LargerQueryOverstates(rows, fold, query, larger);
    }
  }

  /** For the script's own fold: replaying with more words can only overstate the cut, on every readable
      block, if and only if the query served has a letter or digit, or the larger one has none. */
  lemma OverstatesIff(c: Casing, n: char, query: string, larger: string)
    requires Tables(c) && Punctuated(c) && Neutral(c, n) && WordsAmong(query, larger)
    ensures Overstates(ScriptFolds(c), query, larger) <==>
            (exists x :: x in query && c.scriptAlnum(x)) || forall x <- larger :: !c.scriptAlnum(x)
  {
    ScriptHasWordIff(c, query);
    ScriptHasWordIff(c, larger);
    if (exists x :: x in query && c.scriptAlnum(x)) || forall x <- larger :: !c.scriptAlnum(x) {
      OverstatesIfFolded(ScriptFolds(c), query, larger);
    } else {
      var name := ScriptName(c, n, larger);
      ScriptNameIsNamed(c, n, larger);
      ScriptNameIsPlain(c, n, larger);
      forall blank: string | forall x <- blank :: x == ' ' ensures ScriptFold(c, blank) == "" {
        BlankFolds(c, blank);
      }
      var rows := WordlessQueryUnderstates(ScriptFolds(c), query, larger, name);
    }
  }

  lemma ScriptNameIsPlain(c: Casing, n: char, query: string)
    requires Tables(c) && Punctuated(c) && Named(ScriptFolds(c), query)(ScriptName(c, n, query))
    ensures PlainName(ScriptName(c, n, query))
  {
    KeptIsAlnum(c.scriptAlnum, JoinOn(n, SplitWords(query)));
    BlankFolds(c, "");
    BlankIsNotNamed(ScriptFolds(c), SplitWords(query), "");
    LettersArePlain(c, ScriptName(c, n, query));
  }

  /** The claim for a served block: where the two tests agree on the query served, the replay cuts wherever
      the binary did and no later, and no fewer rows and bytes. */
  lemma ReplayOverstatesServing(rows: seq<Row>, script: Fold, binary: Fold, query: string, larger: string)
    requires SameFolds(rows, script, binary, query) && forall c <- query :: !IsSeparator(c)
    requires WordsAmong(query, larger) && FoldedWords(script, SplitWords(query)) != []
    requires RowsOk(rows, Reader(false)) && Convertible(rows)
    ensures CutsMore(rows, Named(script, larger), BinaryNamed(binary, query))
  {
    QueriesAgree(rows, script, binary, query);
    SameNamedCut(rows, Named(script, query), BinaryNamed(binary, query));
    ReadableRowsPay(rows, false);
    LargerQueryOverstates(rows, script, query, larger);
  }
}
