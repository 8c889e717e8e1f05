/** A page whose replay with a larger query depends on which handles are dead. */
module RequeryExamples {
  import opened Options
  import opened Text
  import opened Evidence
  import opened QueryTest
  import opened QueryAgreement
  import opened TrimMarker
  import opened RowPattern
  import opened RankedPage
  import opened TailRule
  import opened TailPrice
  import opened SampleRows
  import opened TailQuery
  import opened QueryExamples
  import opened TailReplay
  import opened TailInvariance
  import opened TailTheorems
  import opened TailExamples
  import opened TailRequery
  import Utf8

  // ---- a block of plain rows ----

  predicate IsPlain(row: Row) {
    PlainName(row.name) && row == PlainRow(row.name, row.rank, row.utility, '\n')
  }

  ghost predicate PlainRows(rows: seq<Row>) {
    rows != [] && forall i :: 0 <= i < |rows| ==> IsPlain(rows[i])
  }

  lemma PlainRowReads(row: Row)
    requires IsPlain(row)
    ensures RowOk(row, Reader(false)) && |row.lines| == 1 && RowLine(row.lines[0], '\n')
  {
    HeadReads(row.name, row.rank, row.utility, '\n');
    HeadIsOneLine(row.name, row.rank, row.utility, '\n');
  }

  lemma RowLinesAreLines(lines: seq<string>)
    requires lines != [] && forall i :: 0 <= i < |lines| ==> RowLine(lines[i], '\n')
    ensures LineList(lines) && EndsLf(lines)
    ensures forall i :: 0 <= i < |lines| ==> "- **" <= lines[i] && lines[i][0] == '-'
  {
  }

  lemma PlainRowsRead(rows: seq<Row>)
    requires PlainRows(rows)
    ensures RowsOf(rows, RowLines(rows)) && EndsLf(RowLines(rows))
  {
    forall i | 0 <= i < |rows| ensures RowOk(rows[i], Reader(false)) && |rows[i].lines| == 1 {
      PlainRowReads(rows[i]);
    }
    RowLinesOfSingles(rows);
    var lines := RowLines(rows);
    forall i | 0 <= i < |lines| ensures RowLine(lines[i], '\n') {
      PlainRowReads(rows[i]);
    }
    RowLinesAreLines(lines);
  }

  /** The page that is one such block. */
  lemma PlainPageReads(rows: seq<Row>)
    requires PlainRows(rows)
    ensures Segments(PageText([Block(rows)])) == [Block(rows)] && Untouched(PageText([Block(rows)]))
  {
    PlainRowsRead(rows);
    OneBlockReads(rows, RowLines(rows));
    NoMarkers(RowLines(rows));
  }

  // ---- six rows ----

  /** Six rows, the first far ahead and the fourth of another name. */
  function SixRows(name: string, other: string): (rows: seq<Row>) {
    [PlainRow(name, 1, 9, '\n'), PlainRow(name, 2, 1, '\n'), PlainRow(name, 3, 1, '\n'),
     PlainRow(other, 4, 1, '\n'), PlainRow(name, 5, 1, '\n'), PlainRow(name, 6, 1, '\n')]
  }

  lemma SixRowsArePlain(name: string, other: string)
    requires PlainName(name) && PlainName(other)
    ensures PlainRows(SixRows(name, other)) && Convertible(SixRows(name, other))
  {
    var rows := SixRows(name, other);
    forall i | 0 <= i < 6 ensures IsPlain(rows[i]) && rows[i].rank == i + 1 {
    }
  }

  lemma SixRowsTail(name: string, other: string, named: string -> bool)
    requires !named(name)
    ensures var rows := SixRows(name, other);
            Best(rows) == 9 && TailStart(rows, named) == Some(if named(other) then 4 else 3)
  {
    var rows := SixRows(name, other);
    BestIsMaximum(rows);
    assert rows[0].utility == 9;
    AfterLastStrongIsLeast(rows, 9, named);
    assert Strong(rows[0], 9, named);
    assert forall i :: 0 < i < 6 && i != 3 ==> !Strong(rows[i], 9, named);
    assert Strong(rows[3], 9, named) <==> named(other);
  }

  lemma LastTwoPay(base: nat, rows: seq<Row>)
    requires |rows| == 6 && rows[4].rank == 5 && rows[5].rank == 6
    requires Utf8.Size(rows[4].Body()) >= 2 * base + 20
    ensures Net(base, rows, 9, 4) > 0
  {
    assert rows[4..] == [rows[4], rows[5]];
    TwoRowBytes(rows[4], rows[5]);
    DigitsAreFew(Bytes(rows[4..]));
  }

  /** It is cut after its third row, or after its fourth if that is protected by name. */
  lemma SixRowsAreCut(name: string, other: string, named: string -> bool)
    requires LongName(name) && PlainName(other) && !named(name)
    ensures CutAt(SixRows(name, other), named) == Some(if named(other) then 4 else 3)
  {
    var rows := SixRows(name, other);
    SixRowsTail(name, other, named);
    SixRowsSave(name, other);
  }

  lemma SixRowsSave(name: string, other: string)
    requires LongName(name) && PlainName(other)
    ensures var rows := SixRows(name, other);
            SavedAt(rows, 3) > 0 && SavedAt(rows, 4) > 0
  {
    var rows := SixRows(name, other);
    OneRowBytes(name, 5, 1, '\n');
    LastTwoPay(Fixed(WORDS, HANDLE), rows);
    SixRowsTail(name, other, NoName());
    SavedIsNet(rows, 4);
    SixRowsArePlain(name, other);
    PlainRowsRead(rows);
    ReadableRowsPay(rows, false);
    EarlierCutSavesMore(rows, 3, 4);
  }

  // ---- the page ----

  /** A page of one block, all of whose lines end in a line feed: a cut is seen. */
  lemma PlainCutIsSeen(rows: seq<Row>, rule: Rule)
    requires PlainRows(rows) && CutAt(rows, rule.named).Some?
    ensures Seen(rows, rule)
  {
    PlainRowsRead(rows[..CutAt(rows, rule.named).value]);
  }

  /** With its tail stored the page is recorded as the original, with nothing stored it is not. */
  ghost predicate DependsOnHandles(rows: seq<Row>, rule: Rule, q: string -> bool, other: string -> Option<string>) {
    var page := PageText([Block(rows)]);
    && GoodHandles(rule) && Untouched(page) && CutAt(rows, rule.named).Some?
    && ReplayOf(TrimPage(page, rule), q, AnswerAll(Tail(rows, rule))) == ReplayOf(page, q, other)
    && ReplayOf(TrimPage(page, rule), q, NothingStored()) != ReplayOf(page, q, other)
  }

  /** Served for one test and replayed with another that cuts the block earlier. */
  lemma HandlesMatter(rows: seq<Row>, rule: Rule, q: string -> bool, other: string -> Option<string>)
    requires PlainRows(rows) && Convertible(rows) && GoodHandles(rule) && forall s :: rule.stored(s)
    requires CutAt(rows, rule.named).Some? && CutAt(rows, q).Some?
    requires CutAt(rows, q).value < CutAt(rows, rule.named).value
    ensures DependsOnHandles(rows, rule, q, other)
  {
    PlainPageReads(rows);
    PlainCutIsSeen(rows, rule);
    StoredIsExact(PageText([Block(rows)]), rows, rule, q, other);
    DeadIsNot(PageText([Block(rows)]), rows, rule, q, other);
  }

  lemma StoredIsExact(page: string, rows: seq<Row>, rule: Rule, q: string -> bool, other: string -> Option<string>)
    requires Segments(page) == [Block(rows)] && Untouched(page) && GoodHandles(rule)
    requires CutAt(rows, rule.named).Some? && Seen(rows, rule)
    ensures ReplayOf(TrimPage(page, rule), q, AnswerAll(Tail(rows, rule))) == ReplayOf(page, q, other)
  {
    SeenAndLiveReplay(page, rule, AnswerAll(Tail(rows, rule)), q);
    UntouchedReplay(page, q, other);
  }

  lemma DeadIsNot(page: string, rows: seq<Row>, rule: Rule, q: string -> bool, other: string -> Option<string>)
    requires Segments(page) == [Block(rows)] && Untouched(page) && GoodHandles(rule) && Convertible(rows)
    requires CutAt(rows, rule.named).Some? && rule.stored(Tail(rows, rule)) && CutAt(rows, q).Some?
    requires CutAt(rows, q).value < CutAt(rows, rule.named).value
    ensures ReplayOf(TrimPage(page, rule), q, NothingStored()) != ReplayOf(page, q, other)
  {
    LostElsewhere(Segments(page), rows, rule, q);
    RequeryIsExactIff(page, rule, NothingStored(), other, q);
  }

  lemma IsLost(rows: seq<Row>, rule: Rule, retrieve: string -> Option<string>)
    requires CutAt(rows, rule.named).Some? && rule.stored(Tail(rows, rule)) && forall h :: retrieve(h) == None
    ensures Lost(rule, retrieve)(rows)
  {
    assert Made(rule)(rows);
    assert retrieve(HandleOf(rows, rule)) == None;
  }

  lemma LostElsewhere(segments: seq<Segment>, rows: seq<Row>, rule: Rule, q: string -> bool)
    requires segments == [Block(rows)] && CutAt(rows, rule.named).Some? && rule.stored(Tail(rows, rule))
    requires CutAt(rows, q) != CutAt(rows, rule.named)
    ensures !SameWhereGone(segments, rule, Lost(rule, NothingStored()), q)
  {
    IsLost(rows, rule, NothingStored());
    CutSomewhereElse(segments, rule, Lost(rule, NothingStored()), q);
  }

  lemma CutSomewhereElse(segments: seq<Segment>, rule: Rule, gone: seq<Row> -> bool, q: string -> bool)
    requires segments != [] && IsCut(segments[0], rule, gone)
    requires CutAt(segments[0].rows, q) != CutAt(segments[0].rows, rule.named)
    ensures !SameWhereGone(segments, rule, gone, q)
  {
  }

  lemma BlankName(query: string, name: string)
    requires forall x <- name :: x == ' '
    ensures !Named(ScriptFolds(Letters()), query)(name)
  {
    LettersAreTables();
    BlankFolds(Letters(), name);
    BlankIsNotNamed(ScriptFolds(Letters()), SplitWords(query), name);
  }

  /** The query `b` accepts the name `b`; with the further argument `c` it does not. */
  lemma FurtherArgument()
    ensures WordsAmong("b", JoinLines(["b", "c"]))
    ensures ScriptAccepts("b", "b") && !ScriptAccepts(JoinLines(["b", "c"]), "b")
  {
    var larger := JoinLines(["b", "c"]);
    ValuesHoldTheirWords(["b", "c"], 0);
    ValuesHoldTheirWords(["b", "c"], 1);
    SmallFolds("b");
    SmallFolds("c");
    SmallQuery("b", "b");
    FoundItself("b");
    OneWord(IsSpace, "c");
    SplitWordsIsSplitOn("c");
    WantedWord("c", larger);
  }

  lemma FurtherCall() returns (query: string, larger: string, other: string)
    ensures query == "b" && larger == JoinLines(["b", "c"]) && WordsAmong(query, larger)
    ensures PlainName(other) && ScriptAccepts(query, other) && !ScriptAccepts(larger, other)
  {
    FurtherArgument();
    query, larger, other := "b", JoinLines(["b", "c"]), "b";
  }

  lemma WantedWord(w: string, larger: string)
    requires w in SplitWords(larger) && w == "c" && ScriptFold(Letters(), w) == w && ScriptFold(Letters(), "b") == "b"
    ensures !ScriptAccepts(larger, "b")
  {
    var fold, words := ScriptFolds(Letters()), SplitWords(larger);
    NamesEveryIff(fold, words, "b");
    assert fold(w) == w != "";
    FoldedMembers(fold, words, w);
    assert "b"[0..1][0] == 'b';
    assert Find("b", "c", 0).None?;
  }

  lemma SixRowsDepend(blank: string, other: string, rule: Rule, q: string -> bool, store: string -> Option<string>)
    requires LongName(blank) && PlainName(other) && GoodHandles(rule) && forall s :: rule.stored(s)
    requires !rule.named(blank) && !q(blank) && rule.named(other) && !q(other)
    ensures DependsOnHandles(SixRows(blank, other), rule, q, store)
  {
    SixRowsArePlain(blank, other);
    SixRowsAreCut(blank, other, rule.named);
    SixRowsAreCut(blank, other, q);
    HandlesMatter(SixRows(blank, other), rule, q, store);
  }

  /** A further argument the name lacks makes a replay depend on dead handles. */
  lemma CallDepends(query: string, larger: string, other: string, blank: string, rule: Rule,
                    store: string -> Option<string>)
    requires LongName(blank) && (forall x <- blank :: x == ' ') && PlainName(other)
    requires ScriptAccepts(query, other) && !ScriptAccepts(larger, other)
    requires rule == Rule(Named(ScriptFolds(Letters()), query), rule.handleFor, rule.stored)
    requires GoodHandles(rule) && forall s :: rule.stored(s)
    ensures DependsOnHandles(SixRows(blank, other), rule, Named(ScriptFolds(Letters()), larger), store)
  {
    BlankName(query, blank);
    BlankName(larger, blank);
    SixRowsDepend(blank, other, rule, Named(ScriptFolds(Letters()), larger), store);
  }

  function HandleRule(named: string -> bool): (rule: Rule) {
    Rule(named, s => HANDLE, s => true)
  }

  lemma HandleRuleIsGood(named: string -> bool)
    ensures GoodHandles(HandleRule(named)) && forall s :: HandleRule(named).stored(s)
  {
    HandleIsHandle();
  }

  lemma DependentCall(query: string, larger: string, other: string, blank: string, store: string -> Option<string>)
    returns (rows: seq<Row>, rule: Rule)
    requires LongName(blank) && (forall x <- blank :: x == ' ') && PlainName(other)
    requires ScriptAccepts(query, other) && !ScriptAccepts(larger, other)
    ensures rule.named == Named(ScriptFolds(Letters()), query)
    ensures DependsOnHandles(rows, rule, Named(ScriptFolds(Letters()), larger), store)
  {
    rows, rule := SixRows(blank, other), HandleRule(Named(ScriptFolds(Letters()), query));
    HandleRuleIsGood(Named(ScriptFolds(Letters()), query));
    CallDepends(query, larger, other, blank, rule, store);
  }

  /** So there is a call, with the query `b` and the further argument `c`, whose replay depends on its dead
      handles although every cut is seen and no heading is near. */
  lemma SomeReplaysDependOnHandles(store: string -> Option<string>)
    returns (query: string, larger: string, rows: seq<Row>, rule: Rule)
    ensures query == "b" && larger == JoinLines(["b", "c"]) && WordsAmong(query, larger)
    ensures rule.named == Named(ScriptFolds(Letters()), query)
    ensures DependsOnHandles(rows, rule, Named(ScriptFolds(Letters()), larger), store)
  {
    var blank := SomeNameIsLong(' ');
    var other;
    query, larger, other := FurtherCall();
    rows, rule := DependentCall(query, larger, other, blank, store);
  }
}
