/** Pages on which a replay of the served page cannot see, or cannot measure, what was cut. */
module TailExamples {
  import opened Options
  import opened Text
  import opened TrimMarker
  import opened RowPattern
  import opened RankedPage
  import opened TailRule
  import opened SampleRows
  import opened TailReplay
  import opened TailInvariance
  import opened TailTheorems
  import Utf8

  // ---- the lines of a block ----

  function FiveLines(name: string, end: char, last: char): (lines: seq<string>) {
    [HeadLine(name, 1, 9, end), HeadLine(name, 2, 1, end), HeadLine(name, 3, 1, end),
     HeadLine(name, 4, 1, end), HeadLine(name, 5, 1, last)]
  }

  lemma FiveRowLines(name: string, end: char, last: char)
    ensures RowLines(FiveRows(name, end, last)) == FiveLines(name, end, last)
    ensures RowLines(FiveRows(name, end, last)[..3]) == FiveLines(name, end, last)[..3]
  {
    var rows := FiveRows(name, end, last);
    RowLinesOfSingles(rows);
    RowLinesOfSingles(rows[..3]);
  }

  lemma {:induction false} RowLinesOfSingles(rows: seq<Row>)
    requires forall i :: 0 <= i < |rows| ==> |rows[i].lines| == 1
    ensures |RowLines(rows)| == |rows| && forall i :: 0 <= i < |rows| ==> RowLines(rows)[i] == rows[i].lines[0]
  {
    if rows != [] {
      RowLinesOfSingles(rows[1..]);
    }
  }

  predicate RowLine(line: string, end: char) {
    OneLine(line) && line[0] == '-' && Last(line) == end && "- **" <= line
  }

  lemma FiveLinesAreLines(name: string, end: char, last: char)
    requires PlainName(name) && IsBreak(end) && IsBreak(last)
    ensures LineList(FiveLines(name, end, last))
    ensures forall i :: 0 <= i < 5 ==> RowLine(FiveLines(name, end, last)[i], if i < 4 then end else last)
  {
    HeadIsOneLine(name, 1, 9, end);
    HeadIsOneLine(name, 2, 1, end);
    HeadIsOneLine(name, 3, 1, end);
    HeadIsOneLine(name, 4, 1, end);
    HeadIsOneLine(name, 5, 1, last);
    LinesOfFive(HeadLine(name, 1, 9, end), HeadLine(name, 2, 1, end), HeadLine(name, 3, 1, end),
                HeadLine(name, 4, 1, end), HeadLine(name, 5, 1, last), end, last);
  }

  lemma LinesOfFive(a: string, b: string, c: string, d: string, e: string, end: char, last: char)
    requires RowLine(a, end) && RowLine(b, end) && RowLine(c, end) && RowLine(d, end) && RowLine(e, last)
             && IsBreak(end)
    ensures LineList([a, b, c, d, e])
    ensures forall i :: 0 <= i < 5 ==> RowLine([a, b, c, d, e][i], if i < 4 then end else last)
  {
  }

  // ---- pages ----

  /** A row line is no marker. */
  lemma RowIsNoMarker(line: string)
    requires "- **" <= line
    ensures MatchMarker(line).None?
  {
    WordsArePlain();
    RowIsNoMarkerBy(WORDS, line);
  }

  lemma RowIsNoMarkerBy(w: seq<string>, line: string)
    requires PlainWords(w) && "- **" <= line
    ensures MatchWords(w, line).None?
  {
    assert line[2] == '*' && w[0][2] == '_';
    assert !(w[0] <= line);
    assert Pattern(w)[0] == Lit(w[0]);
  }

  lemma HeadingIsNoMarker(line: string)
    requires line != "" && line[0] == '#'
    ensures MatchMarker(line).None?
  {
    WordsArePlain();
    HeadingIsNoMarkerBy(WORDS, line);
  }

  lemma HeadingIsNoMarkerBy(w: seq<string>, line: string)
    requires PlainWords(w) && line != "" && line[0] == '#'
    ensures MatchWords(w, line).None?
  {
    assert w[0][0] == '-';
    assert !(w[0] <= line);
    assert Pattern(w)[0] == Lit(w[0]);
  }

  /** A canonical list of lines without the heading after a line feed is the parse of its text. */
  lemma TextParsesBack(segments: seq<Segment>)
    requires Canonical(segments, false, Reader(false)) && LineList(PageLines(segments))
    requires !AnchoredLines(HEADING, PageLines(segments), false)
    ensures Segments(PageText(segments)) == segments && SplitLines(PageText(segments)) == PageLines(segments)
  {
    AnchoredIsByLine(PageLines(segments));
    SplitConcat(PageLines(segments));
    ParseOfCanonical(segments, [], Reader(false));
    Nil(segments);
  }

  // ---- a cut that no replay sees ----

  lemma {:induction false} RowsHoldNoHeading(lines: seq<string>, prev: bool)
    requires forall i :: 0 <= i < |lines| ==> lines[i] != "" && lines[i][0] == '-'
    ensures !AnchoredLines(HEADING, lines, prev)
  {
    assert HEADING[0] == '#';
    SkipLines(HEADING, lines, [], prev);
    Nil(lines);
  }

  /** A page that is one block of rows, each line ending in a carriage return. */
  function CarriagePage(name: string): (segments: seq<Segment>) {
    [Block(FiveRows(name, '\r', '\r'))]
  }

  lemma OneBlockLines(rows: seq<Row>)
    ensures PageLines([Block(rows)]) == RowLines(rows)
  {
    assert [Block(rows)][1..] == [];
    Nil(RowLines(rows));
  }

  /** Rows and the lines they take up. */
  ghost predicate RowsOf(rows: seq<Row>, lines: seq<string>) {
    && rows != [] && RowsOk(rows, Reader(false)) && RowLines(rows) == lines && LineList(lines)
    && forall i :: 0 <= i < |lines| ==> "- **" <= lines[i] && lines[i][0] == '-'
  }

  lemma FiveRowsOf(name: string, end: char, last: char)
    requires PlainName(name) && IsBreak(end) && IsBreak(last)
    ensures RowsOf(FiveRows(name, end, last), FiveLines(name, end, last))
  {
    FiveRowsOk(name, end, last);
    FiveRowLines(name, end, last);
    FiveLinesAreLines(name, end, last);
  }

  lemma NoMarkers(lines: seq<string>)
    requires forall i :: 0 <= i < |lines| ==> "- **" <= lines[i] || (lines[i] != "" && lines[i][0] == '#')
    ensures NoMarkerLine(MatchMarker, lines)
  {
    forall i | 0 <= i < |lines| ensures MatchMarker(lines[i]).None? {
      if "- **" <= lines[i] {
        RowIsNoMarker(lines[i]);
      } else {
        HeadingIsNoMarker(lines[i]);
      }
    }
  }

  lemma OneBlockReads(rows: seq<Row>, lines: seq<string>)
    requires RowsOf(rows, lines)
    ensures var segments := [Block(rows)];
            Segments(PageText(segments)) == segments && SplitLines(PageText(segments)) == lines
  {
    OneBlockLines(rows);
    RowsHoldNoHeading(lines, false);
    assert [Block(rows)][1..] == [];
    TextParsesBack([Block(rows)]);
  }

  lemma CarriagePageReads(name: string)
    requires PlainName(name)
    ensures var segments := CarriagePage(name);
            Segments(PageText(segments)) == segments && Untouched(PageText(segments))
  {
    FiveRowsOf(name, '\r', '\r');
    OneBlockReads(FiveRows(name, '\r', '\r'), FiveLines(name, '\r', '\r'));
    NoMarkers(FiveLines(name, '\r', '\r'));
  }

  function OneHandle(): (rule: Rule) {
    Rule(NoName(), s => HANDLE, s => true)
  }

  function NothingStored(): (retrieve: string -> Option<string>)
    ensures forall h :: retrieve(h) == None
  {
    h => None
  }

  /** Whatever the handle, the same tail. */
  function AnswerAll(tail: string): (retrieve: string -> Option<string>)
    ensures forall h :: retrieve(h) == Some(tail)
  {
    h => Some(tail)
  }

  /** There are pages with a cut that no replay sees: the served page records other totals than the
      original, and even with every tail stored it is not restored. */
  lemma SomeCutsAreNotSeen() returns (page: string, rule: Rule, retrieve: string -> Option<string>)
    ensures GoodHandles(rule) && Untouched(page)
    ensures AllLive(Segments(page), rule, retrieve) && !AllSeen(Segments(page), rule)
    ensures Spliced(Scan(MatchMarker, TrimPage(page, rule), true), retrieve) != page
    ensures ReplayOf(TrimPage(page, rule), rule.named, retrieve) != ReplayOf(page, rule.named, retrieve)
    ensures ReplayOf(TrimPage(page, rule), rule.named, NothingStored()) != ReplayOf(page, rule.named, NothingStored())
  {
    var name := SomeNameIsLong('a');
    var segments := CarriagePage(name);
    page, rule := PageText(segments), OneHandle();
    HandleIsHandle();
    CarriagePageReads(name);
    FiveRowsAreCut(name, '\r', '\r');
    retrieve := AnswerAll(Tail(FiveRows(name, '\r', '\r'), rule));
    CarriageCutIsUnseen(name);
    assert IsCut(segments[0], rule, Made(rule)) && !Seen(segments[0].rows, rule);
    assert !AllSeen(segments, rule);
    UnseenIsNotRestored(page, rule, retrieve);
  }

  lemma UnseenIsNotRestored(page: string, rule: Rule, retrieve: string -> Option<string>)
    requires GoodHandles(rule) && Untouched(page)
    requires AllLive(Segments(page), rule, retrieve) && !AllSeen(Segments(page), rule)
    ensures Spliced(Scan(MatchMarker, TrimPage(page, rule), true), retrieve) != page
    ensures ReplayOf(TrimPage(page, rule), rule.named, retrieve) != ReplayOf(page, rule.named, retrieve)
    ensures ReplayOf(TrimPage(page, rule), rule.named, NothingStored()) != ReplayOf(page, rule.named, NothingStored())
  {
    RestoreUndoesTrimIff(page, rule, retrieve);
    ReplayIsExactIff(page, rule, retrieve, retrieve);
    ReplayIsExactIff(page, rule, NothingStored(), NothingStored());
  }

  lemma CarriageCutIsUnseen(name: string)
    requires LongName(name) && CutAt(FiveRows(name, '\r', '\r'), NoName()) == Some(3)
    ensures !Seen(FiveRows(name, '\r', '\r'), OneHandle())
  {
    var lines := FiveLines(name, '\r', '\r');
    FiveRowLines(name, '\r', '\r');
    FiveLinesAreLines(name, '\r', '\r');
    assert lines[..3][2] == lines[2] && Last(lines[2]) == '\r';
  }

  // ---- a cut that hides another ----

  /** A block whose last line ends in a carriage return, the heading, and a second block. */
  function HeadingPage(name: string): (segments: seq<Segment>) {
    [Block(FiveRows(name, '\n', '\r')), Other(HEADING), Block(FiveRows(name, '\n', '\n'))]
  }

  lemma ThreePartLines(a: seq<Row>, b: seq<Row>)
    ensures PageLines([Block(a), Other(HEADING), Block(b)]) == RowLines(a) + ([HEADING] + RowLines(b))
  {
    var segments := [Block(a), Other(HEADING), Block(b)];
    assert segments[1..] == [Other(HEADING), Block(b)] && segments[1..][1..] == [Block(b)];
    OneBlockLines(b);
  }

  lemma HeadingStaysHidden(a: seq<string>, b: seq<string>)
    requires a != [] && !EndsLf(a)
    requires (forall i :: 0 <= i < |a| ==> a[i] != "" && a[i][0] == '-')
             && (forall i :: 0 <= i < |b| ==> b[i] != "" && b[i][0] == '-')
    ensures !AnchoredLines(HEADING, a + ([HEADING] + b), false)
  {
    assert HEADING[0] == '#';
    SkipLines(HEADING, a, [HEADING] + b, false);
    Cons(HEADING, b);
    RowsHoldNoHeading(b, EndsLf([HEADING]));
  }

  lemma ThreePartsAreLines(a: seq<string>, b: seq<string>)
    requires LineList(a) && LineList(b) && a != [] && b != [] && Last(a[|a| - 1]) == '\r' && b[0][0] == '-'
    ensures LineList(a + ([HEADING] + b))
  {
    HeadingIsOneLine();
    assert HEADING[0] == '#';
    LineListJoin([HEADING], b);
    Cons(HEADING, b);
    LineListJoin(a, [HEADING] + b);
  }

  lemma HeadingIsNoRow()
    ensures Reader(false)(HEADING).None? && !StartsWith(HEADING, "  ")
  {
    assert HEADING[0] == '#';
  }

  lemma ThreePartsAreCanonical(a: seq<Row>, h: string, b: seq<Row>, read: RowReader)
    requires a != [] && b != [] && RowsOk(a, read) && RowsOk(b, read) && read(h).None? && !StartsWith(h, "  ")
    ensures Canonical([Block(a), Other(h), Block(b)], false, read)
  {
    var segments := [Block(a), Other(h), Block(b)];
    assert [Block(b)][1..] == [];
    assert Canonical([Block(b)], false, read);
    assert [Other(h), Block(b)][1..] == [Block(b)];
    assert Canonical([Other(h), Block(b)], true, read);
    assert segments[1..] == [Other(h), Block(b)];
  }

  lemma ThreePartsReadBack(segments: seq<Segment>, a: seq<Row>, b: seq<Row>, first: seq<string>, second: seq<string>)
    requires segments == [Block(a), Other(HEADING), Block(b)]
    requires RowsOf(a, first) && RowsOf(b, second) && first != [] && second != [] && Last(first[|first| - 1]) == '\r'
    ensures Segments(PageText(segments)) == segments && SplitLines(PageText(segments)) == first + ([HEADING] + second)
  {
    ThreePartLines(a, b);
    ThreePartsAreLines(first, second);
    HeadingStaysHidden(first, second);
    HeadingIsNoRow();
    ThreePartsAreCanonical(a, HEADING, b, Reader(false));
    TextParsesBack(segments);
  }

  lemma ThreePartsUntouched(first: seq<string>, h: string, second: seq<string>)
    requires h != "" && h[0] == '#'
    requires (forall i :: 0 <= i < |first| ==> "- **" <= first[i])
             && (forall i :: 0 <= i < |second| ==> "- **" <= second[i])
    ensures NoMarkerLine(MatchMarker, first + ([h] + second))
  {
    NoMarkers(first + ([h] + second));
  }

  lemma FiveLinesEnd(name: string, end: char, last: char)
    requires PlainName(name) && IsBreak(end) && IsBreak(last)
    ensures var lines := FiveLines(name, end, last); lines != [] && Last(lines[|lines| - 1]) == last
  {
    FiveLinesAreLines(name, end, last);
  }

  lemma HeadingPageReads(name: string)
    requires PlainName(name)
    ensures var segments := HeadingPage(name);
            Segments(PageText(segments)) == segments && Untouched(PageText(segments))
  {
    FiveRowsOf(name, '\n', '\r');
    FiveRowsOf(name, '\n', '\n');
    FiveLinesEnd(name, '\n', '\r');
    FiveLinesEnd(name, '\n', '\n');
    HeadingPageBy(HeadingPage(name), FiveRows(name, '\n', '\r'), FiveRows(name, '\n', '\n'),
                  FiveLines(name, '\n', '\r'), FiveLines(name, '\n', '\n'));
  }

  lemma HeadingPageBy(segments: seq<Segment>, a: seq<Row>, b: seq<Row>, first: seq<string>, second: seq<string>)
    requires segments == [Block(a), Other(HEADING), Block(b)]
    requires RowsOf(a, first) && RowsOf(b, second) && first != [] && second != [] && Last(first[|first| - 1]) == '\r'
    ensures Segments(PageText(segments)) == segments && Untouched(PageText(segments))
  {
    ThreePartsReadBack(segments, a, b, first, second);
    assert HEADING[0] == '#';
    ThreePartsUntouched(first, HEADING, second);
  }

  const OTHER := "rh_" + "111111111111" + "111111111111"

  lemma OtherIsHandle()
    ensures IsHandle(OTHER) && OTHER != HANDLE
  {
    assert forall k :: 3 <= k < 15 ==> OTHER[k] == "111111111111"[k - 3];
    assert forall k :: 15 <= k < 27 ==> OTHER[k] == "111111111111"[k - 15];
    assert OTHER[..3] == "rh_";
    assert OTHER[3] == '1' && HANDLE[3] == "000000000000"[0];
  }

  /** A store that names tails by their last character. */
  function TwoHandles(): (rule: Rule) {
    Rule(NoName(), s => if s != "" && Last(s) == '\n' then OTHER else HANDLE, s => true)
  }

  /** The first block's tail is gone; the second's is `tail`. */
  function OneStored(tail: string): (retrieve: string -> Option<string>)
    ensures retrieve(HANDLE) == None || HANDLE == OTHER
    ensures retrieve(OTHER) == Some(tail)
  {
    h => if h == OTHER then Some(tail) else None
  }

  lemma TailEnds(name: string, end: char, last: char, rule: Rule)
    requires LongName(name) && IsBreak(end) && IsBreak(last) && rule.named == NoName()
    ensures var rows := FiveRows(name, end, last);
            CutAt(rows, rule.named) == Some(3) && Tail(rows, rule) != "" && Last(Tail(rows, rule)) == last
  {
    var rows := FiveRows(name, end, last);
    FiveRowsAreCut(name, end, last);
    HeadIsOneLine(name, 5, 1, last);
    assert rows[3..] == [rows[3], rows[4]];
    TwoRowText(rows[3], rows[4], HeadLine(name, 4, 1, end), HeadLine(name, 5, 1, last));
  }

  lemma TwoRowText(a: Row, b: Row, first: string, second: string)
    requires a.lines == [first] && b.lines == [second] && second != ""
    ensures var text := Concat(RowLines([a, b])); text != "" && Last(text) == Last(second)
  {
    assert [a, b][1..] == [b] && [b][1..] == [];
    assert RowLines([b]) == [second] + RowLines([]);
    Nil([second]);
    assert RowLines([a, b]) == [first, second];
    assert [first, second][1..] == [second] && [second][1..] == [];
    assert Concat([second]) == second + Concat([]);
    Nil(second);
  }

  lemma KeptEnds(name: string, last: char)
    requires PlainName(name) && IsBreak(last)
    ensures EndsLf(RowLines(FiveRows(name, '\n', last)[..3]))
    ensures EndsLf(RowLines(FiveRows(name, '\n', last))) <==> last == '\n'
  {
    var lines := FiveLines(name, '\n', last);
    FiveRowLines(name, '\n', last);
    FiveLinesAreLines(name, '\n', last);
    assert lines[..3][2] == lines[2];
  }

  lemma HeadingIsUnsafe(h: string, segments: seq<Segment>, a: seq<Row>, b: seq<Row>, rule: Rule, gone: seq<Row> -> bool)
    requires segments == [Block(a), Other(h), Block(b)]
    requires CutAt(a, rule.named).Some? && gone(a) && !EndsLf(RowLines(a)) && CutAt(b, rule.named).Some? && !gone(b)
    ensures !HeadingSafe(h, segments, rule, gone) && !AllGone(segments, rule, gone)
  {
    assert IsCut(segments[0], rule, gone) && segments[0 + 1] == Other(h);
    assert segments[2] == Block(b);
  }

  lemma BlockIsOneOfTwo(h: string, a: seq<Row>, b: seq<Row>, i: nat)
    requires i < 3 && [Block(a), Other(h), Block(b)][i].Block?
    ensures [Block(a), Other(h), Block(b)][i].rows == if i == 0 then a else b
  {
  }

  lemma TwoCutsAreSeen(h: string, segments: seq<Segment>, a: seq<Row>, b: seq<Row>, rule: Rule)
    requires segments == [Block(a), Other(h), Block(b)] && CutAt(a, rule.named).Some? && CutAt(b, rule.named).Some?
    requires Seen(a, rule) && Seen(b, rule)
    ensures AllSeen(segments, rule)
  {
    forall i | 0 <= i < |segments| && segments[i].Block? && CutAt(segments[i].rows, rule.named).Some?
      ensures Seen(segments[i].rows, rule)
    {
      BlockIsOneOfTwo(h, a, b, i);
    }
  }

  lemma TwoCutsAreAnswered(h: string, segments: seq<Segment>, a: seq<Row>, b: seq<Row>, rule: Rule,
                           retrieve: string -> Option<string>)
    requires segments == [Block(a), Other(h), Block(b)] && CutAt(a, rule.named).Some? && CutAt(b, rule.named).Some?
    requires Answers(a, rule, retrieve) && Answers(b, rule, retrieve)
    ensures StoreAnswers(segments, rule, retrieve)
  {
    forall i | 0 <= i < |segments| && segments[i].Block? && CutAt(segments[i].rows, rule.named).Some?
      ensures Answers(segments[i].rows, rule, retrieve)
    {
      BlockIsOneOfTwo(h, a, b, i);
    }
  }

  lemma SecondCutIsHidden(page: string, a: seq<Row>, b: seq<Row>, rule: Rule, retrieve: string -> Option<string>)
    requires Segments(page) == [Block(a), Other(HEADING), Block(b)] && Untouched(page) && GoodHandles(rule)
    requires Made(rule)(a) && Made(rule)(b)
    requires Seen(a, rule) && Seen(b, rule) && !EndsLf(RowLines(a))
    requires retrieve(HandleOf(a, rule)) == None && retrieve(HandleOf(b, rule)) == Some(Tail(b, rule))
    ensures StoreAnswers(Segments(page), rule, retrieve) && AllSeen(Segments(page), rule)
    ensures ReplayOf(TrimPage(page, rule), rule.named, retrieve) != ReplayOf(page, rule.named, retrieve)
  {
    TwoCutsAreSeen(HEADING, Segments(page), a, b, rule);
    TwoCutsAreAnswered(HEADING, Segments(page), a, b, rule, retrieve);
    HeadingIsUnsafe(HEADING, Segments(page), a, b, rule, Lost(rule, retrieve));
    ReplayIsExactIff(page, rule, retrieve, retrieve);
  }

  lemma BlockFacts(name: string, last: char)
    requires LongName(name) && (last == '\n' || last == '\r')
    ensures var rows, rule := FiveRows(name, '\n', last), TwoHandles();
            && Made(rule)(rows) && Seen(rows, rule) && (EndsLf(RowLines(rows)) <==> last == '\n')
            && HandleOf(rows, rule) == (if last == '\n' then OTHER else HANDLE)
  {
    TailEnds(name, '\n', last, TwoHandles());
    KeptEnds(name, last);
  }

  lemma HandlesAreGood()
    ensures GoodHandles(TwoHandles())
  {
    HandleIsHandle();
    OtherIsHandle();
  }

  /** There are pages on which one lost cut hides another: every cut is seen, and still the replay
      records other totals than the original page's, because the heading has surfaced. */
  lemma SomeLostCutsHideOthers() returns (page: string, rule: Rule, retrieve: string -> Option<string>)
    ensures GoodHandles(rule) && Untouched(page) && StoreAnswers(Segments(page), rule, retrieve)
            && AllSeen(Segments(page), rule)
    ensures ReplayOf(TrimPage(page, rule), rule.named, retrieve) != ReplayOf(page, rule.named, retrieve)
  {
    var name := SomeNameIsLong('a');
    var a, b := FiveRows(name, '\n', '\r'), FiveRows(name, '\n', '\n');
    rule := TwoHandles();
    BlockFacts(name, '\r');
    BlockFacts(name, '\n');
    page, retrieve := PageText(HeadingPage(name)), OneStored(Tail(b, rule));
    HandlesAreGood();
    OtherIsHandle();
    HeadingPageReads(name);
    SecondCutIsHidden(page, a, b, rule, retrieve);
  }
}
