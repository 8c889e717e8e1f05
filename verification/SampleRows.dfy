/** Readable rows and blocks for concrete pages. */
module SampleRows {
  import opened Options
  import opened Text
  import opened TrimMarker
  import opened RowPattern
  import opened RankedPage
  import opened TailRule
  import opened TailPrice
  import Utf8

  // ---- rows ----

  /** A row head with a given line end. */
  function HeadLine(name: string, rank: nat, utility: nat, end: char): (line: string) {
    "- **" + name + "** " + "" + (ScoreWith(", ", rank, utility) + [end])
  }

  function PlainRow(name: string, rank: nat, utility: nat, end: char): (row: Row) {
    Row(name, rank, utility, false, [HeadLine(name, rank, utility, end)])
  }

  /** A name that neither ends early nor names a route or a line. */
  predicate PlainName(name: string) {
    name != "" && Without(name, '*') && Without(name, ':') && NoBreak(name)
  }

  predicate Without(s: string, c: char) {
    c !in s
  }

  lemma WithoutAppend(a: string, b: string, c: char)
    requires Without(a, c) && Without(b, c)
    ensures Without(a + b, c)
  {
  }

  lemma ScoreParts(rank: nat, utility: nat)
    ensures ScoreWith(", ", rank, utility) == (", rank " + Dec(rank)) + (" \U{B7} utility " + Dec(utility))
  {
    assert ", " + "rank " == ", rank ";
    Assoc(", rank " + Dec(rank), " \U{B7} utility ", Dec(utility));
  }

  lemma ScoreHasNoColon(rank: nat, utility: nat)
    ensures Without(ScoreWith(", ", rank, utility), ':')
  {
    DecRoundTrip(rank);
    DecRoundTrip(utility);
    assert Without(", rank ", ':') && Without(" \U{B7} utility ", ':');
    WithoutAppend(", rank ", Dec(rank), ':');
    WithoutAppend(" \U{B7} utility ", Dec(utility), ':');
    WithoutAppend(", rank " + Dec(rank), " \U{B7} utility " + Dec(utility), ':');
    ScoreParts(rank, utility);
  }

  lemma ScoreHasNoBreak(rank: nat, utility: nat)
    ensures NoBreak(ScoreWith(", ", rank, utility))
  {
    DecRoundTrip(rank);
    DecRoundTrip(utility);
    assert NoBreak(", rank ") && NoBreak(" \U{B7} utility ");
    NoBreakAppend(", rank ", Dec(rank));
    NoBreakAppend(" \U{B7} utility ", Dec(utility));
    NoBreakAppend(", rank " + Dec(rank), " \U{B7} utility " + Dec(utility));
    ScoreParts(rank, utility);
  }

  lemma HeadParts(name: string, rank: nat, utility: nat, end: char)
    requires PlainName(name)
    ensures HeadLine(name, rank, utility, end) == ("- **" + name + "** " + ScoreWith(", ", rank, utility)) + [end]
    ensures Without("- **" + name + "** " + ScoreWith(", ", rank, utility), ':')
            && NoBreak("- **" + name + "** " + ScoreWith(", ", rank, utility))
  {
    ScoreHasNoColon(rank, utility);
    ScoreHasNoBreak(rank, utility);
    assert Without("- **", ':') && Without("** ", ':') && NoBreak("- **") && NoBreak("** ");
    WithoutAppend("- **", name, ':');
    WithoutAppend("- **" + name, "** ", ':');
    WithoutAppend("- **" + name + "** ", ScoreWith(", ", rank, utility), ':');
    NoBreakAppend("- **", name);
    NoBreakAppend("- **" + name, "** ");
    NoBreakAppend("- **" + name + "** ", ScoreWith(", ", rank, utility));
    Nil("- **" + name + "** ");
  }

  lemma NoColonNoAnchor(line: string)
    requires Without(line, ':')
    ensures !RoutesAnchored(line)
  {
    forall k: nat ensures !OccursAt(line, "anchor:", k) {
      if k + 7 <= |line| {
        assert line[k..k + 7][6] == line[k + 6];
        assert line[k + 6] in line;
        assert "anchor:"[6] == ':';
      }
    }
  }

  /** The row head reads back as the row. */
  lemma HeadReads(name: string, rank: nat, utility: nat, end: char)
    requires PlainName(name) && IsBreak(end)
    ensures RowOk(PlainRow(name, rank, utility, end), Reader(false))
  {
    var line := HeadLine(name, rank, utility, end);
    HeadParts(name, rank, utility, end);
    WithoutAppend("- **" + name + "** " + ScoreWith(", ", rank, utility), [end], ':');
    NoColonNoAnchor(line);
    RowReadsBack(name, "", ", ", rank, utility, [end]);
    assert [line][0] == line;
  }

  lemma {:induction false} BreakEndsLine(body: string, end: char)
    requires NoBreak(body) && IsBreak(end)
    ensures OneLine(body + [end])
  {
    if body == "" {
      assert body + [end] == [end];
    } else {
      BreakEndsLine(body[1..], end);
      TailOfAppend(body, [end]);
    }
  }

  lemma HeadIsOneLine(name: string, rank: nat, utility: nat, end: char)
    requires PlainName(name) && IsBreak(end)
    ensures var line := HeadLine(name, rank, utility, end);
            OneLine(line) && line[0] == '-' && Last(line) == end && "- **" <= line && |line| > |name|
  {
    HeadParts(name, rank, utility, end);
    BreakEndsLine("- **" + name + "** " + ScoreWith(", ", rank, utility), end);
  }

  // ---- a block that is cut ----

  /** Five rows, the first far ahead and the last of another name; every line but the last ends in `end`,
      the last in `last`. */
  function FiveNamed(name: string, other: string, end: char, last: char): (rows: seq<Row>) {
    [PlainRow(name, 1, 9, end), PlainRow(name, 2, 1, end), PlainRow(name, 3, 1, end),
     PlainRow(name, 4, 1, end), PlainRow(other, 5, 1, last)]
  }

  function FiveRows(name: string, end: char, last: char): (rows: seq<Row>) {
    FiveNamed(name, name, end, last)
  }

  function NoName(): (named: string -> bool)
    ensures forall name :: !named(name)
  {
    name => false
  }

  lemma FiveNamedTail(name: string, other: string, end: char, last: char, named: string -> bool)
    requires !named(name)
    ensures var rows := FiveNamed(name, other, end, last);
            Best(rows) == 9 && TailStart(rows, named) == if named(other) then None else Some(3)
  {
    var rows := FiveNamed(name, other, end, last);
    BestIsMaximum(rows);
    assert rows[0].utility == 9;
    AfterLastStrongIsLeast(rows, 9, named);
    assert Strong(rows[0], 9, named);
    assert forall i :: 1 <= i < 4 ==> !Strong(rows[i], 9, named);
    assert Strong(rows[4], 9, named) <==> named(other);
  }

  // ---- a cut that pays ----

  lemma OneLineBytes(row: Row, line: string)
    requires row.lines == [line]
    ensures Utf8.Size(row.Body()) >= |line|
  {
    assert [line][1..] == [];
    assert Concat([line]) == line + Concat([]);
    Nil(line);
    SizeIsAtLeastLength(line);
  }

  lemma OneRowBytes(name: string, rank: nat, utility: nat, end: char)
    requires PlainName(name) && IsBreak(end)
    ensures Utf8.Size(PlainRow(name, rank, utility, end).Body()) > |name|
  {
    HeadIsOneLine(name, rank, utility, end);
    OneLineBytes(PlainRow(name, rank, utility, end), HeadLine(name, rank, utility, end));
  }

  /** A name so long that cutting a row of it pays for the marker. */
  ghost predicate LongName(name: string) {
    PlainName(name) && |name| >= LongEnough()
  }

  function LongEnough(): (n: nat) {
    2 * Fixed(WORDS, HANDLE) + 20
  }

  lemma TwoRowBytes(a: Row, b: Row)
    ensures Bytes([a, b]) == Utf8.Size(a.Body()) + Utf8.Size(b.Body())
  {
    assert [a, b][1..] == [b] && [b][1..] == [];
    assert Bytes([b]) == Utf8.Size(b.Body()) + Bytes([]);
  }

  lemma LongPays(base: nat, rows: seq<Row>)
    requires |rows| == 5 && rows[3].rank == 4 && rows[4].rank == 5
    requires Utf8.Size(rows[3].Body()) >= 2 * base + 20
    ensures Net(base, rows, 9, 3) > 0
  {
    assert rows[3..] == [rows[3], rows[4]];
    TwoRowBytes(rows[3], rows[4]);
    DigitsAreFew(Bytes(rows[3..]));
  }

  /** The block is cut after its third row, unless its last row is protected by name. */
  lemma FiveNamedAreCut(name: string, other: string, end: char, last: char, named: string -> bool)
    requires LongName(name) && PlainName(other) && IsBreak(end) && IsBreak(last) && !named(name)
    ensures CutAt(FiveNamed(name, other, end, last), named) == if named(other) then None else Some(3)
  {
    var rows := FiveNamed(name, other, end, last);
    FiveNamedTail(name, other, end, last, named);
    OneRowBytes(name, 4, 1, end);
    LongPays(Fixed(WORDS, HANDLE), rows);
    SavedIsNet(rows, 3);
  }

  lemma FiveRowsAreCut(name: string, end: char, last: char)
    requires LongName(name) && IsBreak(end) && IsBreak(last)
    ensures CutAt(FiveRows(name, end, last), NoName()) == Some(3)
  {
    FiveNamedAreCut(name, name, end, last, NoName());
  }

  /** Any plain character makes a long name. */
  lemma SomeNameIsLong(c: char) returns (name: string)
    requires c != '*' && c != ':' && !IsBreak(c)
    ensures LongName(name) && forall x <- name :: x == c
  {
    name := NameOf(c, LongEnough());
  }

  lemma NameOf(c: char, n: nat) returns (name: string)
    requires c != '*' && c != ':' && !IsBreak(c) && n > 0
    ensures PlainName(name) && |name| == n && forall x <- name :: x == c
  {
    name := seq(n, i => c);
    assert name[0] == c;
  }

  lemma FiveNamedOk(name: string, other: string, end: char, last: char)
    requires PlainName(name) && PlainName(other) && IsBreak(end) && IsBreak(last)
    ensures RowsOk(FiveNamed(name, other, end, last), Reader(false))
  {
    HeadReads(name, 1, 9, end);
    HeadReads(name, 2, 1, end);
    HeadReads(name, 3, 1, end);
    HeadReads(name, 4, 1, end);
    HeadReads(other, 5, 1, last);
    EachOfFive(PlainRow(name, 1, 9, end), PlainRow(name, 2, 1, end), PlainRow(name, 3, 1, end),
               PlainRow(name, 4, 1, end), PlainRow(other, 5, 1, last), Reader(false));
  }

  lemma FiveNamedConvert(name: string, other: string, end: char, last: char)
    ensures Convertible(FiveNamed(name, other, end, last))
  {
    var rows := FiveNamed(name, other, end, last);
    forall i | 0 <= i < |rows| ensures Digits(rows[i].rank) <= MAX_DIGITS {
      assert rows[i].rank == i + 1;
    }
  }

  lemma FiveRowsOk(name: string, end: char, last: char)
    requires PlainName(name) && IsBreak(end) && IsBreak(last)
    ensures RowsOk(FiveRows(name, end, last), Reader(false))
  {
    FiveNamedOk(name, name, end, last);
  }

  lemma EachOfFive(a: Row, b: Row, c: Row, d: Row, e: Row, read: RowReader)
    requires RowOk(a, read) && RowOk(b, read) && RowOk(c, read) && RowOk(d, read) && RowOk(e, read)
    ensures RowsOk([a, b, c, d, e], read)
  {
  }
}
