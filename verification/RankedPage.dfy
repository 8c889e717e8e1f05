/** A search or context page as `ranked_blocks` reads it: runs of ranked rows between other lines. */
module RankedPage {
  import opened Options
  import opened Text
  import opened RowPattern

  /** A reader of row heads; the page structure depends on no more than this of ROW. */
  type RowReader = read: string -> Option<Row> | ReadsHeads(read) witness (line => None)

  lemma ReaderReadsHeads(anchored: bool)
    ensures ReadsHeads(Reader(anchored))
  {
  }

  ghost predicate ReadsHeads(read: string -> Option<Row>) {
    forall line :: read(line).Some? ==> "- **" <= line && read(line).value.lines == [line]
  }

  datatype Segment = Block(rows: seq<Row>) | Other(line: string)

  function Continue(rows: seq<Row>, line: string): (r: seq<Row>)
    requires rows != []
  {
    var last := rows[|rows| - 1];
    rows[..|rows| - 1] + [last.(lines := last.lines + [line])]
  }

  /** The page as segments, given the rows of a block still open at its start. */
  function Parse(lines: seq<string>, open: seq<Row>, read: RowReader): (segments: seq<Segment>)
    decreases |lines|
  {
    if lines == [] then Closed(open)
    else
      var row := read(lines[0]);
      if row.Some? then Parse(lines[1..], open + [row.value], read)
      else if open != [] && StartsWith(lines[0], "  ") then Parse(lines[1..], Continue(open, lines[0]), read)
      else Closed(open) + [Other(lines[0])] + Parse(lines[1..], [], read)
  }

  function Closed(open: seq<Row>): (segments: seq<Segment>) {
    if open == [] then [] else [Block(open)]
  }

  function Blocks(segments: seq<Segment>): (blocks: seq<seq<Row>>) {
    if segments == [] then []
    else (if segments[0].Block? then [segments[0].rows] else []) + Blocks(segments[1..])
  }

  lemma BlocksStep(lines: seq<string>, i: nat, open: seq<Row>, read: RowReader)
    requires i < |lines|
    ensures var row, line := read(lines[i]), lines[i];
            Blocks(Parse(lines[i..], open, read))
            == if row.Some? then Blocks(Parse(lines[i + 1..], open + [row.value], read))
               else if open != [] && StartsWith(line, "  ") then
                 Blocks(Parse(lines[i + 1..], Continue(open, line), read))
               else (if open == [] then [] else [open]) + Blocks(Parse(lines[i + 1..], [], read))
  {
    SliceStep(lines, i);
    var line, rest := lines[i], Parse(lines[i + 1..], [], read);
    if read(line).None? && !(open != [] && StartsWith(line, "  ")) {
      Cons(Other(line), rest);
      Nil(Blocks(rest));
      assert Blocks([Other(line)] + rest) == Blocks(rest);
      Assoc(Closed(open), [Other(line)], rest);
      if open == [] {
        Nil([Other(line)] + rest);
        Nil(Blocks(rest));
      } else {
        Cons(Block(open), [Other(line)] + rest);
      }
    }
  }

  /** The loop of `ranked_blocks` finds exactly the blocks of the parsed page. */
  method RankedBlocks(text: string, read: RowReader) returns (blocks: seq<seq<Row>>)
    ensures blocks == Blocks(Parse(SplitLines(text), [], read))
  {
    blocks := [];
    var open: seq<Row> := [];
    var lines := SplitLines(text);
    for i := 0 to |lines|
      invariant Blocks(Parse(lines, [], read)) == blocks + Blocks(Parse(lines[i..], open, read))
    {
      BlocksStep(lines, i, open, read);
      var row := read(lines[i]);
      if row.Some? {
        open := open + [row.value];
      } else if open != [] && StartsWith(lines[i], "  ") {
        open := Continue(open, lines[i]);
      } else {
        Assoc(blocks, [open], Blocks(Parse(lines[i + 1..], [], read)));
        Nil(Blocks(Parse(lines[i + 1..], [], read)));
        if open != [] {
          blocks := blocks + [open];
        }
        open := [];
      }
    }
    assert lines[|lines|..] == [];
    LastBlock(open);
    if open != [] {
      blocks := blocks + [open];
    }
  }

  lemma LastBlock(open: seq<Row>)
    ensures Blocks(Closed(open)) == if open == [] then [] else [open]
  {
    if open != [] {
      Cons(Block(open), []);
    }
  }

  lemma {:induction false} BlocksAppend(a: seq<Segment>, b: seq<Segment>)
    ensures Blocks(a + b) == Blocks(a) + Blocks(b)
  {
    if a == [] {
      assert a + b == b;
    } else {
      assert (a + b)[1..] == a[1..] + b;
      BlocksAppend(a[1..], b);
    }
  }

  // ---- parsing is a bijection between pages and canonical segment lists ----

  function RowLines(rows: seq<Row>): (lines: seq<string>) {
    if rows == [] then [] else rows[0].lines + RowLines(rows[1..])
  }

  function SegmentLines(seg: Segment): (lines: seq<string>) {
    match seg
    case Block(rows) => RowLines(rows)
    case Other(line) => [line]
  }

  function PageLines(segments: seq<Segment>): (lines: seq<string>) {
    if segments == [] then [] else SegmentLines(segments[0]) + PageLines(segments[1..])
  }

  predicate RowOk(row: Row, read: RowReader) {
    && row.lines != []
    && read(row.lines[0]) == Some(row.(lines := [row.lines[0]]))
    && forall i :: 1 <= i < |row.lines| ==> StartsWith(row.lines[i], "  ")
  }

  predicate RowsOk(rows: seq<Row>, read: RowReader) {
    forall i :: 0 <= i < |rows| ==> RowOk(rows[i], read)
  }

  /** Blocks are non-empty, maximal runs of rows; no line outside a block could be inside one. */
  predicate Canonical(segments: seq<Segment>, afterBlock: bool, read: RowReader) {
    segments == [] ||
    match segments[0]
    case Block(rows) =>
      !afterBlock && rows != [] && RowsOk(rows, read) && Canonical(segments[1..], true, read)
    case Other(line) =>
      read(line).None? && (afterBlock ==> !StartsWith(line, "  ")) && Canonical(segments[1..], false, read)
  }

  lemma {:induction false} RowLinesAppend(a: seq<Row>, b: seq<Row>)
    ensures RowLines(a + b) == RowLines(a) + RowLines(b)
  {
    if a == [] {
      assert a + b == b;
    } else {
      assert (a + b)[1..] == a[1..] + b;
      RowLinesAppend(a[1..], b);
    }
  }

  lemma {:induction false} PageLinesAppend(a: seq<Segment>, b: seq<Segment>)
    ensures PageLines(a + b) == PageLines(a) + PageLines(b)
  {
    if a == [] {
      assert a + b == b;
    } else {
      assert (a + b)[1..] == a[1..] + b;
      PageLinesAppend(a[1..], b);
    }
  }

  lemma ContinueLines(rows: seq<Row>, line: string, read: RowReader)
    requires rows != []
    ensures RowLines(Continue(rows, line)) == RowLines(rows) + [line]
    ensures RowsOk(rows, read) && StartsWith(line, "  ") ==> RowsOk(Continue(rows, line), read)
  {
    var init, last := rows[..|rows| - 1], rows[|rows| - 1];
    assert rows == init + [last];
    RowLinesAppend(init, [last]);
    RowLinesAppend(init, [last.(lines := last.lines + [line])]);
    assert RowLines([last]) == last.lines + RowLines([]);
    var more := last.(lines := last.lines + [line]);
    assert RowLines([more]) == more.lines + RowLines([]);
    assert forall i :: 0 <= i < |init| ==> Continue(rows, line)[i] == rows[i];
  }

  /** Closing the open block before a line that cannot be in it. */
  lemma CloseBefore(open: seq<Row>, line: string, rest: seq<Segment>, read: RowReader)
    requires RowsOk(open, read) && read(line).None?
    requires open != [] ==> !StartsWith(line, "  ")
    requires Canonical(rest, false, read)
    ensures var all := Closed(open) + [Other(line)] + rest;
            Canonical(all, false, read) && PageLines(all) == RowLines(open) + ([line] + PageLines(rest))
  {
    var other := [Other(line)] + rest;
    assert other[1..] == rest;
    assert Canonical(other, open != [], read);
    if open == [] {
      assert Closed(open) + [Other(line)] + rest == other;
      assert RowLines(open) + ([line] + PageLines(rest)) == [line] + PageLines(rest);
    } else {
      assert Closed(open) + [Other(line)] + rest == [Block(open)] + other;
      assert ([Block(open)] + other)[1..] == other;
    }
  }

  lemma OneRowLines(row: Row)
    ensures RowLines([row]) == row.lines
  {
    Cons(row, []);
    Nil(row.lines);
  }

  lemma ClosedIsCanonical(open: seq<Row>, read: RowReader)
    requires RowsOk(open, read)
    ensures PageLines(Closed(open)) == RowLines(open) && Canonical(Closed(open), false, read)
  {
    if open != [] {
      Cons(Block(open), []);
      Nil(RowLines(open));
    }
  }

  /** Parsing loses no line and always yields a canonical list. */
  lemma {:induction false} ParseIsExact(lines: seq<string>, open: seq<Row>, read: RowReader)
    requires RowsOk(open, read)
    ensures PageLines(Parse(lines, open, read)) == RowLines(open) + lines
    ensures Canonical(Parse(lines, open, read), false, read)
    decreases |lines|
  {
    if lines == [] {
      Nil(RowLines(open));
      ClosedIsCanonical(open, read);
    } else {
      Uncons(lines);
      var row := read(lines[0]);
      if row.Some? {
        ParseIsExact(lines[1..], open + [row.value], read);
        RowLinesAppend(open, [row.value]);
        OneRowLines(row.value);
        Assoc(RowLines(open), [lines[0]], lines[1..]);
      } else if open != [] && StartsWith(lines[0], "  ") {
        ContinueLines(open, lines[0], read);
        ParseIsExact(lines[1..], Continue(open, lines[0]), read);
        Assoc(RowLines(open), [lines[0]], lines[1..]);
      } else {
        ParseIsExact(lines[1..], [], read);
        Nil(lines[1..]);
        CloseBefore(open, lines[0], Parse(lines[1..], [], read), read);
      }
    }
  }

  lemma IndentIsNoRow(line: string, read: RowReader)
    requires StartsWith(line, "  ")
    ensures read(line).None?
  {
    assert line[0] == ' ';
  }

  lemma {:induction false} ParseContinuation(more: seq<string>, rest: seq<string>, open: seq<Row>, row: Row,
                                             read: RowReader)
    requires forall i :: 0 <= i < |more| ==> StartsWith(more[i], "  ")
    ensures Parse(more + rest, open + [row], read)
            == Parse(rest, open + [row.(lines := row.lines + more)], read)
    decreases |more|
  {
    if more == [] {
      assert more + rest == rest && row.lines + more == row.lines;
    } else {
      assert (more + rest)[1..] == more[1..] + rest;
      IndentIsNoRow(more[0], read);
      var longer := row.(lines := row.lines + [more[0]]);
      assert Continue(open + [row], more[0]) == open + [longer];
      ParseContinuation(more[1..], rest, open, longer, read);
      assert longer.lines + more[1..] == row.lines + more;
    }
  }

  lemma ParseRow(row: Row, rest: seq<string>, open: seq<Row>, read: RowReader)
    requires RowOk(row, read)
    ensures Parse(row.lines + rest, open, read) == Parse(rest, open + [row], read)
  {
    var head, more := row.lines[0], row.lines[1..];
    assert row.lines == [head] + more;
    var lines := row.lines + rest;
    assert lines[0] == head && lines[1..] == more + rest;
    var short := row.(lines := [head]);
    assert Parse(lines, open, read) == Parse(more + rest, open + [short], read);
    ParseContinuation(more, rest, open, short, read);
    assert short.(lines := short.lines + more) == row;
  }

  lemma {:induction false} ParseRows(rows: seq<Row>, rest: seq<string>, open: seq<Row>, read: RowReader)
    requires RowsOk(rows, read)
    ensures Parse(RowLines(rows) + rest, open, read) == Parse(rest, open + rows, read)
    decreases |rows|
  {
    if rows == [] {
      Nil(rest);
      Nil(open);
    } else {
      Assoc(rows[0].lines, RowLines(rows[1..]), rest);
      ParseRow(rows[0], RowLines(rows[1..]) + rest, open, read);
      ParseRows(rows[1..], rest, open + [rows[0]], read);
      Uncons(rows);
      Assoc(open, [rows[0]], rows[1..]);
    }
  }

  /** Re-reading the lines of a canonical list gives the list back. */
  lemma {:induction false} ParseOfCanonical(segments: seq<Segment>, open: seq<Row>, read: RowReader)
    requires Canonical(segments, open != [], read)
    ensures Parse(PageLines(segments), open, read) == Closed(open) + segments
    decreases |segments|
  {
    if segments == [] {
      assert Closed(open) + segments == Closed(open);
    } else {
      var rest := PageLines(segments[1..]);
      Uncons(segments);
      match segments[0]
      case Block(rows) =>
        ParseRows(rows, rest, open, read);
        Nil(rows);
        ParseOfCanonical(segments[1..], rows, read);
        Nil(segments);
      case Other(line) =>
        Cons(line, rest);
        ParseOfCanonical(segments[1..], [], read);
        Nil(segments[1..]);
        Assoc(Closed(open), [Other(line)], segments[1..]);
    }
  }
}
