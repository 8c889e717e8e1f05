/** What the replay records for a served page is what it would record for the page before
    trimming, whichever handles died in between. */
module TailInvariance {
  import opened Text
  import opened TrimMarker
  import opened RowPattern
  import opened RankedPage
  import opened TailRule
  import opened TailReplay

  // ---- line lists ----

  lemma LineListParts(a: seq<string>, b: seq<string>)
    requires LineList(a + b)
    ensures LineList(a) && LineList(b)
    ensures a != [] && b != [] ==> Junction(a[|a| - 1], b[0])
  {
    var ab := a + b;
    forall i | 0 <= i < |a| ensures OneLine(a[i]) {
      assert ab[i] == a[i];
    }
    forall i | 0 <= i < |a| - 1 ensures Junction(a[i], a[i + 1]) {
      assert ab[i] == a[i] && ab[i + 1] == a[i + 1];
    }
    forall i | 0 <= i < |b| ensures OneLine(b[i]) {
      assert ab[|a| + i] == b[i];
    }
    forall i | 0 <= i < |b| - 1 ensures Junction(b[i], b[i + 1]) {
      assert ab[|a| + i] == b[i] && ab[|a| + i + 1] == b[i + 1];
    }
    if a != [] && b != [] {
      assert ab[|a| - 1] == a[|a| - 1] && ab[|a| - 1 + 1] == b[0];
    }
  }

  lemma LineListJoin(a: seq<string>, b: seq<string>)
    requires LineList(a) && LineList(b)
    requires a != [] && b != [] ==> Junction(a[|a| - 1], b[0])
    ensures LineList(a + b)
  {
    var ab := a + b;
    forall i | 0 <= i < |ab| - 1 ensures Junction(ab[i], ab[i + 1]) {
      if i < |a| - 1 {
        assert ab[i] == a[i] && ab[i + 1] == a[i + 1];
      } else if i == |a| - 1 {
        assert ab[i] == a[i] && ab[i + 1] == b[0];
      } else {
        assert ab[i] == b[i - |a|] && ab[i + 1] == b[i - |a| + 1];
      }
    }
  }

  // ---- trimming keeps the shape of the page ----

  /** The lines of a cut block: the kept part, the tail, and the marker that replaces the tail. */
  lemma CutLines(rows: seq<Row>, rule: Rule, read: RowReader)
    requires RowsOk(rows, read) && CutAt(rows, rule.named).Some? && GoodHandles(rule)
    ensures var k := CutAt(rows, rule.named).value;
            && RowLines(rows) == RowLines(rows[..k]) + RowLines(rows[k..])
            && RowLines(rows[..k]) != [] && RowLines(rows[k..]) != []
            && RowLines(rows[..k])[0] == RowLines(rows)[0]
            && PageLines(TrimBlock(rows, rule)) == RowLines(rows[..k]) + [MarkerLine(rows, rule)]
  {
    var k := CutAt(rows, rule.named).value;
    RowLinesSplit(rows, k, read);
    BlockAndLine(rows[..k], MarkerLine(rows, rule));
  }

  lemma RowLinesSplit(rows: seq<Row>, k: nat, read: RowReader)
    requires RowsOk(rows, read) && 0 < k < |rows|
    ensures RowLines(rows) == RowLines(rows[..k]) + RowLines(rows[k..])
    ensures RowLines(rows[..k]) != [] && RowLines(rows[k..]) != [] && RowLines(rows[..k])[0] == RowLines(rows)[0]
  {
    assert rows == rows[..k] + rows[k..];
    RowLinesAppend(rows[..k], rows[k..]);
  }

  lemma BlockAndLine(rows: seq<Row>, line: string)
    ensures PageLines([Block(rows), Other(line)]) == RowLines(rows) + [line]
  {
    assert [Block(rows), Other(line)][1..] == [Other(line)] && [Other(line)][1..] == [];
    assert PageLines([Other(line)]) == [line] + PageLines([]);
    Nil([line]);
  }

  lemma MarkerLineShape(rows: seq<Row>, rule: Rule)
    requires CutAt(rows, rule.named).Some? && GoodHandles(rule)
    ensures var line := MarkerLine(rows, rule);
            OneLine(line) && Last(line) == '\n' && "- _" <= line
  {
    var cut := rows[CutAt(rows, rule.named).value..];
    MarkerIsOneLine(|cut|, cut[0].rank, cut[|cut| - 1].rank, Bytes(cut), Best(rows), rule.handleFor(Tail(rows, rule)));
  }

  lemma CutBlockLineList(rows: seq<Row>, rule: Rule, read: RowReader)
    requires RowsOk(rows, read) && CutAt(rows, rule.named).Some? && GoodHandles(rule)
    requires LineList(RowLines(rows))
    ensures LineList(PageLines(TrimBlock(rows, rule)))
  {
    var k := CutAt(rows, rule.named).value;
    CutLines(rows, rule, read);
    MarkerLineShape(rows, rule);
    LineListParts(RowLines(rows[..k]), RowLines(rows[k..]));
    var line := MarkerLine(rows, rule);
    assert line[0] == '-';
    LineListJoin(RowLines(rows[..k]), [line]);
  }

  /** A cut block before any line list: a line list that starts with the block's first line. */
  lemma CutThenRest(rows: seq<Row>, out: seq<Segment>, rule: Rule, read: RowReader)
    requires RowsOk(rows, read) && CutAt(rows, rule.named).Some? && GoodHandles(rule)
    requires LineList(RowLines(rows)) && LineList(PageLines(out))
    ensures var lines := PageLines(TrimBlock(rows, rule) + out);
            LineList(lines) && lines != [] && RowLines(rows) != [] && lines[0] == RowLines(rows)[0]
  {
    CutLines(rows, rule, read);
    CutBlockLineList(rows, rule, read);
    MarkerLineShape(rows, rule);
    PageLinesAppend(TrimBlock(rows, rule), out);
    LineListJoin(PageLines(TrimBlock(rows, rule)), PageLines(out));
  }

  /** A trimmed page is a line list that starts with the same line. */
  lemma {:induction false} TrimmedLineList(segments: seq<Segment>, afterBlock: bool, rule: Rule, gone: seq<Row> -> bool,
                                           read: RowReader)
    requires GoodHandles(rule) && Canonical(segments, afterBlock, read) && LineList(PageLines(segments))
    ensures var lines, out := PageLines(segments), PageLines(TrimWhere(segments, rule, gone));
            LineList(out) && (lines == [] <==> out == []) && (lines != [] ==> lines[0] == out[0])
    decreases |segments|
  {
    if segments != [] {
      var seg, rest := segments[0], segments[1..];
      var here, more := SegmentLines(seg), PageLines(rest);
      LineListParts(here, more);
      TrimmedLineList(rest, seg.Block?, rule, gone, read);
      var out := PageLines(TrimWhere(rest, rule, gone));
      if IsCut(seg, rule, gone) {
        CutThenRest(seg.rows, TrimWhere(rest, rule, gone), rule, read);
      } else {
        assert ([seg] + TrimWhere(rest, rule, gone))[1..] == TrimWhere(rest, rule, gone);
        LineListJoin(here, out);
      }
    }
  }

  lemma MarkerFollowsBlock(line: string, out: seq<Segment>, read: RowReader)
    requires "- _" <= line && Canonical(out, true, read)
    ensures Canonical([Other(line)] + out, true, read)
  {
    assert line[2] == '_' && line[0] == '-';
    AfterBlockIsEnough(out, read);
    Cons(Other(line), out);
  }

  lemma CutIsCanonical(rows: seq<Row>, out: seq<Segment>, rule: Rule, read: RowReader)
    requires GoodHandles(rule) && RowsOk(rows, read) && CutAt(rows, rule.named).Some? && Canonical(out, true, read)
    ensures Canonical(TrimBlock(rows, rule) + out, false, read)
  {
    MarkerLineShape(rows, rule);
    var kept, line := Block(rows[..CutAt(rows, rule.named).value]), MarkerLine(rows, rule);
    MarkerFollowsBlock(line, out, read);
    assert TrimBlock(rows, rule) + out == [kept] + ([Other(line)] + out);
    Cons(kept, [Other(line)] + out);
  }

  /** A trimmed page reads back as exactly the trimmed segments. */
  lemma {:induction false} TrimmedIsCanonical(segments: seq<Segment>, afterBlock: bool, rule: Rule,
                                              gone: seq<Row> -> bool, read: RowReader)
    requires GoodHandles(rule) && Canonical(segments, afterBlock, read)
    ensures Canonical(TrimWhere(segments, rule, gone), afterBlock, read)
    decreases |segments|
  {
    if segments != [] {
      var seg, rest := segments[0], segments[1..];
      var out := TrimWhere(rest, rule, gone);
      if IsCut(seg, rule, gone) {
        TrimmedIsCanonical(rest, true, rule, gone, read);
        CutIsCanonical(seg.rows, out, rule, read);
      } else {
        TrimmedIsCanonical(rest, seg.Block?, rule, gone, read);
        Cons(seg, out);
      }
    }
  }

  lemma AfterBlockIsEnough(segments: seq<Segment>, read: RowReader)
    requires Canonical(segments, true, read)
    ensures Canonical(segments, false, read)
  {
  }

  // ---- the Lexical Anchors heading, line by line ----

  /** The heading is some line that a line feed precedes; `prev` says whether one precedes this point. */
  predicate AnchoredLines(h: string, lines: seq<string>, prev: bool) {
    lines != [] && ((prev && lines[0] == h) || AnchoredLines(h, lines[1..], EndsLf([lines[0]])))
  }

  predicate EndsLf(lines: seq<string>) {
    lines != [] && lines[|lines| - 1] != "" && Last(lines[|lines| - 1]) == '\n'
  }

  lemma HeadingIsOneLine()
    ensures OneLine(HEADING) && Last(HEADING) == '\n'
  {
    var body := "### Lexical Anchors";
    assert NoBreak(body);
    assert HEADING == body + "\n";
    LineFeedEndsLine(body);
  }

  /** A text that opens with a whole line has it as its first line. */
  lemma OpeningLineIsFirst(h: string, lines: seq<string>)
    requires OneLine(h) && Last(h) == '\n'
    requires LineList(lines) && h <= Concat(lines)
    ensures lines != [] && lines[0] == h
  {
    var text := Concat(lines);
    var rest := text[|h|..];
    assert text == h + rest;
    LineLenAppend(h, rest);
    SplitConcat(lines);
    assert SplitLines(text)[0] == text[..|h|];
  }

  lemma FirstLineDecides(h: string, line: string, rest: string)
    requires OneLine(line)
    ensures Contains(line + rest, "\n" + h)
            <==> (Last(line) == '\n' && h <= rest) || Contains(rest, "\n" + h)
  {
    var needle, text := "\n" + h, line + rest;
    forall k: nat | OccursAt(text, needle, k)
      ensures (Last(line) == '\n' && h <= rest) || Contains(rest, needle)
    {
      OccurrenceInLine(h, line, rest, k);
      if k >= |line| {
        assert OccursAt(rest, needle, k - |line|);
      }
    }
    if Last(line) == '\n' && h <= rest {
      assert text[|line| - 1..|line| - 1 + |needle|] == needle;
      assert OccursAt(text, needle, |line| - 1);
    }
    forall k: nat | OccursAt(rest, needle, k) ensures Contains(text, needle) {
      assert text[|line| + k..|line| + k + |needle|] == rest[k..k + |needle|];
      assert OccursAt(text, needle, |line| + k);
    }
  }

  /** An occurrence that starts inside a line starts at its final line feed. */
  lemma OccurrenceInLine(h: string, line: string, rest: string, k: nat)
    requires OneLine(line) && OccursAt(line + rest, "\n" + h, k)
    ensures k >= |line| - 1
    ensures k == |line| - 1 ==> Last(line) == '\n' && h <= rest
    ensures k >= |line| ==> OccursAt(rest, "\n" + h, k - |line|)
  {
    var needle, text := "\n" + h, line + rest;
    assert text[k..k + |needle|][0] == text[k];
    if k < |line| - 1 {
      OneLineInterior(line, k);
    } else if k == |line| - 1 {
      assert text[k..k + |needle|][1..] == rest[..|h|];
      assert needle[1..] == h;
    } else {
      assert rest[k - |line|..k - |line| + |needle|] == text[k..k + |needle|];
    }
  }

  lemma {:induction false} ContainsIsByLine(h: string, lines: seq<string>)
    requires LineList(lines) && OneLine(h) && Last(h) == '\n'
    ensures Contains(Concat(lines), "\n" + h) <==> AnchoredLines(h, lines, false)
  {
    var needle := "\n" + h;
    if lines == [] {
      assert forall k: nat :: !OccursAt("", needle, k);
    } else {
      var rest := Concat(lines[1..]);
      assert lines == [lines[0]] + lines[1..];
      LineListParts([lines[0]], lines[1..]);
      FirstLineDecides(h, lines[0], rest);
      ContainsIsByLine(h, lines[1..]);
      if h <= rest {
        OpeningLineIsFirst(h, lines[1..]);
      }
    }
  }

  lemma AnchoredIsByLine(lines: seq<string>)
    requires LineList(lines)
    ensures Anchored(Concat(lines)) <==> AnchoredLines(HEADING, lines, false)
  {
    HeadingIsOneLine();
    ContainsIsByLine(HEADING, lines);
  }

  lemma {:induction false} SkipLines(h: string, a: seq<string>, b: seq<string>, prev: bool)
    requires forall i :: 0 <= i < |a| ==> a[i] != h
    ensures AnchoredLines(h, a + b, prev) == AnchoredLines(h, b, if a == [] then prev else EndsLf(a))
  {
    if a == [] {
      Nil(b);
    } else {
      SkipLines(h, a[1..], b, EndsLf([a[0]]));
      TailOfAppend(a, b);
      EndsLfStep(a);
    }
  }

  lemma EndsLfStep(a: seq<string>)
    requires a != []
    ensures EndsLf(a) == if a[1..] == [] then EndsLf([a[0]]) else EndsLf(a[1..])
  {
    if a[1..] == [] {
      assert a == [a[0]];
    }
  }

  lemma {:induction false} RowLinesAreNoHeading(h: string, rows: seq<Row>, read: RowReader)
    requires RowsOk(rows, read) && h != "" && h[0] == '#'
    ensures forall i :: 0 <= i < |RowLines(rows)| ==> RowLines(rows)[i] != h
  {
    if rows != [] {
      RowLinesAreNoHeading(h, rows[1..], read);
      forall j | 0 <= j < |rows[0].lines| ensures rows[0].lines[j] != h {
        if j == 0 {
          assert rows[0].lines[0][0] == '-';
        } else {
          assert rows[0].lines[j][0] == ' ';
        }
      }
    }
  }

  /** No selected cut that lacks a final line feed stands right before the heading. */
  predicate HeadingSafe(h: string, segments: seq<Segment>, rule: Rule, gone: seq<Row> -> bool) {
    forall i :: 0 <= i < |segments| - 1 && IsCut(segments[i], rule, gone) ==>
      EndsLf(RowLines(segments[i].rows)) || segments[i + 1] != Other(h)
  }

  /** Replacing whole lines that are no heading by one that ends in a line feed changes nothing after them. */
  lemma ReplacedLines(h: string, was: seq<string>, now: seq<string>, more: seq<string>, out: seq<string>, prev: bool)
    requires was != [] && EndsLf(now)
    requires forall i :: 0 <= i < |was| ==> was[i] != h
    requires forall i :: 0 <= i < |now| ==> now[i] != h
    requires AnchoredLines(h, out, true) == AnchoredLines(h, more, true)
    requires more != [] && !EndsLf(was) ==> more[0] != h
    ensures AnchoredLines(h, now + out, prev) == AnchoredLines(h, was + more, prev)
  {
    SkipLines(h, was, more, prev);
    SkipLines(h, now, out, prev);
  }

  lemma CutBlockIsNoHeading(h: string, rows: seq<Row>, rule: Rule, read: RowReader)
    requires h != "" && h[0] == '#'
    requires GoodHandles(rule) && RowsOk(rows, read) && CutAt(rows, rule.named).Some?
    requires LineList(RowLines(rows))
    ensures var was, now := RowLines(rows), PageLines(TrimBlock(rows, rule));
            && was != [] && EndsLf(now)
            && (forall i :: 0 <= i < |was| ==> was[i] != h)
            && (forall i :: 0 <= i < |now| ==> now[i] != h)
  {
    CutLines(rows, rule, read);
    MarkerLineShape(rows, rule);
    var line := MarkerLine(rows, rule);
    assert line[0] == '-';
    var here, kept := RowLines(rows), RowLines(rows[..CutAt(rows, rule.named).value]);
    assert forall i :: 0 <= i < |kept| ==> kept[i] == here[i];
    RowLinesAreNoHeading(h, rows, read);
    NoneIsHeading(h, kept, line);
  }

  lemma NoneIsHeading(h: string, kept: seq<string>, line: string)
    requires (forall i :: 0 <= i < |kept| ==> kept[i] != h) && line != h
    ensures forall i :: 0 <= i < |kept + [line]| ==> (kept + [line])[i] != h
  {
  }

  lemma KeptSegment(h: string, seg: Segment, more: seq<string>, out: seq<string>, prev: bool, read: RowReader)
    requires h != "" && h[0] == '#'
    requires seg.Block? ==> seg.rows != [] && RowsOk(seg.rows, read)
    requires AnchoredLines(h, out, EndsLf(SegmentLines(seg))) == AnchoredLines(h, more, EndsLf(SegmentLines(seg)))
    ensures AnchoredLines(h, SegmentLines(seg) + out, prev) == AnchoredLines(h, SegmentLines(seg) + more, prev)
  {
    var here := SegmentLines(seg);
    match seg
    case Block(rows) =>
      RowLinesAreNoHeading(h, rows, read);
      SkipLines(h, here, more, prev);
      SkipLines(h, here, out, prev);
    case Other(line) =>
      assert (here + more)[1..] == more && (here + out)[1..] == out;
  }

  lemma CutStep(h: string, segments: seq<Segment>, prev: bool, rule: Rule, gone: seq<Row> -> bool, read: RowReader,
                trimmed: seq<Segment>)
    requires h != "" && h[0] == '#' && GoodHandles(rule) && HeadingSafe(h, segments, rule, gone)
    requires Canonical(segments, false, read) && LineList(PageLines(segments))
    requires segments != [] && IsCut(segments[0], rule, gone)
    requires AnchoredLines(h, PageLines(trimmed), true) == AnchoredLines(h, PageLines(segments[1..]), true)
    ensures AnchoredLines(h, PageLines(TrimBlock(segments[0].rows, rule) + trimmed), prev)
            == AnchoredLines(h, PageLines(segments), prev)
  {
    var rows, rest := segments[0].rows, segments[1..];
    var here, more := RowLines(rows), PageLines(rest);
    LineListParts(here, more);
    PageLinesAppend(TrimBlock(rows, rule), trimmed);
    if more != [] && !EndsLf(here) {
      assert segments[0 + 1] != Other(h);
      assert more[0] == rest[0].line;
    }
    CutBlockIsNoHeading(h, rows, rule, read);
    ReplacedLines(h, here, PageLines(TrimBlock(rows, rule)), more, PageLines(trimmed), prev);
  }

  /** Making the selected cuts neither adds nor hides the heading. */
  lemma {:induction false} AnchorsSurvive(h: string, segments: seq<Segment>, afterBlock: bool, prev: bool, rule: Rule,
                                          gone: seq<Row> -> bool, read: RowReader)
    requires h != "" && h[0] == '#'
    requires GoodHandles(rule) && Canonical(segments, afterBlock, read) && HeadingSafe(h, segments, rule, gone)
    requires LineList(PageLines(segments))
    ensures AnchoredLines(h, PageLines(TrimWhere(segments, rule, gone)), prev)
            == AnchoredLines(h, PageLines(segments), prev)
    decreases |segments|
  {
    if segments != [] {
      var seg, rest := segments[0], segments[1..];
      var here, trimmed := SegmentLines(seg), TrimWhere(rest, rule, gone);
      LineListParts(here, PageLines(rest));
      assert forall i :: 0 <= i < |rest| ==> rest[i] == segments[i + 1];
      if IsCut(seg, rule, gone) {
        AnchorsSurvive(h, rest, true, true, rule, gone, read);
        CutStep(h, segments, prev, rule, gone, read, trimmed);
      } else {
        assert ([seg] + trimmed)[1..] == trimmed;
        AnchorsSurvive(h, rest, seg.Block?, EndsLf(here), rule, gone, read);
        KeptSegment(h, seg, PageLines(rest), PageLines(trimmed), prev, read);
      }
    }
  }
}
