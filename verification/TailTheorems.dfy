/** The main results about the ranked-tail trim and its replay. */
module TailTheorems {
  import opened Options
  import opened Text
  import opened TrimMarker
  import opened RowPattern
  import opened RankedPage
  import opened TailRule
  import opened TailReplay
  import opened TailInvariance
  import Utf8

  // ---- scanning a page line by line ----

  ghost predicate NoMarkerLine(find: string -> Option<Marker>, lines: seq<string>) {
    forall i :: 0 <= i < |lines| ==> find(lines[i]).None?
  }

  lemma {:induction false} RawPiecesAppend(a: string, b: string)
    ensures RawPieces(a + b) == RawPieces(a) + RawPieces(b)
  {
    if a == "" {
      assert a + b == b;
    } else {
      assert (a + b)[1..] == a[1..] + b;
      RawPiecesAppend(a[1..], b);
    }
  }

  lemma ScanCopiesFirst(find: Finder, line: string, more: seq<string>, bol: bool)
    requires LineLocal(find) && line != "" && LineList([line] + more) && find(line).None?
    ensures Scan(find, line + Concat(more), bol) == RawPieces(line) + Scan(find, Concat(more), Last(line) == '\n')
  {
    LineListParts([line], more);
    assert [line][0] == line;
    if more != [] {
      assert Concat(more)[0] == more[0][0];
    }
    ScanCopiesLine(find, line, Concat(more), bol);
  }

  /** Lines that open no marker are copied through by the scan. */
  lemma {:induction false} ScanCopiesLines(find: Finder, lines: seq<string>, rest: seq<string>, bol: bool)
    requires LineLocal(find) && LineList(lines + rest) && NoMarkerLine(find, lines)
    ensures Scan(find, Concat(lines + rest), bol)
            == RawPieces(Concat(lines)) + Scan(find, Concat(rest), if lines == [] then bol else EndsLf(lines))
    decreases |lines|
  {
    if lines == [] {
      Nil(rest);
    } else {
      var line, tail := lines[0], lines[1..];
      TailOfAppend(lines, rest);
      Cons(line, tail + rest);
      LineListParts([line], tail + rest);
      ScanCopiesFirst(find, line, tail + rest, bol);
      ScanCopiesLines(find, tail, rest, Last(line) == '\n');
      RawPiecesAppend(line, Concat(tail));
      EndsLfStep(lines);
      Assoc(RawPieces(line), RawPieces(Concat(tail)), Scan(find, Concat(rest), EndsLf(lines)));
    }
  }

  lemma {:induction false} SplicedAppend(a: seq<Piece>, b: seq<Piece>, retrieve: string -> Option<string>)
    ensures Spliced(a + b, retrieve) == Spliced(a, retrieve) + Spliced(b, retrieve)
    ensures Dead(a + b, retrieve) == Dead(a, retrieve) + Dead(b, retrieve)
  {
    if a == [] {
      Nil(b);
    } else {
      assert (a + b)[1..] == a[1..] + b;
      SplicedAppend(a[1..], b, retrieve);
      Assoc(Restored(a[0], retrieve), Spliced(a[1..], retrieve), Spliced(b, retrieve));
      var first := if a[0].Mark? && retrieve(a[0].m.handle).None? then [a[0].m] else [];
      Assoc(first, Dead(a[1..], retrieve), Dead(b, retrieve));
    }
  }

  lemma {:induction false} SplicedRaw(s: string, retrieve: string -> Option<string>)
    ensures Spliced(RawPieces(s), retrieve) == s && Dead(RawPieces(s), retrieve) == []
  {
    if s != "" {
      assert RawPieces(s)[1..] == RawPieces(s[1..]);
      SplicedRaw(s[1..], retrieve);
    }
  }

  // ---- which cuts a replay sees, and which it can restore ----

  /** The marker of this cut stands at a line start TRIM_MARKER recognises. */
  predicate Seen(rows: seq<Row>, rule: Rule)
    requires CutAt(rows, rule.named).Some?
  {
    EndsLf(RowLines(rows[..CutAt(rows, rule.named).value]))
  }

  function HandleOf(rows: seq<Row>, rule: Rule): (h: string)
    requires CutAt(rows, rule.named).Some?
  {
    rule.handleFor(Tail(rows, rule))
  }

  function Lost(rule: Rule, retrieve: string -> Option<string>): (gone: seq<Row> -> bool) {
    rows => Made(rule)(rows) && (!Seen(rows, rule) || retrieve(HandleOf(rows, rule)).None?)
  }

  /** The match TRIM_MARKER makes of this cut's marker. */
  function MarkerOf(rows: seq<Row>, rule: Rule): (m: Marker)
    requires CutAt(rows, rule.named).Some?
  {
    var cut := rows[CutAt(rows, rule.named).value..];
    Marker(MarkerLine(rows, rule), |cut|, Bytes(cut), HandleOf(rows, rule))
  }

  function DeadHere(seg: Segment, rule: Rule, retrieve: string -> Option<string>): (dead: seq<Marker>) {
    if IsCut(seg, rule, Made(rule)) && Seen(seg.rows, rule) && retrieve(HandleOf(seg.rows, rule)).None?
    then [MarkerOf(seg.rows, rule)] else []
  }

  function DeadMarkers(segments: seq<Segment>, rule: Rule, retrieve: string -> Option<string>): (dead: seq<Marker>) {
    if segments == [] then [] else DeadHere(segments[0], rule, retrieve) + DeadMarkers(segments[1..], rule, retrieve)
  }

  /** The store answers a cut's handle with exactly its tail, or not at all. */
  ghost predicate Answers(rows: seq<Row>, rule: Rule, retrieve: string -> Option<string>)
    requires CutAt(rows, rule.named).Some?
  {
    var answer := retrieve(HandleOf(rows, rule));
    answer == None || answer == Some(Tail(rows, rule))
  }

  ghost predicate StoreAnswers(segments: seq<Segment>, rule: Rule, retrieve: string -> Option<string>) {
    forall i :: 0 <= i < |segments| && IsCut(segments[i], rule, Made(rule)) ==>
        Answers(segments[i].rows, rule, retrieve)
  }

  lemma MarkerOfReadsBack(rows: seq<Row>, rule: Rule, rest: string)
    requires CutAt(rows, rule.named).Some? && GoodHandles(rule)
    ensures MatchMarker(MarkerLine(rows, rule) + rest) == Some(MarkerOf(rows, rule))
  {
    var cut := rows[CutAt(rows, rule.named).value..];
    MarkerReadsBack(|cut|, cut[0].rank, cut[|cut| - 1].rank, Bytes(cut), Best(rows), HandleOf(rows, rule), rest);
    MarkerLineText(rows, rule);
  }

  lemma MarkerLineText(rows: seq<Row>, rule: Rule)
    requires CutAt(rows, rule.named).Some?
    ensures var cut := rows[CutAt(rows, rule.named).value..];
            && MarkerLine(rows, rule) == MarkerText(|cut|, cut[0].rank, cut[|cut| - 1].rank, Bytes(cut), Best(rows),
                                                    HandleOf(rows, rule))
            && MarkerOf(rows, rule) == Marker(MarkerLine(rows, rule), |cut|, Bytes(cut), HandleOf(rows, rule))
  {
  }

  /** A marker after some copied lines is found, or copied too when it follows no line feed. */
  lemma ScanThenMarker(find: Finder, lines: seq<string>, m: Marker, rest: seq<string>, bol: bool)
    requires LineLocal(find) && lines != [] && LineList(lines + ([m.text] + rest)) && NoMarkerLine(find, lines)
    requires OneLine(m.text) && Last(m.text) == '\n' && find(m.text + Concat(rest)) == Some(m)
    ensures Scan(find, Concat(lines + ([m.text] + rest)), bol)
            == RawPieces(Concat(lines))
               + ((if EndsLf(lines) then [Mark(m)] else RawPieces(m.text)) + Scan(find, Concat(rest), true))
  {
    var line := m.text;
    LineListParts(lines, [line] + rest);
    LineListParts([line], rest);
    ScanCopiesLines(find, lines, [line] + rest, bol);
    assert ([line] + rest)[1..] == rest;
    if rest != [] {
      assert Concat(rest)[0] == rest[0][0];
    }
    if EndsLf(lines) {
      ScanFindsMarker(find, m, Concat(rest));
    } else {
      ScanCopiesLine(find, line, Concat(rest), false);
    }
  }

  lemma SplicedMarker(m: Marker, retrieve: string -> Option<string>)
    ensures Spliced([Mark(m)], retrieve) == Restored(Mark(m), retrieve)
    ensures Dead([Mark(m)], retrieve) == if retrieve(m.handle).None? then [m] else []
  {
    Cons(Mark(m), []);
    Nil(Restored(Mark(m), retrieve));
  }

  /** What restoring makes of a kept part, its marker and what follows. */
  lemma RestorePieces(kept: string, tail: string, m: Marker, seen: bool, more: seq<Piece>,
                      retrieve: string -> Option<string>)
    requires retrieve(m.handle) == None || retrieve(m.handle) == Some(tail)
    ensures var pieces := RawPieces(kept) + ((if seen then [Mark(m)] else RawPieces(m.text)) + more);
            var lost := !seen || retrieve(m.handle).None?;
            && Spliced(pieces, retrieve) == kept + (if lost then m.text else tail) + Spliced(more, retrieve)
            && Dead(pieces, retrieve) == (if seen && lost then [m] else []) + Dead(more, retrieve)
  {
    var mid := if seen then [Mark(m)] else RawPieces(m.text);
    SplicedAppend(RawPieces(kept), mid + more, retrieve);
    SplicedAppend(mid, more, retrieve);
    SplicedRaw(kept, retrieve);
    SplicedRaw(m.text, retrieve);
    if seen {
      SplicedMarker(m, retrieve);
    }
    Assoc(kept, Spliced(mid, retrieve), Spliced(more, retrieve));
    Nil(Dead(mid + more, retrieve));
  }

  /** The pattern reads back the marker of every cut, whatever follows it. */
  ghost predicate ReadsMarkers(find: string -> Option<Marker>, rule: Rule) {
    forall rows: seq<Row>, rest: string :: CutAt(rows, rule.named).Some? ==>
      find(MarkerLine(rows, rule) + rest) == Some(MarkerOf(rows, rule))
  }

  /** The scan of a cut block's lines. */
  lemma ScanCutBlock(find: Finder, rows: seq<Row>, rest: seq<string>, bol: bool, rule: Rule, read: RowReader)
    requires LineLocal(find) && ReadsMarkers(find, rule)
    requires GoodHandles(rule) && RowsOk(rows, read) && CutAt(rows, rule.named).Some?
    requires NoMarkerLine(find, RowLines(rows)) && LineList(PageLines(TrimBlock(rows, rule)) + rest)
    ensures var kept := Concat(RowLines(rows[..CutAt(rows, rule.named).value]));
            var m := MarkerOf(rows, rule);
            Scan(find, Concat(PageLines(TrimBlock(rows, rule)) + rest), bol)
            == RawPieces(kept) + ((if Seen(rows, rule) then [Mark(m)] else RawPieces(m.text))
                                  + Scan(find, Concat(rest), true))
  {
    CutLines(rows, rule, read);
    MarkerLineShape(rows, rule);
    var lines, m := RowLines(rows[..CutAt(rows, rule.named).value]), MarkerOf(rows, rule);
    assert forall i :: 0 <= i < |lines| ==> lines[i] == RowLines(rows)[i];
    Assoc(lines, [m.text], rest);
    ScanThenMarker(find, lines, m, rest, bol);
  }

  lemma TextAfterLines(a: seq<string>, b: seq<string>, c: seq<string>)
    ensures Concat((a + b) + c) == Concat(a) + Concat(b) + Concat(c)
  {
    ConcatAppend(a + b, c);
    ConcatAppend(a, b);
  }

  lemma TextOfLine(line: string)
    ensures Concat([line]) == line
  {
    assert Concat([line]) == line + Concat([line][1..]);
  }

  lemma TrimmedBlockText(rows: seq<Row>, out: seq<Segment>, rule: Rule, read: RowReader)
    requires GoodHandles(rule) && RowsOk(rows, read) && CutAt(rows, rule.named).Some?
    ensures PageText(TrimBlock(rows, rule) + out)
            == Concat(RowLines(rows[..CutAt(rows, rule.named).value])) + MarkerLine(rows, rule) + PageText(out)
  {
    CutLines(rows, rule, read);
    PageLinesAppend(TrimBlock(rows, rule), out);
    TextAfterLines(RowLines(rows[..CutAt(rows, rule.named).value]), [MarkerLine(rows, rule)], PageLines(out));
    TextOfLine(MarkerLine(rows, rule));
  }

  lemma WholeBlockText(rows: seq<Row>, out: seq<Segment>, rule: Rule, read: RowReader)
    requires GoodHandles(rule) && RowsOk(rows, read) && CutAt(rows, rule.named).Some?
    ensures PageText([Block(rows)] + out)
            == Concat(RowLines(rows[..CutAt(rows, rule.named).value])) + Tail(rows, rule) + PageText(out)
  {
    var k := CutAt(rows, rule.named).value;
    CutLines(rows, rule, read);
    assert ([Block(rows)] + out)[1..] == out;
    TextAfterLines(RowLines(rows[..k]), RowLines(rows[k..]), PageLines(out));
  }

  /** The text of a block after restoring: kept rows, then the tail or the marker that stayed. */
  lemma RestoredBlockText(rows: seq<Row>, lost: bool, out: seq<Segment>, rule: Rule, read: RowReader)
    requires GoodHandles(rule) && RowsOk(rows, read) && CutAt(rows, rule.named).Some?
    ensures var kept := Concat(RowLines(rows[..CutAt(rows, rule.named).value]));
            PageText((if lost then TrimBlock(rows, rule) else [Block(rows)]) + out)
            == kept + (if lost then MarkerLine(rows, rule) else Tail(rows, rule)) + PageText(out)
  {
    if lost {
      TrimmedBlockText(rows, out, rule, read);
    } else {
      WholeBlockText(rows, out, rule, read);
    }
  }

  lemma RestoreCutStep(find: Finder, rows: seq<Row>, served: seq<Segment>, left: seq<Segment>, bol: bool, rule: Rule,
                       retrieve: string -> Option<string>, read: RowReader)
    requires LineLocal(find) && ReadsMarkers(find, rule)
    requires GoodHandles(rule) && RowsOk(rows, read) && Made(rule)(rows) && Answers(rows, rule, retrieve)
    requires NoMarkerLine(find, RowLines(rows)) && LineList(PageLines(TrimBlock(rows, rule) + served))
    requires Spliced(Scan(find, PageText(served), true), retrieve) == PageText(left)
    ensures var pieces := Scan(find, PageText(TrimBlock(rows, rule) + served), bol);
            var lost := Lost(rule, retrieve)(rows);
            && Spliced(pieces, retrieve) == PageText((if lost then TrimBlock(rows, rule) else [Block(rows)]) + left)
            && Dead(pieces, retrieve) == (if Seen(rows, rule) && lost then [MarkerOf(rows, rule)] else [])
                                         + Dead(Scan(find, PageText(served), true), retrieve)
  {
    PageLinesAppend(TrimBlock(rows, rule), served);
    ScanCutBlock(find, rows, PageLines(served), bol, rule, read);
    var kept := Concat(RowLines(rows[..CutAt(rows, rule.named).value]));
    RestorePieces(kept, Tail(rows, rule), MarkerOf(rows, rule), Seen(rows, rule), Scan(find, PageText(served), true),
                  retrieve);
    RestoredBlockText(rows, Lost(rule, retrieve)(rows), left, rule, read);
  }

  lemma RestoreKeptStep(find: Finder, seg: Segment, served: seq<Segment>, left: seq<Segment>, bol: bool,
                        retrieve: string -> Option<string>)
    requires LineLocal(find) && SegmentLines(seg) != []
    requires NoMarkerLine(find, SegmentLines(seg)) && LineList(PageLines([seg] + served))
    requires Spliced(Scan(find, PageText(served), EndsLf(SegmentLines(seg))), retrieve) == PageText(left)
    ensures var pieces := Scan(find, PageText([seg] + served), bol);
            && Spliced(pieces, retrieve) == PageText([seg] + left)
            && Dead(pieces, retrieve) == Dead(Scan(find, PageText(served), EndsLf(SegmentLines(seg))), retrieve)
  {
    var here := SegmentLines(seg);
    assert ([seg] + served)[1..] == served && ([seg] + left)[1..] == left;
    ScanCopiesLines(find, here, PageLines(served), bol);
    SplicedAppend(RawPieces(Concat(here)), Scan(find, PageText(served), EndsLf(here)), retrieve);
    SplicedRaw(Concat(here), retrieve);
    ConcatAppend(here, PageLines(left));
  }

  /** What a page of segments says about its first segment and about the rest. */
  lemma FirstAndRest(find: Finder, segments: seq<Segment>, afterBlock: bool, rule: Rule,
                     retrieve: string -> Option<string>, read: RowReader)
    requires segments != [] && Canonical(segments, afterBlock, read) && LineList(PageLines(segments))
    requires NoMarkerLine(find, PageLines(segments)) && StoreAnswers(segments, rule, retrieve)
    ensures SegmentLines(segments[0]) != [] && NoMarkerLine(find, SegmentLines(segments[0]))
    ensures LineList(PageLines(segments[1..])) && NoMarkerLine(find, PageLines(segments[1..]))
    ensures StoreAnswers(segments[1..], rule, retrieve)
  {
    var here, more := SegmentLines(segments[0]), PageLines(segments[1..]);
    LineListParts(here, more);
    NoMarkerParts(find, here, more);
    StoreAnswersRest(segments, rule, retrieve);
  }

  lemma NoMarkerParts(find: Finder, a: seq<string>, b: seq<string>)
    requires NoMarkerLine(find, a + b)
    ensures NoMarkerLine(find, a) && NoMarkerLine(find, b)
  {
    assert forall i :: 0 <= i < |a| ==> a[i] == (a + b)[i];
    assert forall i :: 0 <= i < |b| ==> b[i] == (a + b)[|a| + i];
  }

  lemma StoreAnswersRest(segments: seq<Segment>, rule: Rule, retrieve: string -> Option<string>)
    requires segments != [] && StoreAnswers(segments, rule, retrieve)
    ensures StoreAnswers(segments[1..], rule, retrieve)
  {
    assert forall i :: 0 <= i < |segments[1..]| ==> segments[1..][i] == segments[i + 1];
  }

  /** Restoring a served page undoes every cut it can see and the store still answers, and reports
      every cut it can see and the store does not. */
  lemma {:induction false} RestoreTrimmed(find: Finder, segments: seq<Segment>, afterBlock: bool, bol: bool, rule: Rule,
                                          retrieve: string -> Option<string>, read: RowReader)
    requires LineLocal(find) && ReadsMarkers(find, rule)
    requires GoodHandles(rule) && Canonical(segments, afterBlock, read) && LineList(PageLines(segments))
    requires NoMarkerLine(find, PageLines(segments)) && StoreAnswers(segments, rule, retrieve)
    ensures var pieces := Scan(find, PageText(TrimWhere(segments, rule, Made(rule))), bol);
            && Spliced(pieces, retrieve) == PageText(TrimWhere(segments, rule, Lost(rule, retrieve)))
            && Dead(pieces, retrieve) == DeadMarkers(segments, rule, retrieve)
    decreases |segments|
  {
    if segments != [] {
      var seg, rest := segments[0], segments[1..];
      FirstAndRest(find, segments, afterBlock, rule, retrieve, read);
      var served, left := TrimWhere(rest, rule, Made(rule)), TrimWhere(rest, rule, Lost(rule, retrieve));
      TrimmedLineList(segments, afterBlock, rule, Made(rule), read);
      if IsCut(seg, rule, Made(rule)) {
        RestoreTrimmed(find, rest, true, true, rule, retrieve, read);
        RestoreCutStep(find, seg.rows, served, left, bol, rule, retrieve, read);
      } else {
        RestoreTrimmed(find, rest, seg.Block?, EndsLf(SegmentLines(seg)), rule, retrieve, read);
        RestoreKeptStep(find, seg, served, left, bol, retrieve);
      }
    }
  }

  // ---- accounting ----

  /** Bytes the selected cuts save. */
  function GoneSaved(segments: seq<Segment>, rule: Rule, gone: seq<Row> -> bool): (n: nat) {
    if segments == [] then 0
    else (if IsCut(segments[0], rule, gone) then Saved(segments[0].rows, rule.named) else 0)
         + GoneSaved(segments[1..], rule, gone)
  }

  /** Rows the selected cuts hide. */
  function GoneRows(segments: seq<Segment>, rule: Rule, gone: seq<Row> -> bool): (n: nat) {
    if segments == [] then 0
    else (if IsCut(segments[0], rule, gone) then CutRows(segments[0].rows, rule.named) else 0)
         + GoneRows(segments[1..], rule, gone)
  }

  lemma {:induction false} BytesAreSize(rows: seq<Row>)
    ensures Bytes(rows) == Utf8.Size(Concat(RowLines(rows)))
  {
    if rows != [] {
      BytesAreSize(rows[1..]);
      ConcatAppend(rows[0].lines, RowLines(rows[1..]));
      Utf8.EncodeAppend(rows[0].Body(), Concat(RowLines(rows[1..])));
    }
  }

  /** The marker of a cut is exactly `saved` bytes shorter than its tail. */
  lemma MarkerPrice(rows: seq<Row>, rule: Rule)
    requires GoodHandles(rule) && CutAt(rows, rule.named).Some?
    ensures MarkerSaved(MarkerOf(rows, rule)) == Saved(rows, rule.named)
    ensures Utf8.Size(MarkerLine(rows, rule)) + Saved(rows, rule.named) == Utf8.Size(Tail(rows, rule))
  {
    var cut := rows[CutAt(rows, rule.named).value..];
    BytesAreSize(cut);
    MarkersAgree(cut, Best(rows), HandleOf(rows, rule));
  }

  lemma SizeOfThree(a: string, b: string, c: string)
    ensures Utf8.Size(a + b + c) == Utf8.Size(a) + Utf8.Size(b) + Utf8.Size(c)
  {
    Utf8.EncodeAppend(a + b, c);
    Utf8.EncodeAppend(a, b);
  }

  lemma TrimmedBlockSize(rows: seq<Row>, out: seq<Segment>, was: seq<Segment>, rule: Rule, read: RowReader)
    requires GoodHandles(rule) && RowsOk(rows, read) && CutAt(rows, rule.named).Some?
    ensures Utf8.Size(PageText(TrimBlock(rows, rule) + out)) + Saved(rows, rule.named) - Utf8.Size(PageText(out))
            == Utf8.Size(PageText([Block(rows)] + was)) - Utf8.Size(PageText(was))
  {
    var kept := Concat(RowLines(rows[..CutAt(rows, rule.named).value]));
    TrimmedBlockText(rows, out, rule, read);
    WholeBlockText(rows, was, rule, read);
    SizeOfThree(kept, MarkerLine(rows, rule), PageText(out));
    SizeOfThree(kept, Tail(rows, rule), PageText(was));
    MarkerPrice(rows, rule);
  }

  lemma SegmentSize(seg: Segment, out: seq<Segment>)
    ensures Utf8.Size(PageText([seg] + out)) == Utf8.Size(Concat(SegmentLines(seg))) + Utf8.Size(PageText(out))
  {
    assert ([seg] + out)[1..] == out;
    ConcatAppend(SegmentLines(seg), PageLines(out));
    Utf8.EncodeAppend(Concat(SegmentLines(seg)), PageText(out));
  }

  /** Trimming shrinks the page by exactly what the cuts save. */
  lemma {:induction false} TrimmedSize(segments: seq<Segment>, afterBlock: bool, rule: Rule, gone: seq<Row> -> bool,
                                       read: RowReader)
    requires GoodHandles(rule) && Canonical(segments, afterBlock, read)
    ensures Utf8.Size(PageText(TrimWhere(segments, rule, gone))) + GoneSaved(segments, rule, gone)
            == Utf8.Size(PageText(segments))
    decreases |segments|
  {
    if segments != [] {
      var seg, rest := segments[0], segments[1..];
      assert segments == [seg] + rest;
      TrimmedSize(rest, seg.Block?, rule, gone, read);
      var out := TrimWhere(rest, rule, gone);
      if IsCut(seg, rule, gone) {
        TrimmedBlockSize(seg.rows, out, rest, rule, read);
      } else {
        SegmentSize(seg, out);
        SegmentSize(seg, rest);
      }
    }
  }

  lemma FirstBlockTotals(rows: seq<Row>, blocks: seq<seq<Row>>, named: string -> bool)
    ensures BlocksSaved([rows] + blocks, named) == Saved(rows, named) + BlocksSaved(blocks, named)
    ensures BlocksCut([rows] + blocks, named) == CutRows(rows, named) + BlocksCut(blocks, named)
  {
    assert ([rows] + blocks)[1..] == blocks;
  }

  /** What a second pass over a trimmed page still cuts is what the first pass left. */
  lemma {:induction false} TrimmedBlocks(segments: seq<Segment>, rule: Rule, gone: seq<Row> -> bool)
    ensures var was, now := Blocks(segments), Blocks(TrimWhere(segments, rule, gone));
            && BlocksSaved(now, rule.named) + GoneSaved(segments, rule, gone) == BlocksSaved(was, rule.named)
            && BlocksCut(now, rule.named) + GoneRows(segments, rule, gone) == BlocksCut(was, rule.named)
    decreases |segments|
  {
    if segments != [] {
      var seg, rest := segments[0], segments[1..];
      var out := TrimWhere(rest, rule, gone);
      TrimmedBlocks(rest, rule, gone);
      if IsCut(seg, rule, gone) {
        NoSecondCut(seg.rows, rule.named);
        var two := TrimBlock(seg.rows, rule);
        BlocksAppend(two, out);
        assert two[1..][1..] == [];
        assert Blocks(two[1..]) == [] + Blocks([]);
        var kept := seg.rows[..CutAt(seg.rows, rule.named).value];
        assert Blocks(two) == [kept];
        FirstBlockTotals(kept, Blocks(out), rule.named);
        FirstBlockTotals(seg.rows, Blocks(rest), rule.named);
      } else {
        assert ([seg] + out)[1..] == out;
        if seg.Block? {
          FirstBlockTotals(seg.rows, Blocks(out), rule.named);
          FirstBlockTotals(seg.rows, Blocks(rest), rule.named);
        } else {
          assert [] + Blocks(rest) == Blocks(rest) && [] + Blocks(out) == Blocks(out);
          assert Blocks(segments) == Blocks(rest) && Blocks([seg] + out) == Blocks(out);
        }
      }
    }
  }

  function Unseen(rule: Rule): (gone: seq<Row> -> bool) {
    rows => Made(rule)(rows) && !Seen(rows, rule)
  }

  /** Bytes and rows one segment contributes when its cut is selected. */
  function SavedHere(seg: Segment, rule: Rule, gone: seq<Row> -> bool): nat {
    if IsCut(seg, rule, gone) then Saved(seg.rows, rule.named) else 0
  }

  function RowsHere(seg: Segment, rule: Rule, gone: seq<Row> -> bool): nat {
    if IsCut(seg, rule, gone) then CutRows(seg.rows, rule.named) else 0
  }

  lemma GoneFirst(segments: seq<Segment>, rule: Rule, gone: seq<Row> -> bool)
    requires segments != []
    ensures GoneSaved(segments, rule, gone) == SavedHere(segments[0], rule, gone) + GoneSaved(segments[1..], rule, gone)
    ensures GoneRows(segments, rule, gone) == RowsHere(segments[0], rule, gone) + GoneRows(segments[1..], rule, gone)
  {
  }

  /** One segment: a lost cut is either not seen, or its marker is dead and proves its size. */
  lemma DeadHereAccount(seg: Segment, rule: Rule, retrieve: string -> Option<string>)
    requires GoodHandles(rule)
    ensures DeadSaved(DeadHere(seg, rule, retrieve)) + SavedHere(seg, rule, Unseen(rule))
            == SavedHere(seg, rule, Lost(rule, retrieve))
    ensures DeadRows(DeadHere(seg, rule, retrieve)) + RowsHere(seg, rule, Unseen(rule))
            == RowsHere(seg, rule, Lost(rule, retrieve))
  {
    if DeadHere(seg, rule, retrieve) != [] {
      var m := MarkerOf(seg.rows, rule);
      MarkerPrice(seg.rows, rule);
      assert [m][1..] == [];
      assert DeadSaved([m]) == MarkerSaved(m) + DeadSaved([]);
      assert DeadRows([m]) == m.count + DeadRows([]);
    }
  }

  lemma {:induction false} DeadAppend(a: seq<Marker>, b: seq<Marker>)
    ensures DeadSaved(a + b) == DeadSaved(a) + DeadSaved(b) && DeadRows(a + b) == DeadRows(a) + DeadRows(b)
  {
    if a == [] {
      assert a + b == b;
    } else {
      assert (a + b)[1..] == a[1..] + b;
      DeadAppend(a[1..], b);
    }
  }

  /** The dead markers account for every lost cut a replay can see. */
  lemma {:induction false} DeadAccount(segments: seq<Segment>, rule: Rule, retrieve: string -> Option<string>)
    requires GoodHandles(rule)
    ensures var dead := DeadMarkers(segments, rule, retrieve);
            && DeadSaved(dead) + GoneSaved(segments, rule, Unseen(rule))
               == GoneSaved(segments, rule, Lost(rule, retrieve))
            && DeadRows(dead) + GoneRows(segments, rule, Unseen(rule)) == GoneRows(segments, rule, Lost(rule, retrieve))
    decreases |segments|
  {
    if segments != [] {
      var rest := segments[1..];
      DeadAccount(rest, rule, retrieve);
      GoneFirst(segments, rule, Unseen(rule));
      GoneFirst(segments, rule, Lost(rule, retrieve));
      DeadAppend(DeadHere(segments[0], rule, retrieve), DeadMarkers(rest, rule, retrieve));
      DeadHereAccount(segments[0], rule, retrieve);
    }
  }

  // ---- main results, for a whole page ----

  /** No physical line of the page opens with a marker already. */
  ghost predicate Untouched(page: string) {
    NoMarkerLine(MatchMarker, SplitLines(page))
  }

  lemma SegmentsAreExact(page: string)
    ensures var segments := Segments(page);
            && PageText(segments) == page && PageLines(segments) == SplitLines(page)
            && LineList(PageLines(segments)) && Canonical(segments, false, Reader(Anchored(page)))
  {
    SplitLinesExact(page);
    ParseIsExact(SplitLines(page), [], Reader(Anchored(page)));
    assert RowLines([]) + SplitLines(page) == SplitLines(page);
  }

  /** A page with a selection of its cuts made reads back as that selection. */
  lemma TrimmedPageReadsBack(page: string, rule: Rule, gone: seq<Row> -> bool)
    requires GoodHandles(rule) && HeadingSafe(HEADING, Segments(page), rule, gone)
    ensures var out := TrimWhere(Segments(page), rule, gone);
            Segments(PageText(out)) == out
  {
    var segments, read := Segments(page), Reader(Anchored(page));
    var out := TrimWhere(segments, rule, gone);
    SegmentsAreExact(page);
    TrimmedLineList(segments, false, rule, gone, read);
    TrimmedIsCanonical(segments, false, rule, gone, read);
    HeadingIsOneLine();
    AnchorsSurvive(HEADING, segments, false, false, rule, gone, read);
    AnchoredIsByLine(PageLines(segments));
    AnchoredIsByLine(PageLines(out));
    SplitConcat(PageLines(out));
    ParseOfCanonical(out, [], read);
    assert Closed([]) + out == out;
  }

  lemma PatternReadsMarkers(rule: Rule)
    requires GoodHandles(rule)
    ensures ReadsMarkers(MatchMarker, rule)
  {
    forall rows: seq<Row>, rest: string | CutAt(rows, rule.named).Some?
      ensures MatchMarker(MarkerLine(rows, rule) + rest) == Some(MarkerOf(rows, rule))
    {
      MarkerOfReadsBack(rows, rule, rest);
    }
  }

  /** The pattern makes of the served page the page with the lost cuts still made, and the dead markers. */
  ghost predicate Restores(find: Finder, page: string, rule: Rule, retrieve: string -> Option<string>) {
    var pieces := Scan(find, TrimPage(page, rule), true);
    && Spliced(pieces, retrieve) == PageText(TrimWhere(Segments(page), rule, Lost(rule, retrieve)))
    && Dead(pieces, retrieve) == DeadMarkers(Segments(page), rule, retrieve)
  }

  /** What `untrimmed` makes of a served page. */
  lemma RestoredPage(page: string, rule: Rule, retrieve: string -> Option<string>)
    requires GoodHandles(rule) && Untouched(page) && StoreAnswers(Segments(page), rule, retrieve)
    ensures Restores(MatchMarker, page, rule, retrieve)
  {
    MarkersAreLineLocal();
    PatternReadsMarkers(rule);
    RestoredBy(MatchMarker, page, rule, retrieve);
  }

  lemma RestoredBy(find: Finder, page: string, rule: Rule, retrieve: string -> Option<string>)
    requires LineLocal(find) && ReadsMarkers(find, rule) && NoMarkerLine(find, SplitLines(page))
    requires GoodHandles(rule) && StoreAnswers(Segments(page), rule, retrieve)
    ensures Restores(find, page, rule, retrieve)
  {
    SegmentsAreExact(page);
    RestoreTrimmed(find, Segments(page), false, true, rule, retrieve, Reader(Anchored(page)));
  }

  /** The totals of a page with every cut still in place, less the cuts no replay can see. */
  function Expected(segments: seq<Segment>, rule: Rule): (t: Totals)
    requires GoneRows(segments, rule, Unseen(rule)) <= BlocksCut(Blocks(segments), rule.named)
  {
    var unseen := GoneSaved(segments, rule, Unseen(rule));
    Totals(Utf8.Size(PageText(segments)) - unseen, BlocksSaved(Blocks(segments), rule.named) - unseen,
           BlocksCut(Blocks(segments), rule.named) - GoneRows(segments, rule, Unseen(rule)))
  }

  /** The totals of a page whose lost cuts are accounted for by their markers. */
  function Accounted(left: seq<Segment>, dead: seq<Marker>, named: string -> bool): (t: Totals) {
    Totals(Utf8.Size(PageText(left)) + DeadSaved(dead), DeadSaved(dead) + BlocksSaved(Blocks(left), named),
           DeadRows(dead) + BlocksCut(Blocks(left), named))
  }

  lemma LostTotals(segments: seq<Segment>, rule: Rule, retrieve: string -> Option<string>, read: RowReader)
    requires GoodHandles(rule) && Canonical(segments, false, read)
    ensures GoneRows(segments, rule, Unseen(rule)) <= BlocksCut(Blocks(segments), rule.named)
    ensures Accounted(TrimWhere(segments, rule, Lost(rule, retrieve)), DeadMarkers(segments, rule, retrieve),
                      rule.named)
            == Expected(segments, rule)
  {
    DeadAccount(segments, rule, retrieve);
    LeftTotals(segments, rule, Lost(rule, retrieve), Unseen(rule), DeadMarkers(segments, rule, retrieve), read);
  }

  lemma LeftTotals(segments: seq<Segment>, rule: Rule, gone: seq<Row> -> bool, unseen: seq<Row> -> bool,
                   dead: seq<Marker>, read: RowReader)
    requires GoodHandles(rule) && Canonical(segments, false, read)
    requires DeadSaved(dead) + GoneSaved(segments, rule, unseen) == GoneSaved(segments, rule, gone)
    requires DeadRows(dead) + GoneRows(segments, rule, unseen) == GoneRows(segments, rule, gone)
    ensures var left := TrimWhere(segments, rule, gone);
            && GoneRows(segments, rule, unseen) <= BlocksCut(Blocks(segments), rule.named)
            && Utf8.Size(PageText(left)) + DeadSaved(dead)
               == Utf8.Size(PageText(segments)) - GoneSaved(segments, rule, unseen)
            && DeadSaved(dead) + BlocksSaved(Blocks(left), rule.named)
               == BlocksSaved(Blocks(segments), rule.named) - GoneSaved(segments, rule, unseen)
            && DeadRows(dead) + BlocksCut(Blocks(left), rule.named)
               == BlocksCut(Blocks(segments), rule.named) - GoneRows(segments, rule, unseen)
  {
    TrimmedSize(segments, false, rule, gone, read);
    TrimmedBlocks(segments, rule, gone);
  }

  lemma RecordedReadsBack(segments: seq<Segment>, dead: seq<Marker>, named: string -> bool)
    requires Segments(PageText(segments)) == segments
    ensures Recorded(PageText(segments), dead, named) == Accounted(segments, dead, named)
  {
  }

  // ---- the heading after trimming ----

  lemma {:induction false} AnchoredSuffix(h: string, a: seq<string>, b: seq<string>, prev: bool)
    requires AnchoredLines(h, b, false) || (AnchoredLines(h, b, true) && EndsLf(a))
    ensures AnchoredLines(h, a + b, prev)
  {
    if a == [] {
      Nil(b);
    } else {
      TailOfAppend(a, b);
      if |a| == 1 {
        Nil(b);
      } else {
        AnchoredSuffix(h, a[1..], b, EndsLf([a[0]]));
      }
    }
  }

  lemma HeadingHere(h: string, rows: seq<Row>, rest: seq<Segment>, prev: bool, rule: Rule, gone: seq<Row> -> bool,
                    read: RowReader)
    requires GoodHandles(rule) && RowsOk(rows, read) && CutAt(rows, rule.named).Some?
    requires rest != [] && rest[0] == Other(h)
    ensures AnchoredLines(h, PageLines(TrimBlock(rows, rule) + TrimWhere(rest, rule, gone)), prev)
  {
    var out := TrimWhere(rest, rule, gone);
    PageLinesAppend(TrimBlock(rows, rule), out);
    CutLines(rows, rule, read);
    MarkerLineShape(rows, rule);
    Cons(Other(h), TrimWhere(rest[1..], rule, gone));
    assert PageLines(out)[0] == h;
    AnchoredSuffix(h, PageLines(TrimBlock(rows, rule)), PageLines(out), prev);
  }

  lemma {:induction false} HeadingSurfaces(h: string, segments: seq<Segment>, afterBlock: bool, prev: bool, rule: Rule,
                                           gone: seq<Row> -> bool, read: RowReader, i: nat)
    requires GoodHandles(rule) && Canonical(segments, afterBlock, read)
    requires i + 1 < |segments| && IsCut(segments[i], rule, gone) && segments[i + 1] == Other(h)
    ensures AnchoredLines(h, PageLines(TrimWhere(segments, rule, gone)), prev)
    decreases |segments|
  {
    var seg, rest := segments[0], segments[1..];
    if i == 0 {
      HeadingHere(h, seg.rows, rest, prev, rule, gone, read);
    } else {
      HeadingSurfaces(h, rest, seg.Block?, false, rule, gone, read, i - 1);
      var here, out := TrimHere(seg, rule, gone), TrimWhere(rest, rule, gone);
      PageLinesAppend(here, out);
      AnchoredSuffix(h, PageLines(here), PageLines(out), prev);
    }
  }

  /** Making a selection of cuts changes whether the page reports lexical anchors exactly when one of
      them lacks a final line feed and stands right before the heading: then the page reports anchors
      the original did not. */
  lemma TrimmedAnchorsIff(page: string, rule: Rule, gone: seq<Row> -> bool)
    requires GoodHandles(rule)
    ensures Anchored(PageText(TrimWhere(Segments(page), rule, gone))) <==>
            Anchored(page) || !HeadingSafe(HEADING, Segments(page), rule, gone)
  {
    var segments, read := Segments(page), Reader(Anchored(page));
    SegmentsAreExact(page);
    TrimmedLineList(segments, false, rule, gone, read);
    AnchoredIsByLine(PageLines(segments));
    AnchoredIsByLine(PageLines(TrimWhere(segments, rule, gone)));
    if HeadingSafe(HEADING, segments, rule, gone) {
      HeadingIsOneLine();
      AnchorsSurvive(HEADING, segments, false, false, rule, gone, read);
    } else {
      var i :| 0 <= i < |segments| - 1 && IsCut(segments[i], rule, gone) && segments[i + 1] == Other(HEADING);
      HeadingSurfaces(HEADING, segments, false, false, rule, gone, read, i);
    }
  }

  /** The served page reports anchors exactly when the original did or a cut without a final line feed
      stands right before the heading. */
  lemma ServedAnchorsIff(page: string, rule: Rule)
    requires GoodHandles(rule)
    ensures Anchored(TrimPage(page, rule)) <==>
            Anchored(page) || !HeadingSafe(HEADING, Segments(page), rule, Made(rule))
  {
    TrimmedAnchorsIff(page, rule, Made(rule));
  }

  lemma ProtectedIsNotCut(rows: seq<Row>, named: string -> bool)
    requires rows != [] ==> rows[|rows| - 1].isProtected
    ensures CutAt(rows, named).None?
  {
  }

  /** On a page that reports lexical anchors every row is protected. */
  lemma {:induction false} AnchoredCutsNothing(segments: seq<Segment>, afterBlock: bool, rule: Rule,
                                               gone: seq<Row> -> bool)
    requires Canonical(segments, afterBlock, Reader(true))
    ensures TrimWhere(segments, rule, gone) == segments
    ensures BlocksSaved(Blocks(segments), rule.named) == 0 && BlocksCut(Blocks(segments), rule.named) == 0
    decreases |segments|
  {
    if segments != [] {
      var seg, rest := segments[0], segments[1..];
      AnchoredCutsNothing(rest, seg.Block?, rule, gone);
      Uncons(segments);
      if seg.Block? {
        assert RowOk(seg.rows[|seg.rows| - 1], Reader(true));
        ProtectedIsNotCut(seg.rows, rule.named);
        FirstBlockTotals(seg.rows, Blocks(rest), rule.named);
      } else {
        Nil(Blocks(rest));
      }
    }
  }

  /** Every cut of the page is selected. */
  ghost predicate AllGone(segments: seq<Segment>, rule: Rule, gone: seq<Row> -> bool) {
    forall i :: 0 <= i < |segments| && segments[i].Block? && CutAt(segments[i].rows, rule.named).Some? ==>
        gone(segments[i].rows)
  }

  /** A page with these cuts made can still be measured: no heading surfaces, or no cut is left that
      the heading would protect. */
  ghost predicate StillMeasurable(page: string, rule: Rule, gone: seq<Row> -> bool) {
    HeadingSafe(HEADING, Segments(page), rule, gone) || AllGone(Segments(page), rule, gone)
  }

  /** A cut always saves something, so the selected cuts save all there is exactly when they are all. */
  lemma {:induction false} AllGoneIff(segments: seq<Segment>, rule: Rule, gone: seq<Row> -> bool)
    ensures GoneSaved(segments, rule, gone) <= GoneSaved(segments, rule, Always())
    ensures GoneSaved(segments, rule, gone) == GoneSaved(segments, rule, Always()) <==> AllGone(segments, rule, gone)
    ensures AllGone(segments, rule, gone) ==> GoneRows(segments, rule, gone) == GoneRows(segments, rule, Always())
    decreases |segments|
  {
    if segments != [] {
      var rest := segments[1..];
      AllGoneIff(rest, rule, gone);
      GoneFirst(segments, rule, gone);
      GoneFirst(segments, rule, Always());
      AllGoneFirst(segments, rule, gone);
    }
  }

  lemma AllGoneFirst(segments: seq<Segment>, rule: Rule, gone: seq<Row> -> bool)
    requires segments != []
    ensures AllGone(segments, rule, gone) <==>
            AllGone(segments[1..], rule, gone)
            && SavedHere(segments[0], rule, gone) == SavedHere(segments[0], rule, Always())
    ensures SavedHere(segments[0], rule, gone) <= SavedHere(segments[0], rule, Always())
    ensures AllGone(segments, rule, gone) ==> RowsHere(segments[0], rule, gone) == RowsHere(segments[0], rule, Always())
  {
    var rest := segments[1..];
    assert forall i :: 0 <= i < |rest| ==> rest[i] == segments[i + 1];
    forall i | 0 < i < |segments| ensures segments[i] == rest[i - 1] {
    }
  }

  lemma {:induction false} EveryCutSaves(segments: seq<Segment>, rule: Rule)
    ensures GoneSaved(segments, rule, Always()) == BlocksSaved(Blocks(segments), rule.named)
    ensures GoneRows(segments, rule, Always()) == BlocksCut(Blocks(segments), rule.named)
    decreases |segments|
  {
    if segments != [] {
      var seg, rest := segments[0], segments[1..];
      EveryCutSaves(rest, rule);
      GoneFirst(segments, rule, Always());
      if seg.Block? {
        FirstBlockTotals(seg.rows, Blocks(rest), rule.named);
      } else {
        Nil(Blocks(rest));
      }
    }
  }

  /** Nothing is left to cut exactly when every cut was made. */
  lemma NothingLeftIff(segments: seq<Segment>, rule: Rule, gone: seq<Row> -> bool)
    ensures var left := Blocks(TrimWhere(segments, rule, gone));
            && (BlocksSaved(left, rule.named) == 0 <==> AllGone(segments, rule, gone))
            && (AllGone(segments, rule, gone) ==> BlocksCut(left, rule.named) == 0)
  {
    TrimmedBlocks(segments, rule, gone);
    EveryCutSaves(segments, rule);
    AllGoneIff(segments, rule, gone);
  }

  /** What is recorded for a page on which the heading has surfaced. */
  lemma SurfacedRecords(page: string, dead: seq<Marker>, rule: Rule)
    requires Anchored(page)
    ensures Recorded(page, dead, rule.named)
            == Totals(Utf8.Size(page) + DeadSaved(dead), DeadSaved(dead), DeadRows(dead))
  {
    SegmentsAreExact(page);
    AnchoredCutsNothing(Segments(page), false, rule, Always());
  }

  lemma AccountsForDeadOnlyIff(left: seq<Segment>, dead: seq<Marker>, named: string -> bool)
    ensures Totals(Utf8.Size(PageText(left)) + DeadSaved(dead), DeadSaved(dead), DeadRows(dead))
            == Accounted(left, dead, named)
            <==> BlocksSaved(Blocks(left), named) == 0 && BlocksCut(Blocks(left), named) == 0
  {
  }

  lemma SurfacedMeasuredIff(page: string, rule: Rule, gone: seq<Row> -> bool, dead: seq<Marker>)
    requires GoodHandles(rule) && !HeadingSafe(HEADING, Segments(page), rule, gone)
    ensures var left := TrimWhere(Segments(page), rule, gone);
            Recorded(PageText(left), dead, rule.named) == Accounted(left, dead, rule.named)
            <==> AllGone(Segments(page), rule, gone)
  {
    var left := TrimWhere(Segments(page), rule, gone);
    TrimmedAnchorsIff(page, rule, gone);
    SurfacedRecords(PageText(left), dead, rule);
    AccountsForDeadOnlyIff(left, dead, rule.named);
    NothingLeftIff(Segments(page), rule, gone);
  }

  /** The recorded totals of a page with some cuts made and their markers accounted for are what they
      would be with no heading in the way, if and only if the page can still be measured. */
  lemma MeasuredIff(page: string, rule: Rule, gone: seq<Row> -> bool, dead: seq<Marker>)
    requires GoodHandles(rule)
    ensures var left := TrimWhere(Segments(page), rule, gone);
            Recorded(PageText(left), dead, rule.named) == Accounted(left, dead, rule.named)
            <==> StillMeasurable(page, rule, gone)
  {
    if HeadingSafe(HEADING, Segments(page), rule, gone) {
      TrimmedPageReadsBack(page, rule, gone);
      RecordedReadsBack(TrimWhere(Segments(page), rule, gone), dead, rule.named);
    } else {
      SurfacedMeasuredIff(page, rule, gone, dead);
    }
  }

  /** Whatever query test the replay uses, it records the page with the lost cuts still made, measured by
      that test, and the dead markers' own account. */
  lemma ReplayIsRecorded(page: string, rule: Rule, retrieve: string -> Option<string>, replayed: string -> bool)
    requires GoodHandles(rule) && Untouched(page) && StoreAnswers(Segments(page), rule, retrieve)
    ensures var left := TrimWhere(Segments(page), rule, Lost(rule, retrieve));
            var dead := DeadMarkers(Segments(page), rule, retrieve);
            && ReplayOf(TrimPage(page, rule), replayed, retrieve) == Recorded(PageText(left), dead, replayed)
            && (HeadingSafe(HEADING, Segments(page), rule, Lost(rule, retrieve)) ==>
                  Recorded(PageText(left), dead, replayed) == Accounted(left, dead, replayed))
  {
    RestoredPage(page, rule, retrieve);
    if HeadingSafe(HEADING, Segments(page), rule, Lost(rule, retrieve)) {
      TrimmedPageReadsBack(page, rule, Lost(rule, retrieve));
      RecordedReadsBack(TrimWhere(Segments(page), rule, Lost(rule, retrieve)),
                        DeadMarkers(Segments(page), rule, retrieve), replayed);
    }
  }

  /** Dead-handle invariance: whatever subset of the handles the store still answers, the replay of
      a served page records the same totals, those of the page before trimming short of the cuts that
      follow no line feed, which no replay can see, if and only if the lost cuts leave the page
      measurable. The recorded bytes are the same in any case. */
  lemma ReplayIgnoresDeadHandlesIff(page: string, rule: Rule, retrieve: string -> Option<string>)
    requires GoodHandles(rule) && Untouched(page) && StoreAnswers(Segments(page), rule, retrieve)
    ensures GoneRows(Segments(page), rule, Unseen(rule)) <= BlocksCut(Blocks(Segments(page)), rule.named)
    ensures ReplayOf(TrimPage(page, rule), rule.named, retrieve) == Expected(Segments(page), rule)
            <==> StillMeasurable(page, rule, Lost(rule, retrieve))
    ensures ReplayOf(TrimPage(page, rule), rule.named, retrieve).bytes == Expected(Segments(page), rule).bytes
  {
    SegmentsAreExact(page);
    ReplayIsRecorded(page, rule, retrieve, rule.named);
    LostTotals(Segments(page), rule, retrieve, Reader(Anchored(page)));
    MeasuredIff(page, rule, Lost(rule, retrieve), DeadMarkers(Segments(page), rule, retrieve));
    RecordedBytes(TrimWhere(Segments(page), rule, Lost(rule, retrieve)), DeadMarkers(Segments(page), rule, retrieve),
                  rule.named);
  }

  lemma RecordedBytes(left: seq<Segment>, dead: seq<Marker>, named: string -> bool)
    ensures Recorded(PageText(left), dead, named).bytes == Accounted(left, dead, named).bytes
  {
  }

  // ---- consequences ----

  ghost predicate AllSeen(segments: seq<Segment>, rule: Rule) {
    forall i :: 0 <= i < |segments| && IsCut(segments[i], rule, Made(rule)) ==> Seen(segments[i].rows, rule)
  }

  /** A cut always saves something, so nothing is missed exactly when every cut is seen. */
  lemma {:induction false} NothingUnseen(segments: seq<Segment>, rule: Rule)
    ensures GoneSaved(segments, rule, Unseen(rule)) == 0 <==> AllSeen(segments, rule)
    ensures AllSeen(segments, rule) ==> GoneRows(segments, rule, Unseen(rule)) == 0
    decreases |segments|
  {
    if segments != [] {
      var rest := segments[1..];
      NothingUnseen(rest, rule);
      GoneFirst(segments, rule, Unseen(rule));
      assert forall i :: 0 <= i < |rest| ==> rest[i] == segments[i + 1];
      assert AllSeen(segments, rule) ==> AllSeen(rest, rule);
      if AllSeen(rest, rule) && SavedHere(segments[0], rule, Unseen(rule)) == 0 {
        forall i | 0 <= i < |segments| && IsCut(segments[i], rule, Made(rule)) ensures Seen(segments[i].rows, rule)
        {
          assert i > 0 ==> segments[i] == rest[i - 1];
        }
      }
    }
  }

  lemma UntouchedScan(find: Finder, page: string)
    requires LineLocal(find) && NoMarkerLine(find, SplitLines(page))
    ensures Scan(find, page, true) == RawPieces(page)
  {
    SplitLinesExact(page);
    var lines := SplitLines(page);
    assert lines + [] == lines;
    ScanCopiesLines(find, lines, [], true);
  }

  /** A page without markers is replayed as it stands. */
  lemma UntouchedReplay(page: string, named: string -> bool, retrieve: string -> Option<string>)
    requires Untouched(page)
    ensures ReplayOf(page, named, retrieve) == Recorded(page, [], named)
  {
    MarkersAreLineLocal();
    UntouchedScan(MatchMarker, page);
    SplicedRaw(page, retrieve);
  }

  lemma OriginalReplay(page: string, rule: Rule, other: string -> Option<string>)
    requires Untouched(page)
    ensures ReplayOf(page, rule.named, other)
            == Totals(Utf8.Size(page), BlocksSaved(Blocks(Segments(page)), rule.named),
                                                        BlocksCut(Blocks(Segments(page)), rule.named))
  {
    UntouchedReplay(page, rule.named, other);
    SegmentsAreExact(page);
    RecordedReadsBack(Segments(page), [], rule.named);
  }

  /** Replaying the served page records what replaying the original page records, for any store,
      if and only if every cut follows a line feed and the lost cuts leave the page measurable. */
  lemma ReplayIsExactIff(page: string, rule: Rule, retrieve: string -> Option<string>, other: string -> Option<string>)
    requires GoodHandles(rule) && Untouched(page) && StoreAnswers(Segments(page), rule, retrieve)
    ensures ReplayOf(TrimPage(page, rule), rule.named, retrieve) == ReplayOf(page, rule.named, other)
            <==> AllSeen(Segments(page), rule) && StillMeasurable(page, rule, Lost(rule, retrieve))
  {
    ReplayIgnoresDeadHandlesIff(page, rule, retrieve);
    OriginalReplay(page, rule, other);
    ExpectedIsOriginalIff(page, rule);
  }

  lemma ExpectedIsOriginalIff(page: string, rule: Rule)
    requires GoneRows(Segments(page), rule, Unseen(rule)) <= BlocksCut(Blocks(Segments(page)), rule.named)
    ensures var original := Totals(Utf8.Size(page), BlocksSaved(Blocks(Segments(page)), rule.named),
                                   BlocksCut(Blocks(Segments(page)), rule.named));
            && (Expected(Segments(page), rule) == original <==> AllSeen(Segments(page), rule))
            && (Expected(Segments(page), rule).bytes == original.bytes <==> AllSeen(Segments(page), rule))
  {
    SegmentsAreExact(page);
    NothingUnseen(Segments(page), rule);
  }

  ghost predicate AllLive(segments: seq<Segment>, rule: Rule, retrieve: string -> Option<string>) {
    forall i :: 0 <= i < |segments| && IsCut(segments[i], rule, Made(rule)) ==>
      retrieve(HandleOf(segments[i].rows, rule)) == Some(Tail(segments[i].rows, rule))
  }

  lemma {:induction false} LiveLosesOnlyUnseen(segments: seq<Segment>, rule: Rule, retrieve: string -> Option<string>)
    requires AllLive(segments, rule, retrieve)
    ensures TrimWhere(segments, rule, Lost(rule, retrieve)) == TrimWhere(segments, rule, Unseen(rule))
    decreases |segments|
  {
    if segments != [] {
      assert forall i :: 0 <= i < |segments[1..]| ==> segments[1..][i] == segments[i + 1];
      LiveLosesOnlyUnseen(segments[1..], rule, retrieve);
    }
  }

  lemma {:induction false} SeenLosesNothing(segments: seq<Segment>, rule: Rule)
    requires AllSeen(segments, rule)
    ensures TrimWhere(segments, rule, Unseen(rule)) == segments
    decreases |segments|
  {
    if segments != [] {
      assert forall i :: 0 <= i < |segments[1..]| ==> segments[1..][i] == segments[i + 1];
      SeenLosesNothing(segments[1..], rule);
    }
  }

  /** Round trip: with every tail still stored, restoring the served page gives the original page
      back if and only if every cut follows a line feed. */
  lemma RestoreUndoesTrimIff(page: string, rule: Rule, retrieve: string -> Option<string>)
    requires GoodHandles(rule) && Untouched(page) && AllLive(Segments(page), rule, retrieve)
    ensures Spliced(Scan(MatchMarker, TrimPage(page, rule), true), retrieve) == page <==> AllSeen(Segments(page), rule)
  {
    var segments := Segments(page);
    SegmentsAreExact(page);
    RestoredPage(page, rule, retrieve);
    LiveLosesOnlyUnseen(segments, rule, retrieve);
    NothingUnseen(segments, rule);
    TrimmedSize(segments, false, rule, Unseen(rule), Reader(Anchored(page)));
    if AllSeen(segments, rule) {
      SeenLosesNothing(segments, rule);
    }
  }

  /** The served page is smaller by exactly what the cuts made save, and by all a replay of the page saves
      exactly when every cut was made. */
  lemma ServedSize(page: string, rule: Rule)
    requires GoodHandles(rule)
    ensures Utf8.Size(TrimPage(page, rule)) == Utf8.Size(page) - GoneSaved(Segments(page), rule, Made(rule))
    ensures Utf8.Size(TrimPage(page, rule)) == Utf8.Size(page) - BlocksSaved(Blocks(Segments(page)), rule.named)
            <==> AllGone(Segments(page), rule, Made(rule))
  {
    SegmentsAreExact(page);
    TrimmedSize(Segments(page), false, rule, Made(rule), Reader(Anchored(page)));
    EveryCutSaves(Segments(page), rule);
    AllGoneIff(Segments(page), rule, Made(rule));
  }

  /** The rows of a page. */
  function RowCount(segments: seq<Segment>): (n: nat) {
    if segments == [] then 0 else (if segments[0].Block? then |segments[0].rows| else 0) + RowCount(segments[1..])
  }

  lemma {:induction false} RowCountAppend(a: seq<Segment>, b: seq<Segment>)
    ensures RowCount(a + b) == RowCount(a) + RowCount(b)
  {
    if a == [] {
      Nil(b);
    } else {
      RowCountAppend(a[1..], b);
      TailOfAppend(a, b);
    }
  }

  lemma RowsLeftHere(seg: Segment, rule: Rule)
    ensures RowCount(TrimHere(seg, rule, Always())) + (if seg.Block? then CutRows(seg.rows, rule.named) else 0)
            == RowCount([seg])
  {
    assert [seg][1..] == [];
    if IsCut(seg, rule, Always()) {
      var two := TrimBlock(seg.rows, rule);
      assert two[1..] == [two[1]] && two[1..][1..] == [];
    }
  }

  /** Cutting takes away exactly the rows that are counted as cut. */
  lemma {:induction false} RowsAreConserved(segments: seq<Segment>, rule: Rule)
    ensures RowCount(TrimWhere(segments, rule, Always())) + BlocksCut(Blocks(segments), rule.named)
            == RowCount(segments)
    decreases |segments|
  {
    if segments != [] {
      var seg, rest := segments[0], segments[1..];
      RowsAreConserved(rest, rule);
      RowsLeftHere(seg, rule);
      RowCountAppend(TrimHere(seg, rule, Always()), TrimWhere(rest, rule, Always()));
      RowCountAppend([seg], rest);
      Uncons(segments);
      if seg.Block? {
        FirstBlockTotals(seg.rows, Blocks(rest), rule.named);
      } else {
        Nil(Blocks(rest));
      }
    }
  }

  /** What is recorded for a page without dead markers: its size, how much smaller it is with every cut
      made, and how many rows fewer it has. */
  lemma RecordedMeasures(page: string, rule: Rule)
    requires GoodHandles(rule)
    ensures var cut := TrimWhere(Segments(page), rule, Always());
            && Recorded(page, [], rule.named).bytes == Utf8.Size(page)
            && Recorded(page, [], rule.named).saved == Utf8.Size(page) - Utf8.Size(PageText(cut))
            && Recorded(page, [], rule.named).rows == RowCount(Segments(page)) - RowCount(cut)
  {
    SegmentsAreExact(page);
    TrimmedSize(Segments(page), false, rule, Always(), Reader(Anchored(page)));
    EveryCutSaves(Segments(page), rule);
    RowsAreConserved(Segments(page), rule);
  }

  lemma RetrimTwo(two: seq<Segment>, out: seq<Segment>, rule: Rule, gone: seq<Row> -> bool)
    requires |two| == 2 && !IsCut(two[0], rule, gone) && !IsCut(two[1], rule, gone)
    ensures TrimWhere(two + out, rule, gone) == two + TrimWhere(out, rule, gone)
  {
    var trimmed := TrimWhere(out, rule, gone);
    assert two + out == [two[0]] + ([two[1]] + out);
    Cons(two[0], [two[1]] + out);
    Cons(two[1], out);
    assert two + trimmed == [two[0]] + ([two[1]] + trimmed);
  }

  lemma {:induction false} SecondTrimCutsNothing(segments: seq<Segment>, rule: Rule, gone: seq<Row> -> bool)
    ensures TrimWhere(TrimWhere(segments, rule, gone), rule, gone) == TrimWhere(segments, rule, gone)
    decreases |segments|
  {
    if segments != [] {
      var seg, out := segments[0], TrimWhere(segments[1..], rule, gone);
      SecondTrimCutsNothing(segments[1..], rule, gone);
      if IsCut(seg, rule, gone) {
        NoSecondCut(seg.rows, rule.named);
        RetrimTwo(TrimBlock(seg.rows, rule), out, rule, gone);
      } else {
        Cons(seg, out);
      }
    }
  }

  /** Trimming is idempotent, on every page: where the heading surfaces, it protects what is left. */
  lemma TrimIsIdempotent(page: string, rule: Rule)
    requires GoodHandles(rule)
    ensures TrimPage(TrimPage(page, rule), rule) == TrimPage(page, rule)
  {
    if HeadingSafe(HEADING, Segments(page), rule, Made(rule)) {
      TrimmedPageReadsBack(page, rule, Made(rule));
      SecondTrimCutsNothing(Segments(page), rule, Made(rule));
    } else {
      TrimmedAnchorsIff(page, rule, Made(rule));
      var served := TrimPage(page, rule);
      SegmentsAreExact(served);
      AnchoredCutsNothing(Segments(served), false, rule, Made(rule));
    }
  }

  // ---- the binary's page ----

  /** The page as the binary serves it: each block rendered by itself, every other line as it is. */
  function BinaryPage(segments: seq<Segment>, binary: string -> bool, rule: Rule): (page: string) {
    if segments == [] then ""
    else
      (match segments[0]
       case Block(rows) => RankedRowsMd(TailRule.Served(rows), binary, rule.handleFor, rule.stored)
       case Other(line) => line)
      + BinaryPage(segments[1..], binary, rule)
  }

  ghost predicate SameNamedPage(segments: seq<Segment>, script: string -> bool, binary: string -> bool) {
    forall i :: 0 <= i < |segments| && segments[i].Block? ==> SameNamed(segments[i].rows, script, binary)
  }

  lemma {:induction false} BodiesAreLines(rows: seq<Row>)
    ensures Bodies(rows) == Concat(RowLines(rows))
  {
    if rows != [] {
      BodiesAreLines(rows[1..]);
      ConcatAppend(rows[0].lines, RowLines(rows[1..]));
    }
  }

  lemma WholeBlockPage(rows: seq<Row>)
    ensures PageText([Block(rows)]) == Bodies(rows)
  {
    BodiesAreLines(rows);
    assert [Block(rows)][1..] == [];
    assert PageLines([Block(rows)]) == RowLines(rows) + PageLines([]);
    Nil(RowLines(rows));
  }

  lemma CutBlockPage(rows: seq<Row>, rule: Rule)
    requires CutAt(rows, rule.named).Some?
    ensures PageText(TrimBlock(rows, rule)) == ServedBlock(rows, rule.named, rule.handleFor)
    ensures Bodies(rows[CutAt(rows, rule.named).value..]) == Tail(rows, rule)
  {
    var k := CutAt(rows, rule.named).value;
    BodiesAreLines(rows[k..]);
    BodiesAreLines(rows[..k]);
    BlockText(rows[..k], MarkerLine(rows, rule));
  }

  lemma BlockIsServed(rows: seq<Row>, binary: string -> bool, rule: Rule)
    requires GoodHandles(rule) && SameNamed(rows, rule.named, binary)
    ensures RankedRowsMd(TailRule.Served(rows), binary, rule.handleFor, rule.stored)
            == PageText(TrimHere(Block(rows), rule, Made(rule)))
  {
    BinaryServesTheRule(rows, rule.named, binary, rule.handleFor, rule.stored);
    WholeBlockPage(rows);
    if CutAt(rows, rule.named).Some? {
      CutBlockPage(rows, rule);
    }
  }

  lemma BlockText(rows: seq<Row>, line: string)
    ensures PageText([Block(rows), Other(line)]) == Concat(RowLines(rows)) + line
  {
    BlockAndLine(rows, line);
    ConcatAppend(RowLines(rows), [line]);
    TextOfLine(line);
  }

  lemma {:induction false} BinaryServesSegments(segments: seq<Segment>, binary: string -> bool, rule: Rule)
    requires GoodHandles(rule) && SameNamedPage(segments, rule.named, binary)
    ensures BinaryPage(segments, binary, rule) == PageText(TrimWhere(segments, rule, Made(rule)))
    decreases |segments|
  {
    if segments != [] {
      var here, out := TrimHere(segments[0], rule, Made(rule)), TrimWhere(segments[1..], rule, Made(rule));
      assert forall i :: 0 <= i < |segments[1..]| ==> segments[1..][i] == segments[i + 1];
      BinaryServesSegments(segments[1..], binary, rule);
      PageLinesAppend(here, out);
      ConcatAppend(PageLines(here), PageLines(out));
      if segments[0].Block? {
        BlockIsServed(segments[0].rows, binary, rule);
      } else {
        assert [segments[0]][1..] == [];
        Nil([segments[0].line]);
        TextOfLine(segments[0].line);
      }
    }
  }

  /** Where the query tests agree on its names, the page the binary serves is the page of the rule, blocks
      whose tail could not be stored included. */
  lemma BinaryServesThePage(page: string, binary: string -> bool, rule: Rule)
    requires GoodHandles(rule) && SameNamedPage(Segments(page), rule.named, binary)
    ensures BinaryPage(Segments(page), binary, rule) == TrimPage(page, rule)
  {
    BinaryServesSegments(Segments(page), binary, rule);
  }
}
