/** Trimming a page, restoring what a store still answers, and the totals the replay records:
    the totals do not depend on which retrieval handles are still alive. */
module TailReplay {
  import opened Options
  import opened Text
  import opened TrimMarker
  import opened RowPattern
  import opened RankedPage
  import opened TailRule
  import Utf8

  // ---- the whole page ----

  const HEADING := "### Lexical Anchors\n"

  /** `"\n### Lexical Anchors\n" in text`: the page keeps every row. */
  predicate Anchored(text: string) {
    Find(text, "\n" + HEADING, 0).Some?
  }

  function Segments(text: string): (segments: seq<Segment>) {
    Parse(SplitLines(text), [], Reader(Anchored(text)))
  }

  function PageText(segments: seq<Segment>): (text: string) {
    Concat(PageLines(segments))
  }

  /** A rule with everything that fixes a served page: the query test, the handle of a tail, and whether
      the handle store takes the tail. */
  datatype Rule = Rule(named: string -> bool, handleFor: string -> string, stored: string -> bool)

  ghost predicate GoodHandles(rule: Rule) {
    forall s :: IsHandle(rule.handleFor(s))
  }

  /** The cut rows of a block, as stored. */
  function Tail(rows: seq<Row>, rule: Rule): (s: string)
    requires CutAt(rows, rule.named).Some?
  {
    Concat(RowLines(rows[CutAt(rows, rule.named).value..]))
  }

  function MarkerLine(rows: seq<Row>, rule: Rule): (line: string)
    requires CutAt(rows, rule.named).Some?
  {
    CutMarker(rows[CutAt(rows, rule.named).value..], Best(rows), rule.handleFor(Tail(rows, rule)))
  }

  function TrimBlock(rows: seq<Row>, rule: Rule): (segments: seq<Segment>)
    requires CutAt(rows, rule.named).Some?
  {
    [Block(rows[..CutAt(rows, rule.named).value]), Other(MarkerLine(rows, rule))]
  }

  predicate IsCut(seg: Segment, rule: Rule, gone: seq<Row> -> bool) {
    seg.Block? && CutAt(seg.rows, rule.named).Some? && gone(seg.rows)
  }

  function TrimHere(seg: Segment, rule: Rule, gone: seq<Row> -> bool): (out: seq<Segment>) {
    if IsCut(seg, rule, gone) then TrimBlock(seg.rows, rule) else [seg]
  }

  /** The page with the tail of every cut block that `gone` selects replaced by its marker. */
  function TrimWhere(segments: seq<Segment>, rule: Rule, gone: seq<Row> -> bool): (out: seq<Segment>) {
    if segments == [] then [] else TrimHere(segments[0], rule, gone) + TrimWhere(segments[1..], rule, gone)
  }

  function Always(): (gone: seq<Row> -> bool)
    ensures forall rows :: gone(rows)
  {
    rows => true
  }

  /** The cuts that are made: those whose tail was stored. */
  function Made(rule: Rule): (gone: seq<Row> -> bool) {
    rows => CutAt(rows, rule.named).Some? && rule.stored(Tail(rows, rule))
  }

  /** The page as served: a block whose tail could not be stored keeps every row. */
  function TrimPage(text: string, rule: Rule): (page: string) {
    PageText(TrimWhere(Segments(text), rule, Made(rule)))
  }

  // ---- untrimmed: restore every marker the store answers ----

  /** What replaces one piece of the page. */
  function Restored(piece: Piece, retrieve: string -> Option<string>): (text: string) {
    match piece
    case Raw(c) => [c]
    case Mark(m) => if retrieve(m.handle).Some? then retrieve(m.handle).value else m.text
  }

  function Spliced(pieces: seq<Piece>, retrieve: string -> Option<string>): (text: string) {
    if pieces == [] then "" else Restored(pieces[0], retrieve) + Spliced(pieces[1..], retrieve)
  }

  function Dead(pieces: seq<Piece>, retrieve: string -> Option<string>): (dead: seq<Marker>) {
    if pieces == [] then []
    else (if pieces[0].Mark? && retrieve(pieces[0].m.handle).None? then [pieces[0].m] else [])
         + Dead(pieces[1..], retrieve)
  }

  /** The replacement callback over the pieces of the scan, collecting the dead markers. */
  method Substitute(pieces: seq<Piece>, retrieve: string -> Option<string>) returns (page: string, dead: seq<Marker>)
    ensures page == Spliced(pieces, retrieve) && dead == Dead(pieces, retrieve)
  {
    page, dead := "", [];
    for i := 0 to |pieces|
      invariant Spliced(pieces, retrieve) == page + Spliced(pieces[i..], retrieve)
      invariant Dead(pieces, retrieve) == dead + Dead(pieces[i..], retrieve)
    {
      SliceStep(pieces, i);
      Assoc(page, Restored(pieces[i], retrieve), Spliced(pieces[i + 1..], retrieve));
      Assoc(dead, if pieces[i].Mark? then [pieces[i].m] else [], Dead(pieces[i + 1..], retrieve));
      Nil(Dead(pieces[i + 1..], retrieve));
      match pieces[i]
      case Raw(c) =>
        page := page + [c];
      case Mark(m) =>
        var tail := retrieve(m.handle);
        if tail.None? {
          dead := dead + [m];
          page := page + m.text;
        } else {
          page := page + tail.value;
        }
    }
    assert pieces[|pieces|..] == [];
    Nil(page);
    Nil(dead);
  }

  /** `untrimmed`: the spliced page and the markers the store could not answer, in page order. */
  method Untrimmed(text: string, retrieve: string -> Option<string>) returns (page: string, dead: seq<Marker>)
    ensures page == Spliced(Scan(MatchMarker, text, true), retrieve)
    ensures dead == Dead(Scan(MatchMarker, text, true), retrieve)
  {
    page, dead := Substitute(Scan(MatchMarker, text, true), retrieve);
  }

  // ---- what replay records for one page ----

  datatype Totals = Totals(bytes: int, saved: int, rows: nat)

  /** What a marker's own metadata proves about its cut. */
  function MarkerSaved(m: Marker): (saved: int) {
    m.bytes - Utf8.Size(m.text)
  }

  function DeadSaved(dead: seq<Marker>): (n: int) {
    if dead == [] then 0 else MarkerSaved(dead[0]) + DeadSaved(dead[1..])
  }

  function DeadRows(dead: seq<Marker>): (n: nat) {
    if dead == [] then 0 else dead[0].count + DeadRows(dead[1..])
  }

  function BlocksSaved(blocks: seq<seq<Row>>, named: string -> bool): (n: nat) {
    if blocks == [] then 0 else Saved(blocks[0], named) + BlocksSaved(blocks[1..], named)
  }

  function BlocksCut(blocks: seq<seq<Row>>, named: string -> bool): (n: nat) {
    if blocks == [] then 0 else CutRows(blocks[0], named) + BlocksCut(blocks[1..], named)
  }

  /** The totals of a page given as restored text and unanswered markers. */
  function Recorded(page: string, dead: seq<Marker>, named: string -> bool): (t: Totals) {
    var blocks := Blocks(Segments(page));
    Totals(Utf8.Size(page) + DeadSaved(dead),
           DeadSaved(dead) + BlocksSaved(blocks, named),
           DeadRows(dead) + BlocksCut(blocks, named))
  }

  method UnresolvedTails(dead: seq<Marker>) returns (saved: int, rows: nat)
    ensures saved == DeadSaved(dead) && rows == DeadRows(dead)
  {
    saved, rows := 0, 0;
    for i := 0 to |dead|
      invariant saved + DeadSaved(dead[i..]) == DeadSaved(dead)
      invariant rows + DeadRows(dead[i..]) == DeadRows(dead)
    {
      SliceStep(dead, i);
      saved := saved + MarkerSaved(dead[i]);
      rows := rows + dead[i].count;
    }
    assert dead[|dead|..] == [];
  }

  method CutTotals(blocks: seq<seq<Row>>, named: string -> bool) returns (saved: nat, rows: nat)
    ensures saved == BlocksSaved(blocks, named) && rows == BlocksCut(blocks, named)
  {
    saved, rows := 0, 0;
    for i := 0 to |blocks|
      invariant saved + BlocksSaved(blocks[i..], named) == BlocksSaved(blocks, named)
      invariant rows + BlocksCut(blocks[i..], named) == BlocksCut(blocks, named)
    {
      SliceStep(blocks, i);
      var start := CutAt(blocks[i], named);
      if start.Some? {
        saved := saved + SavedAt(blocks[i], start.value);
        rows := rows + (|blocks[i]| - start.value);
      }
    }
    assert blocks[|blocks|..] == [];
  }

  function ReplayOf(text: string, named: string -> bool, retrieve: string -> Option<string>): (t: Totals) {
    var pieces := Scan(MatchMarker, text, true);
    Recorded(Spliced(pieces, retrieve), Dead(pieces, retrieve), named)
  }

  /** `replay` on one served result. */
  method Replay(text: string, named: string -> bool, retrieve: string -> Option<string>) returns (t: Totals)
    ensures t == ReplayOf(text, named, retrieve)
  {
    var page, dead := Untrimmed(text, retrieve);
    var deadSaved, deadRows := UnresolvedTails(dead);
    ReaderReadsHeads(Anchored(page));
    var blocks := RankedBlocks(page, Reader(Anchored(page)));
    var saved, rows := CutTotals(blocks, named);
    t := Totals(Utf8.Size(page) + deadSaved, deadSaved + saved, deadRows + rows);
  }
}
