/** Replaying a served page with another query than the one it was served for. */
module TailRequery {
  import opened Options
  import opened Text
  import opened QueryTest
  import opened TrimMarker
  import opened RowPattern
  import opened RankedPage
  import opened TailRule
  import opened TailPrice
  import opened TailQuery
  import opened TailReplay
  import opened TailInvariance
  import opened TailTheorems
  import Utf8

  // ---- one block ----

  /** The last strong row is the same while no strong row is dropped. */
  lemma SameLastStrong(rows: seq<Row>, best: nat, q: string -> bool, k: nat)
    requires AfterLastStrong(rows, best, q) <= k <= |rows|
    ensures AfterLastStrong(rows[..k], best, q) == AfterLastStrong(rows, best, q)
  {
    var front := rows[..k];
    AfterLastStrongIsLeast(rows, best, q);
    AfterLastStrongIsLeast(front, best, q);
    var after, again := AfterLastStrong(rows, best, q), AfterLastStrong(front, best, q);
    assert after > 0 ==> front[after - 1] == rows[after - 1];
    assert again > 0 ==> front[again - 1] == rows[again - 1];
  }

  /** The kept rows of a cut, under a test that cuts no later: the same tail, if two rows of it are left. */
  lemma TailStartOfPrefix(rows: seq<Row>, q: string -> bool, k: nat)
    requires TailStart(rows, q).Some? && TailStart(rows, q).value <= k <= |rows| && Best(rows[..k]) == Best(rows)
    ensures var j := TailStart(rows, q).value;
            TailStart(rows[..k], q) == if k - j >= MIN_TRIMMED_ROWS then Some(j) else None
  {
    SameLastStrong(rows, Best(rows), q, k);
  }

  /** What a lost cut's marker and its kept rows come to, under the replay's test. */
  function LostSaved(rows: seq<Row>, served: string -> bool, q: string -> bool): (n: nat)
    requires CutAt(rows, served).Some?
  {
    Saved(rows, served) + Saved(rows[..CutAt(rows, served).value], q)
  }

  function LostRows(rows: seq<Row>, served: string -> bool, q: string -> bool): (n: nat)
    requires CutAt(rows, served).Some?
  {
    CutRows(rows, served) + CutRows(rows[..CutAt(rows, served).value], q)
  }

  lemma SameCutIsExact(rows: seq<Row>, served: string -> bool, q: string -> bool)
    requires CutAt(rows, served).Some? && CutAt(rows, q) == CutAt(rows, served)
    ensures LostSaved(rows, served, q) == Saved(rows, q) && LostRows(rows, served, q) == CutRows(rows, q)
  {
    NoSecondCut(rows, q);
  }

  function Count(n: nat, start: Option<nat>): (rows: int) {
    if start.None? then 0 else n - start.value
  }

  lemma Counts(n: nat, k: nat, whole: Option<nat>, kept: Option<nat>)
    requires k < n && whole != Some(k) && (kept.Some? ==> kept.value < k)
    requires Count(n, Some(k)) + Count(k, kept) == Count(n, whole) && Count(k, kept) >= 0
    ensures whole.Some? && kept == whole && whole.value < k
  {
  }

  lemma CutRowsAreCounted(rows: seq<Row>, named: string -> bool)
    ensures CutRows(rows, named) == Count(|rows|, CutAt(rows, named))
    ensures CutAt(rows, named).Some? ==> CutAt(rows, named).value < |rows|
  {
  }

  /** Rows that add up otherwise are those of the same cut made in two pieces. */
  lemma LostRowsAddUp(rows: seq<Row>, served: string -> bool, q: string -> bool)
    requires CutAt(rows, served).Some? && CutAt(rows, q) != CutAt(rows, served)
    requires LostRows(rows, served, q) == CutRows(rows, q)
    ensures CutAt(rows, q).Some? && CutAt(rows[..CutAt(rows, served).value], q) == CutAt(rows, q)
    ensures CutAt(rows, q).value < CutAt(rows, served).value
  {
    var k := CutAt(rows, served).value;
    CutRowsAreCounted(rows, served);
    CutRowsAreCounted(rows, q);
    CutRowsAreCounted(rows[..k], q);
    Counts(|rows|, k, CutAt(rows, q), CutAt(rows[..k], q));
  }

  /** Whatever the two tests, a lost cut is recorded as the whole block would be if and only if both cut it at
      the same row. */
  lemma LostBlockIff(rows: seq<Row>, served: string -> bool, q: string -> bool)
    requires CutAt(rows, served).Some?
    ensures LostSaved(rows, served, q) == Saved(rows, q) && LostRows(rows, served, q) == CutRows(rows, q)
            <==> CutAt(rows, q) == CutAt(rows, served)
  {
    var k := CutAt(rows, served).value;
    if CutAt(rows, q) == CutAt(rows, served) {
      SameCutIsExact(rows, served, q);
    } else if LostRows(rows, served, q) == CutRows(rows, q) {
      LostRowsAddUp(rows, served, q);
      BestIsKept(rows, served);
      TwoCutsSaveLess(rows, CutAt(rows, q).value, k);
    }
  }

  /** Under a test that cuts no later, a lost cut is recorded with too little, unless both cut at the same
      row. */
  lemma LostBlockAtMost(rows: seq<Row>, served: string -> bool, q: string -> bool)
    requires CutAt(rows, served).Some? && AtOrBefore(CutAt(rows, q), CutAt(rows, served))
    requires forall i :: 0 <= i < |rows| ==> Pays(rows[i])
    ensures LostSaved(rows, served, q) <= Saved(rows, q)
    ensures LostSaved(rows, served, q) == Saved(rows, q) <==> CutAt(rows, q) == CutAt(rows, served)
  {
    var j, k := CutAt(rows, q).value, CutAt(rows, served).value;
    if j == k {
      SameCutIsExact(rows, served, q);
    } else {
      BestIsKept(rows, served);
      TailStartOfPrefix(rows, q, k);
      EarlierCutSavesMore(rows, j, k);
      if CutAt(rows[..k], q).Some? {
        TwoCutsSaveLess(rows, j, k);
      }
    }
  }

  // ---- a page ----

  /** What `ranked_blocks` yields and `int` converts, block by block. */
  ghost predicate PageConverts(segments: seq<Segment>) {
    forall i :: 0 <= i < |segments| && segments[i].Block? ==> Convertible(segments[i].rows)
  }

  ghost predicate BlocksPay(segments: seq<Segment>) {
    forall i :: 0 <= i < |segments| && segments[i].Block? ==>
      forall j :: 0 <= j < |segments[i].rows| ==> Pays(segments[i].rows[j])
  }

  lemma {:induction false} CanonicalPays(segments: seq<Segment>, afterBlock: bool, anchored: bool)
    requires Canonical(segments, afterBlock, Reader(anchored)) && PageConverts(segments)
    ensures BlocksPay(segments)
    decreases |segments|
  {
    if segments != [] {
      var rest := segments[1..];
      assert forall i :: 0 <= i < |rest| ==> rest[i] == segments[i + 1];
      CanonicalPays(rest, segments[0].Block?, anchored);
      if segments[0].Block? {
        ReadableRowsPay(segments[0].rows, anchored);
      }
      forall i | 0 < i < |segments| ensures segments[i] == rest[i - 1] {
      }
    }
  }

  lemma PagePays(page: string)
    requires PageConverts(Segments(page))
    ensures BlocksPay(Segments(page))
  {
    SegmentsAreExact(page);
    CanonicalPays(Segments(page), false, Anchored(page));
  }

  // ---- recorded figures under a larger query ----

  ghost predicate EachCutsMore(segments: seq<Segment>, a: string -> bool, b: string -> bool) {
    forall i :: 0 <= i < |segments| && segments[i].Block? ==> CutsMore(segments[i].rows, a, b)
  }

  lemma {:induction false} FiguresGrow(segments: seq<Segment>, a: string -> bool, b: string -> bool)
    requires EachCutsMore(segments, a, b)
    ensures BlocksCut(Blocks(segments), b) <= BlocksCut(Blocks(segments), a)
    ensures BlocksSaved(Blocks(segments), b) <= BlocksSaved(Blocks(segments), a)
    decreases |segments|
  {
    if segments != [] {
      var seg, rest := segments[0], segments[1..];
      assert forall i :: 0 <= i < |rest| ==> rest[i] == segments[i + 1];
      FiguresGrow(rest, a, b);
      if seg.Block? {
        FirstBlockTotals(seg.rows, Blocks(rest), a);
        FirstBlockTotals(seg.rows, Blocks(rest), b);
      } else {
        Nil(Blocks(rest));
      }
    }
  }

  lemma LargerCutsMoreEach(segments: seq<Segment>, fold: Fold, query: string, larger: string)
    requires BlocksPay(segments) && WordsAmong(query, larger)
    requires FoldedWords(fold, SplitWords(query)) != [] || FoldedWords(fold, SplitWords(larger)) == []
    ensures EachCutsMore(segments, Named(fold, larger), Named(fold, query))
  {
    forall i | 0 <= i < |segments| && segments[i].Block?
      ensures CutsMore(segments[i].rows, Named(fold, larger), Named(fold, query))
    {
      LargerQueryOverstates(segments[i].rows, fold, query, larger);
    }
  }

  lemma {:induction false} GoneAtMost(segments: seq<Segment>, rule: Rule, gone: seq<Row> -> bool)
    ensures GoneRows(segments, rule, gone) <= GoneRows(segments, rule, Always())
    ensures GoneSaved(segments, rule, gone) <= GoneSaved(segments, rule, Always())
    decreases |segments|
  {
    if segments != [] {
      GoneAtMost(segments[1..], rule, gone);
      GoneFirst(segments, rule, gone);
      GoneFirst(segments, rule, Always());
    }
  }

  /** Over a whole page: the rows cut and bytes saved under the larger query are at least those of the page
      as it was served. */
  lemma LargerQueryRecordsMore(page: string, rule: Rule, fold: Fold, query: string, larger: string)
    requires PageConverts(Segments(page)) && rule.named == Named(fold, query) && WordsAmong(query, larger)
    requires FoldedWords(fold, SplitWords(query)) != [] || FoldedWords(fold, SplitWords(larger)) == []
    ensures var blocks := Blocks(Segments(page));
            && GoneRows(Segments(page), rule, Made(rule)) <= BlocksCut(blocks, rule.named)
            && BlocksCut(blocks, rule.named) <= BlocksCut(blocks, Named(fold, larger))
            && GoneSaved(Segments(page), rule, Made(rule)) <= BlocksSaved(blocks, rule.named)
            && BlocksSaved(blocks, rule.named) <= BlocksSaved(blocks, Named(fold, larger))
  {
    PagePays(page);
    LargerCutsMoreEach(Segments(page), fold, query, larger);
    FiguresGrow(Segments(page), Named(fold, larger), Named(fold, query));
    GoneAtMost(Segments(page), rule, Made(rule));
    EveryCutSaves(Segments(page), rule);
  }

  /** So a served page whose cuts are all seen and stored is replayed with at least the rows and bytes that
      were cut from it. */
  lemma ReplayRecordsAtLeastServed(page: string, rule: Rule, retrieve: string -> Option<string>, fold: Fold,
                                   query: string, larger: string)
    requires GoodHandles(rule) && Untouched(page)
    requires AllLive(Segments(page), rule, retrieve) && AllSeen(Segments(page), rule)
    requires PageConverts(Segments(page)) && rule.named == Named(fold, query) && WordsAmong(query, larger)
    requires FoldedWords(fold, SplitWords(query)) != [] || FoldedWords(fold, SplitWords(larger)) == []
    ensures var t := ReplayOf(TrimPage(page, rule), Named(fold, larger), retrieve);
            && GoneRows(Segments(page), rule, Made(rule)) <= t.rows
            && Utf8.Size(page) - Utf8.Size(TrimPage(page, rule)) <= t.saved
  {
    LargerQueryRecordsMore(page, rule, fold, query, larger);
    ServedSize(page, rule);
    SeenAndLiveReplay(page, rule, retrieve, Named(fold, larger));
  }

  lemma SeenAndLiveReplay(page: string, rule: Rule, retrieve: string -> Option<string>, q: string -> bool)
    requires GoodHandles(rule) && Untouched(page)
    requires AllLive(Segments(page), rule, retrieve) && AllSeen(Segments(page), rule)
    ensures ReplayOf(TrimPage(page, rule), q, retrieve) == Recorded(page, [], q)
  {
    var segments := Segments(page);
    SegmentsAreExact(page);
    RestoredPage(page, rule, retrieve);
    LiveLosesOnlyUnseen(segments, rule, retrieve);
    SeenLosesNothing(segments, rule);
    NothingDead(segments, rule, retrieve);
  }

  lemma {:induction false} NothingDead(segments: seq<Segment>, rule: Rule, retrieve: string -> Option<string>)
    requires AllLive(segments, rule, retrieve)
    ensures DeadMarkers(segments, rule, retrieve) == []
    decreases |segments|
  {
    if segments != [] {
      assert forall i :: 0 <= i < |segments[1..]| ==> segments[1..][i] == segments[i + 1];
      NothingDead(segments[1..], rule, retrieve);
    }
  }

  // ---- dead handles under another query ----

  /** Every selected cut is where the replay's test cuts too. */
  ghost predicate SameWhereGone(segments: seq<Segment>, rule: Rule, gone: seq<Row> -> bool, q: string -> bool) {
    forall i :: 0 <= i < |segments| && IsCut(segments[i], rule, gone) ==>
      CutAt(segments[i].rows, q) == CutAt(segments[i].rows, rule.named)
  }

  /** The replay's test cuts nothing but selected cuts. */
  ghost predicate OnlyWhereGone(segments: seq<Segment>, rule: Rule, gone: seq<Row> -> bool, q: string -> bool) {
    forall i :: 0 <= i < |segments| && segments[i].Block? && CutAt(segments[i].rows, q).Some? ==>
      IsCut(segments[i], rule, gone)
  }

  ghost predicate EachAtOrBefore(segments: seq<Segment>, rule: Rule, q: string -> bool) {
    forall i :: 0 <= i < |segments| && segments[i].Block? ==>
      AtOrBefore(CutAt(segments[i].rows, q), CutAt(segments[i].rows, rule.named))
  }

  lemma SplitFirst(segments: seq<Segment>, rule: Rule, gone: seq<Row> -> bool, q: string -> bool)
    requires segments != []
    ensures SameWhereGone(segments, rule, gone, q) <==>
            SameWhereGone(segments[1..], rule, gone, q)
            && (IsCut(segments[0], rule, gone) ==> CutAt(segments[0].rows, q) == CutAt(segments[0].rows, rule.named))
    ensures OnlyWhereGone(segments, rule, gone, q) <==>
            OnlyWhereGone(segments[1..], rule, gone, q)
            && (segments[0].Block? && CutAt(segments[0].rows, q).Some? ==> IsCut(segments[0], rule, gone))
  {
    var rest := segments[1..];
    assert forall i :: 0 <= i < |rest| ==> rest[i] == segments[i + 1];
    forall i | 0 < i < |segments| ensures segments[i] == rest[i - 1] {
    }
  }

  lemma BlocksOfTwo(kept: seq<Row>, line: string, out: seq<Segment>)
    ensures Blocks([Block(kept), Other(line)] + out) == [kept] + Blocks(out)
  {
    assert [Block(kept), Other(line)] + out == [Block(kept)] + ([Other(line)] + out);
    Cons(Block(kept), [Other(line)] + out);
    Cons(Other(line), out);
    Nil(Blocks(out));
  }

  lemma BlocksOfOne(seg: Segment, out: seq<Segment>)
    ensures Blocks([seg] + out) == if seg.Block? then [seg.rows] + Blocks(out) else Blocks(out)
  {
    Cons(seg, out);
    Nil(Blocks(out));
  }

  /** One segment's share. */
  function LeftSavedHere(seg: Segment, rule: Rule, gone: seq<Row> -> bool, q: string -> bool): (n: nat) {
    if IsCut(seg, rule, gone) then LostSaved(seg.rows, rule.named, q)
    else if seg.Block? then Saved(seg.rows, q) else 0
  }

  function LeftRowsHere(seg: Segment, rule: Rule, gone: seq<Row> -> bool, q: string -> bool): (n: nat) {
    if IsCut(seg, rule, gone) then LostRows(seg.rows, rule.named, q)
    else if seg.Block? then CutRows(seg.rows, q) else 0
  }

  lemma BlocksOfTrimmed(segments: seq<Segment>, rule: Rule, gone: seq<Row> -> bool, q: string -> bool)
    requires segments != []
    ensures var seg, rest := segments[0], segments[1..];
            var left, more := Blocks(TrimWhere(segments, rule, gone)), Blocks(TrimWhere(rest, rule, gone));
            && GoneSaved(segments, rule, gone) + BlocksSaved(left, q)
               == GoneSaved(rest, rule, gone) + BlocksSaved(more, q) + LeftSavedHere(seg, rule, gone, q)
            && GoneRows(segments, rule, gone) + BlocksCut(left, q)
               == GoneRows(rest, rule, gone) + BlocksCut(more, q) + LeftRowsHere(seg, rule, gone, q)
  {
    var seg, rest := segments[0], segments[1..];
    var out := TrimWhere(rest, rule, gone);
    GoneFirst(segments, rule, gone);
    if IsCut(seg, rule, gone) {
      var kept := seg.rows[..CutAt(seg.rows, rule.named).value];
      BlocksOfTwo(kept, MarkerLine(seg.rows, rule), out);
      FirstBlockTotals(kept, Blocks(out), q);
    } else {
      BlocksOfOne(seg, out);
      if seg.Block? {
        FirstBlockTotals(seg.rows, Blocks(out), q);
      }
    }
  }

  lemma FirstTotals(segments: seq<Segment>, q: string -> bool)
    requires segments != []
    ensures var seg, rest := segments[0], segments[1..];
            && BlocksSaved(Blocks(segments), q)
               == (if seg.Block? then Saved(seg.rows, q) else 0) + BlocksSaved(Blocks(rest), q)
            && BlocksCut(Blocks(segments), q)
               == (if seg.Block? then CutRows(seg.rows, q) else 0) + BlocksCut(Blocks(rest), q)
  {
    var seg, rest := segments[0], segments[1..];
    Uncons(segments);
    BlocksOfOne(seg, rest);
    if seg.Block? {
      FirstBlockTotals(seg.rows, Blocks(rest), q);
    }
  }

  /** With every selected cut where the replay's test cuts, what is left and what the markers prove come to
      the whole page. */
  lemma {:induction false} SameCutsAddUp(segments: seq<Segment>, rule: Rule, gone: seq<Row> -> bool, q: string -> bool)
    requires SameWhereGone(segments, rule, gone, q)
    ensures var left := Blocks(TrimWhere(segments, rule, gone));
            && GoneSaved(segments, rule, gone) + BlocksSaved(left, q) == BlocksSaved(Blocks(segments), q)
            && GoneRows(segments, rule, gone) + BlocksCut(left, q) == BlocksCut(Blocks(segments), q)
    decreases |segments|
  {
    if segments != [] {
      var seg := segments[0];
      SplitFirst(segments, rule, gone, q);
      SameCutsAddUp(segments[1..], rule, gone, q);
      BlocksOfTrimmed(segments, rule, gone, q);
      FirstTotals(segments, q);
      if IsCut(seg, rule, gone) {
        SameCutIsExact(seg.rows, rule.named, q);
      }
    }
  }

  lemma EachAtOrBeforeRest(segments: seq<Segment>, rule: Rule, q: string -> bool)
    requires segments != [] && EachAtOrBefore(segments, rule, q) && BlocksPay(segments)
    ensures EachAtOrBefore(segments[1..], rule, q) && BlocksPay(segments[1..])
  {
    assert forall i :: 0 <= i < |segments[1..]| ==> segments[1..][i] == segments[i + 1];
  }

  /** Under a test that cuts no later, they come to no more bytes, and to as many if and only if every
      selected cut is where that test cuts. */
  lemma {:induction false} LeftAtMost(segments: seq<Segment>, rule: Rule, gone: seq<Row> -> bool, q: string -> bool)
    requires EachAtOrBefore(segments, rule, q) && BlocksPay(segments)
    ensures var n := GoneSaved(segments, rule, gone) + BlocksSaved(Blocks(TrimWhere(segments, rule, gone)), q);
            && n <= BlocksSaved(Blocks(segments), q)
            && (n == BlocksSaved(Blocks(segments), q) <==> SameWhereGone(segments, rule, gone, q))
    decreases |segments|
  {
    if segments != [] {
      var seg := segments[0];
      EachAtOrBeforeRest(segments, rule, q);
      LeftAtMost(segments[1..], rule, gone, q);
      SplitFirst(segments, rule, gone, q);
      BlocksOfTrimmed(segments, rule, gone, q);
      FirstTotals(segments, q);
      if IsCut(seg, rule, gone) {
        LostBlockAtMost(seg.rows, rule.named, q);
      }
    }
  }

  lemma SavedIsAt(rows: seq<Row>, named: string -> bool)
    requires CutAt(rows, named).Some?
    ensures Saved(rows, named) == SavedAt(rows, CutAt(rows, named).value)
  {
  }

  lemma GoneBlockAtMost(rows: seq<Row>, served: string -> bool, q: string -> bool)
    requires CutAt(rows, served).Some? && AtOrBefore(CutAt(rows, q), CutAt(rows, served))
    requires forall i :: 0 <= i < |rows| ==> Pays(rows[i])
    ensures Saved(rows, served) <= Saved(rows, q)
    ensures Saved(rows, served) == Saved(rows, q) <==> CutAt(rows, q) == CutAt(rows, served)
  {
    SavedIsAt(rows, q);
    SavedIsAt(rows, served);
    if CutAt(rows, q) != CutAt(rows, served) {
      EarlierCutSavesMore(rows, CutAt(rows, q).value, CutAt(rows, served).value);
    }
  }

  /** The markers alone come to no more, and to as many if and only if besides that test cuts nothing else. */
  lemma {:induction false} GoneAloneAtMost(segments: seq<Segment>, rule: Rule, gone: seq<Row> -> bool,
                                           q: string -> bool)
    requires EachAtOrBefore(segments, rule, q) && BlocksPay(segments)
    ensures var n := GoneSaved(segments, rule, gone);
            && n <= BlocksSaved(Blocks(segments), q)
            && (n == BlocksSaved(Blocks(segments), q) <==>
                SameWhereGone(segments, rule, gone, q) && OnlyWhereGone(segments, rule, gone, q))
    decreases |segments|
  {
    if segments != [] {
      var seg := segments[0];
      EachAtOrBeforeRest(segments, rule, q);
      GoneAloneAtMost(segments[1..], rule, gone, q);
      SplitFirst(segments, rule, gone, q);
      GoneFirst(segments, rule, gone);
      FirstTotals(segments, q);
      if IsCut(seg, rule, gone) {
        GoneBlockAtMost(seg.rows, rule.named, q);
      }
    }
  }

  /** And then the rows agree too. */
  lemma {:induction false} GoneAloneRows(segments: seq<Segment>, rule: Rule, gone: seq<Row> -> bool, q: string -> bool)
    requires SameWhereGone(segments, rule, gone, q) && OnlyWhereGone(segments, rule, gone, q)
    ensures GoneRows(segments, rule, gone) == BlocksCut(Blocks(segments), q)
    decreases |segments|
  {
    if segments != [] {
      SplitFirst(segments, rule, gone, q);
      GoneAloneRows(segments[1..], rule, gone, q);
      GoneFirst(segments, rule, gone);
      FirstTotals(segments, q);
    }
  }

  // ---- the replay of a whole page ----

  /** The bytes recorded are those of the original page exactly when every cut is seen, whatever the query. */
  lemma BytesIff(page: string, rule: Rule, retrieve: string -> Option<string>)
    requires GoodHandles(rule)
    ensures var left := TrimWhere(Segments(page), rule, Lost(rule, retrieve));
            var dead := DeadMarkers(Segments(page), rule, retrieve);
            && (Utf8.Size(PageText(left)) + DeadSaved(dead) == Utf8.Size(page) <==> AllSeen(Segments(page), rule))
            && (AllSeen(Segments(page), rule) ==>
                  && DeadSaved(dead) == GoneSaved(Segments(page), rule, Lost(rule, retrieve))
                  && DeadRows(dead) == GoneRows(Segments(page), rule, Lost(rule, retrieve)))
  {
    var segments := Segments(page);
    SegmentsAreExact(page);
    TrimmedSize(segments, false, rule, Lost(rule, retrieve), Reader(Anchored(page)));
    DeadAccount(segments, rule, retrieve);
    NothingUnseen(segments, rule);
  }

  /** What the whole page records under the replay's test. */
  function WholePage(page: string, q: string -> bool): (t: Totals) {
    var blocks := Blocks(Segments(page));
    Totals(Utf8.Size(page), BlocksSaved(blocks, q), BlocksCut(blocks, q))
  }

  lemma WholePageReplay(page: string, rule: Rule, q: string -> bool, other: string -> Option<string>)
    requires Untouched(page)
    ensures ReplayOf(page, q, other) == WholePage(page, q)
  {
    OriginalReplay(page, rule.(named := q), other);
  }

  /** Whatever the query of the replay: with every cut seen, no heading surfaced, and every lost cut where
      that query cuts, the served page is recorded as the original. */
  lemma RequeryIsExactIf(page: string, rule: Rule, retrieve: string -> Option<string>, other: string -> Option<string>,
                         q: string -> bool)
    requires GoodHandles(rule) && Untouched(page) && StoreAnswers(Segments(page), rule, retrieve)
    requires AllSeen(Segments(page), rule) && HeadingSafe(HEADING, Segments(page), rule, Lost(rule, retrieve))
    requires SameWhereGone(Segments(page), rule, Lost(rule, retrieve), q)
    ensures ReplayOf(TrimPage(page, rule), q, retrieve) == ReplayOf(page, q, other)
  {
    WholePageReplay(page, rule, q, other);
    ReplayIsRecorded(page, rule, retrieve, q);
    BytesIff(page, rule, retrieve);
    SameCutsAddUp(Segments(page), rule, Lost(rule, retrieve), q);
  }

  ghost predicate RequeryMeasurable(page: string, rule: Rule, gone: seq<Row> -> bool, q: string -> bool) {
    && SameWhereGone(Segments(page), rule, gone, q)
    && (HeadingSafe(HEADING, Segments(page), rule, gone) || OnlyWhereGone(Segments(page), rule, gone, q))
  }

  lemma SafeRequeryIff(page: string, rule: Rule, gone: seq<Row> -> bool, dead: seq<Marker>, q: string -> bool)
    requires EachAtOrBefore(Segments(page), rule, q) && BlocksPay(Segments(page))
    requires DeadSaved(dead) == GoneSaved(Segments(page), rule, gone)
    requires DeadRows(dead) == GoneRows(Segments(page), rule, gone)
    ensures var t := Accounted(TrimWhere(Segments(page), rule, gone), dead, q);
            t.saved == WholePage(page, q).saved && t.rows == WholePage(page, q).rows
            <==> SameWhereGone(Segments(page), rule, gone, q)
  {
    LeftAtMost(Segments(page), rule, gone, q);
    if SameWhereGone(Segments(page), rule, gone, q) {
      SameCutsAddUp(Segments(page), rule, gone, q);
    }
  }

  lemma SurfacedRequeryIff(page: string, rule: Rule, gone: seq<Row> -> bool, q: string -> bool)
    requires EachAtOrBefore(Segments(page), rule, q) && BlocksPay(Segments(page))
    ensures GoneSaved(Segments(page), rule, gone) == WholePage(page, q).saved
            && GoneRows(Segments(page), rule, gone) == WholePage(page, q).rows
            <==> SameWhereGone(Segments(page), rule, gone, q) && OnlyWhereGone(Segments(page), rule, gone, q)
  {
    GoneAloneAtMost(Segments(page), rule, gone, q);
    if SameWhereGone(Segments(page), rule, gone, q) && OnlyWhereGone(Segments(page), rule, gone, q) {
      GoneAloneRows(Segments(page), rule, gone, q);
    }
  }

  lemma RecordedRequeryIff(page: string, rule: Rule, gone: seq<Row> -> bool, dead: seq<Marker>, q: string -> bool)
    requires GoodHandles(rule) && EachAtOrBefore(Segments(page), rule, q) && BlocksPay(Segments(page))
    requires DeadSaved(dead) == GoneSaved(Segments(page), rule, gone)
    requires DeadRows(dead) == GoneRows(Segments(page), rule, gone)
    ensures var t := Recorded(PageText(TrimWhere(Segments(page), rule, gone)), dead, q);
            t.saved == WholePage(page, q).saved && t.rows == WholePage(page, q).rows
            <==> RequeryMeasurable(page, rule, gone, q)
  {
    var left := TrimWhere(Segments(page), rule, gone);
    SafeRequeryIff(page, rule, gone, dead, q);
    SurfacedRequeryIff(page, rule, gone, q);
    if HeadingSafe(HEADING, Segments(page), rule, gone) {
      TrimmedPageReadsBack(page, rule, gone);
      RecordedReadsBack(left, dead, q);
    } else {
      TrimmedAnchorsIff(page, rule, gone);
      SurfacedRecords(PageText(left), dead, rule.(named := q));
    }
  }

  /** Dead handles under another query that cuts no later: the replay of the served page records what that
      query records of the original, for any store, if and only if every cut follows a line feed, every lost
      cut is where that query cuts, and no heading surfaces or that query cuts nothing else. */
  lemma RequeryIsExactIff(page: string, rule: Rule, retrieve: string -> Option<string>, other: string -> Option<string>,
                          q: string -> bool)
    requires GoodHandles(rule) && Untouched(page) && StoreAnswers(Segments(page), rule, retrieve)
    requires EachAtOrBefore(Segments(page), rule, q) && PageConverts(Segments(page))
    ensures ReplayOf(TrimPage(page, rule), q, retrieve) == ReplayOf(page, q, other)
            <==> AllSeen(Segments(page), rule) && RequeryMeasurable(page, rule, Lost(rule, retrieve), q)
  {
    var gone, dead := Lost(rule, retrieve), DeadMarkers(Segments(page), rule, retrieve);
    PagePays(page);
    WholePageReplay(page, rule, q, other);
    ReplayIsRecorded(page, rule, retrieve, q);
    BytesIff(page, rule, retrieve);
    if AllSeen(Segments(page), rule) {
      RecordedRequeryIff(page, rule, gone, dead, q);
    }
  }
}
