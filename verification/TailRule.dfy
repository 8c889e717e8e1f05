/** The ranked-tail rule: which rows of a block are cut. Both copies of it, the replay script's
    and the serving binary's, and the proof that they are one rule wherever their query tests agree. */
module TailRule {
  import opened Options
  import opened RowPattern
  import opened TrimMarker
  import Utf8

  const MIN_KEPT_ROWS := 3
  const MIN_TRIMMED_ROWS := 2

  // ---- scripts/measure-ranked-tail-trim.py: tail_start ----

  function Best(rows: seq<Row>): (best: nat) {
    if rows == [] then 0
    else if rows[0].utility >= Best(rows[1..]) then rows[0].utility else Best(rows[1..])
  }

  predicate Strong(row: Row, best: nat, named: string -> bool) {
    row.isProtected || row.utility * 2 > best || named(row.name)
  }

  /** One past the last strong row, or 0. */
  function AfterLastStrong(rows: seq<Row>, best: nat, named: string -> bool): (k: nat)
    ensures k <= |rows|
  {
    if rows == [] then 0
    else if Strong(rows[|rows| - 1], best, named) then |rows|
    else AfterLastStrong(rows[..|rows| - 1], best, named)
  }

  function TailStart(rows: seq<Row>, named: string -> bool): (start: Option<nat>)
    ensures start.Some? ==> MIN_KEPT_ROWS <= start.value <= |rows| - MIN_TRIMMED_ROWS
  {
    var best := Best(rows);
    if best == 0 then None
    else
      var after := AfterLastStrong(rows, best, named);
      var start := if after > MIN_KEPT_ROWS then after else MIN_KEPT_ROWS;
      if |rows| - start >= MIN_TRIMMED_ROWS then Some(start) else None
  }

  /** Cutting at `k` keeps at least three rows, drops at least two, and drops only weak ones. */
  ghost predicate Worthwhile(rows: seq<Row>, k: nat, named: string -> bool) {
    && MIN_KEPT_ROWS <= k && k + MIN_TRIMMED_ROWS <= |rows|
    && forall i :: k <= i < |rows| ==> !Strong(rows[i], Best(rows), named)
  }

  lemma {:induction false} AfterLastStrongIsLeast(rows: seq<Row>, best: nat, named: string -> bool)
    ensures var k := AfterLastStrong(rows, best, named);
            && (forall i :: k <= i < |rows| ==> !Strong(rows[i], best, named))
            && (k > 0 ==> Strong(rows[k - 1], best, named))
  {
    if rows != [] && !Strong(rows[|rows| - 1], best, named) {
      AfterLastStrongIsLeast(rows[..|rows| - 1], best, named);
    }
  }

  /** `tail_start` returns the longest worthwhile suffix, and none only when there is none to cut. */
  lemma TailStartIsOptimal(rows: seq<Row>, named: string -> bool)
    ensures var start := TailStart(rows, named);
            && (start.Some? ==> Worthwhile(rows, start.value, named))
            && (forall k: nat :: start.Some? && Worthwhile(rows, k, named) ==> start.value <= k)
            && (start.None? <==> Best(rows) == 0 || forall k: nat :: !Worthwhile(rows, k, named))
  {
    AfterLastStrongIsLeast(rows, Best(rows), named);
    var after := AfterLastStrong(rows, Best(rows), named);
    forall k: nat | Worthwhile(rows, k, named) ensures after <= k {
      assert after > 0 ==> Strong(rows[after - 1], Best(rows), named);
    }
  }

  lemma {:induction false} BestIsMaximum(rows: seq<Row>)
    ensures forall i :: 0 <= i < |rows| ==> rows[i].utility <= Best(rows)
    ensures rows != [] ==> exists i :: 0 <= i < |rows| && rows[i].utility == Best(rows)
  {
    if rows != [] {
      BestIsMaximum(rows[1..]);
      if rows[0].utility >= Best(rows[1..]) {
        assert rows[0].utility == Best(rows);
      } else {
        var i :| 0 <= i < |rows[1..]| && rows[1..][i].utility == Best(rows[1..]);
        assert rows[i + 1].utility == Best(rows);
      }
    }
  }

  /** Row `i` is neither protected nor named, and some row is worth at least twice as much. */
  ghost predicate Cuttable(rows: seq<Row>, i: nat, named: string -> bool)
    requires i < |rows|
  {
    && !rows[i].isProtected && !named(rows[i].name)
    && exists j :: 0 <= j < |rows| && rows[i].utility * 2 <= rows[j].utility
  }

  lemma CuttableIsWeak(rows: seq<Row>, i: nat, named: string -> bool)
    requires i < |rows|
    ensures Cuttable(rows, i, named) <==> !Strong(rows[i], Best(rows), named)
  {
    BestIsMaximum(rows);
    var j :| 0 <= j < |rows| && rows[j].utility == Best(rows);
    assert rows[i].utility * 2 <= rows[j].utility <==> rows[i].utility * 2 <= Best(rows);
  }

  lemma StartIsBehindStrong(rows: seq<Row>, named: string -> bool, k: nat)
    ensures TailStart(rows, named) == Some(k) <==>
            && Best(rows) > 0 && 3 <= k && k + 2 <= |rows|
            && (forall i :: k <= i < |rows| ==> !Strong(rows[i], Best(rows), named))
            && (k == 3 || Strong(rows[k - 1], Best(rows), named))
  {
    AfterLastStrongIsLeast(rows, Best(rows), named);
  }

  /** The rule, row by row: the cut starts at `k` exactly when three rows or more stand before it and
      two or more behind, every row behind can be cut, the row before it could not (unless it is one
      of the three), and some row is worth anything. */
  lemma TailStartIff(rows: seq<Row>, named: string -> bool, k: nat)
    ensures TailStart(rows, named) == Some(k) <==>
            && 3 <= k && k + 2 <= |rows|
            && (forall i :: k <= i < |rows| ==> Cuttable(rows, i, named))
            && (k == 3 || !Cuttable(rows, k - 1, named))
            && (exists i :: 0 <= i < |rows| && rows[i].utility > 0)
  {
    BestIsMaximum(rows);
    assert Best(rows) > 0 <==> exists i :: 0 <= i < |rows| && rows[i].utility > 0;
    forall i | 0 <= i < |rows| ensures Cuttable(rows, i, named) <==> !Strong(rows[i], Best(rows), named) {
      CuttableIsWeak(rows, i, named);
    }
    StartIsBehindStrong(rows, named, k);
  }

  /** The best row is strong, so it is always kept. */
  lemma BestIsKept(rows: seq<Row>, named: string -> bool)
    requires TailStart(rows, named).Some?
    ensures Best(rows[..TailStart(rows, named).value]) == Best(rows)
  {
    var k := TailStart(rows, named).value;
    AfterLastStrongIsLeast(rows, Best(rows), named);
    BestIsMaximum(rows);
    BestIsMaximum(rows[..k]);
    var i :| 0 <= i < |rows| && rows[i].utility == Best(rows);
    assert i < k;
    assert rows[..k][i] == rows[i];
    var j :| 0 <= j < |rows[..k]| && rows[..k][j].utility == Best(rows[..k]);
    assert rows[j] == rows[..k][j];
  }

  /** Cutting once is enough: the kept rows have no worthwhile tail of their own. */
  lemma KeptRowsAreNotCutAgain(rows: seq<Row>, named: string -> bool)
    requires TailStart(rows, named).Some?
    ensures TailStart(rows[..TailStart(rows, named).value], named).None?
  {
    var best, k := Best(rows), TailStart(rows, named).value;
    BestIsKept(rows, named);
    AfterLastStrongIsLeast(rows, best, named);
    AfterLastStrongIsLeast(rows[..k], best, named);
    var after := AfterLastStrong(rows, best, named);
    assert after > MIN_KEPT_ROWS ==> rows[..k][k - 1] == rows[k - 1];
  }

  // ---- marker and trimmed, per block ----

  function Bytes(rows: seq<Row>): (n: nat) {
    if rows == [] then 0 else Utf8.Size(rows[0].Body()) + Bytes(rows[1..])
  }

  function CutMarker(cut: seq<Row>, best: nat, handle: string): (line: string)
    requires cut != []
  {
    MarkerText(|cut|, cut[0].rank, cut[|cut| - 1].rank, Bytes(cut), best, handle)
  }

  /** The stand-in handle the replay prices markers with. */
  const HANDLE := "rh_" + "000000000000" + "000000000000"

  lemma HandleIsHandle()
    ensures IsHandle(HANDLE)
  {
    assert forall k :: 3 <= k < 15 ==> HANDLE[k] == "000000000000"[k - 3];
    assert forall k :: 15 <= k < 27 ==> HANDLE[k] == "000000000000"[k - 15];
    assert HANDLE[..3] == "rh_";
  }

  function SavedAt(rows: seq<Row>, start: nat): (saved: int)
    requires start < |rows|
  {
    Bytes(rows[start..]) - Utf8.Size(CutMarker(rows[start..], Best(rows), HANDLE))
  }

  /** Where `trimmed` cuts a block: the rule's cut, unless its marker would not be shorter. */
  function CutAt(rows: seq<Row>, named: string -> bool): (start: Option<nat>)
    ensures start.Some? ==> MIN_KEPT_ROWS <= start.value <= |rows| - MIN_TRIMMED_ROWS && SavedAt(rows, start.value) > 0
  {
    var start := TailStart(rows, named);
    if start.None? || SavedAt(rows, start.value) <= 0 then None else start
  }

  /** A block is cut where the rule says if and only if the cut rows take more bytes than the marker that
      names their count, their first and last rank, their bytes and the block's best utility. */
  lemma CutAtIff(rows: seq<Row>, named: string -> bool, k: nat)
    ensures CutAt(rows, named) == Some(k) <==>
            && TailStart(rows, named) == Some(k)
            && (var cut := rows[k..];
                var marker := MarkerText(|cut|, cut[0].rank, cut[|cut| - 1].rank, Bytes(cut), Best(rows), HANDLE);
                Utf8.Size(marker) < Bytes(cut))
  {
  }

  function CutRows(rows: seq<Row>, named: string -> bool): (n: nat) {
    var start := CutAt(rows, named);
    if start.None? then 0 else |rows| - start.value
  }

  function Saved(rows: seq<Row>, named: string -> bool): (n: nat) {
    var start := CutAt(rows, named);
    if start.None? then 0 else SavedAt(rows, start.value)
  }

  lemma NoSecondCut(rows: seq<Row>, named: string -> bool)
    requires CutAt(rows, named).Some?
    ensures CutAt(rows[..CutAt(rows, named).value], named).None?
  {
    KeptRowsAreNotCutAgain(rows, named);
  }

  // ---- crates/tracedecay-mcp ranked_tail.rs: the serving binary's copy ----

  /** One rendered row of the binary's page. */
  datatype RankedRow = RankedRow(rank: nat, utility: nat, name: string, anchored: bool, markdown: string)

  predicate LowValue(row: RankedRow, best: nat, named: string -> bool) {
    !row.anchored && row.utility * 2 <= best && !named(row.name)
  }

  function MaxUtility(rows: seq<RankedRow>): (m: Option<nat>) {
    if rows == [] then None
    else
      var rest := MaxUtility(rows[1..]);
      if rest.Some? && rest.value > rows[0].utility then rest else Some(rows[0].utility)
  }

  /** `rposition` of a row that is not low value. */
  function LastHighValue(rows: seq<RankedRow>, best: nat, named: string -> bool): (k: Option<nat>)
    ensures k.Some? ==> k.value < |rows|
  {
    if rows == [] then None
    else
      var rest := LastHighValue(rows[1..], best, named);
      if rest.Some? then Some(rest.value + 1)
      else if !LowValue(rows[0], best, named) then Some(0)
      else None
  }

  function LowValueTailStart(rows: seq<RankedRow>, named: string -> bool): (r: Option<(nat, nat)>)
    ensures r.Some? ==> r.value.0 <= |rows| - MIN_TRIMMED_ROWS
  {
    var max := MaxUtility(rows);
    if max.None? || max.value == 0 then None
    else
      var last := LastHighValue(rows, max.value, named);
      var after := if last.None? then 0 else last.value + 1;
      var start := if after > MIN_KEPT_ROWS then after else MIN_KEPT_ROWS;
      var left := if |rows| > start then |rows| - start else 0;
      if left >= MIN_TRIMMED_ROWS then Some((start, max.value)) else None
  }

  function Markdown(rows: seq<RankedRow>): (s: string) {
    if rows == [] then "" else rows[0].markdown + Markdown(rows[1..])
  }

  function MarkdownBytes(rows: seq<RankedRow>): (n: nat) {
    if rows == [] then 0 else Utf8.Size(rows[0].markdown) + MarkdownBytes(rows[1..])
  }

  function TailMarker(cut: seq<RankedRow>, best: nat, handle: string): (line: string)
    requires cut != []
  {
    MarkerText(|cut|, cut[0].rank, cut[|cut| - 1].rank, MarkdownBytes(cut), best, handle)
  }

  /** The marker in place of the tail, unless that saves nothing or the tail could not be stored. */
  function Marked(all: string, kept: string, tail: string, marker: string, isStored: bool): (s: string) {
    if Utf8.Size(marker) >= Utf8.Size(tail) || !isStored then all else kept + marker
  }

  function RowsCutAt(rows: seq<RankedRow>, start: nat, best: nat, handleFor: string -> string,
                     stored: string -> bool): (s: string)
    requires start < |rows|
  {
    var cutMd := Markdown(rows[start..]);
    Marked(Markdown(rows), Markdown(rows[..start]), cutMd, TailMarker(rows[start..], best, handleFor(cutMd)),
           stored(cutMd))
  }

  /** The rows as the binary serves them. */
  function RankedRowsMd(rows: seq<RankedRow>, named: string -> bool, handleFor: string -> string,
                        stored: string -> bool): (s: string) {
    var tail := LowValueTailStart(rows, named);
    if tail.None? then Markdown(rows) else RowsCutAt(rows, tail.value.0, tail.value.1, handleFor, stored)
  }

  /** The binary's view of the rows the replay parsed. */
  function Served(rows: seq<Row>): (out: seq<RankedRow>)
    ensures |out| == |rows|
  {
    seq(|rows|, i requires 0 <= i < |rows| =>
      RankedRow(rows[i].rank, rows[i].utility, rows[i].name, rows[i].isProtected, rows[i].Body()))
  }

  lemma {:induction false} MaxUtilityIsBest(rows: seq<Row>)
    ensures MaxUtility(Served(rows)) == if rows == [] then None else Some(Best(rows))
  {
    if rows != [] {
      assert Served(rows)[1..] == Served(rows[1..]);
      MaxUtilityIsBest(rows[1..]);
    }
  }

  lemma {:induction false} LastHighValueIsLast(rows: seq<RankedRow>, best: nat, named: string -> bool)
    ensures var k := LastHighValue(rows, best, named);
            && (k.Some? ==> !LowValue(rows[k.value], best, named))
            && (forall i :: (if k.Some? then k.value + 1 else 0) <= i < |rows| ==> LowValue(rows[i], best, named))
  {
    if rows != [] {
      LastHighValueIsLast(rows[1..], best, named);
    }
  }

  /** Two query tests agree on the names of a block. */
  predicate SameNamed(rows: seq<Row>, script: string -> bool, binary: string -> bool) {
    forall i :: 0 <= i < |rows| ==> script(rows[i].name) == binary(rows[i].name)
  }

  /** The replay's `tail_start` and the binary's `low_value_tail_start` are the same rule on every block
      on whose names the two query tests agree. */
  lemma RulesAgree(rows: seq<Row>, script: string -> bool, binary: string -> bool)
    requires SameNamed(rows, script, binary)
    ensures LowValueTailStart(Served(rows), binary)
            == (var k := TailStart(rows, script); if k.None? then None else Some((k.value, Best(rows))))
  {
    var best := Best(rows);
    MaxUtilityIsBest(rows);
    AfterLastStrongIsLeast(rows, best, script);
    LastHighValueIsLast(Served(rows), best, binary);
    var last := LastHighValue(Served(rows), best, binary);
    var after := AfterLastStrong(rows, best, script);
    assert after > 0 ==> !LowValue(Served(rows)[after - 1], best, binary);
    assert last.Some? ==> Strong(rows[last.value], best, script);
    assert after == if last.None? then 0 else last.value + 1;
  }

  function Bodies(rows: seq<Row>): (s: string) {
    if rows == [] then "" else rows[0].Body() + Bodies(rows[1..])
  }

  lemma {:induction false} ServedText(rows: seq<Row>)
    ensures Markdown(Served(rows)) == Bodies(rows)
    ensures MarkdownBytes(Served(rows)) == Bytes(rows)
    ensures Utf8.Size(Bodies(rows)) == Bytes(rows)
  {
    if rows != [] {
      assert Served(rows)[1..] == Served(rows[1..]);
      ServedText(rows[1..]);
      Utf8.EncodeAppend(rows[0].Body(), Bodies(rows[1..]));
    }
  }

  /** A block as the rule serves it: the kept rows and one marker for the tail, or every row. */
  function ServedBlock(rows: seq<Row>, named: string -> bool, handleFor: string -> string): (s: string) {
    var start := CutAt(rows, named);
    if start.None? then Bodies(rows)
    else Bodies(rows[..start.value])
         + CutMarker(rows[start.value..], Best(rows), handleFor(Bodies(rows[start.value..])))
  }

  /** Both copies print the same marker, and the stand-in handle prices it exactly. */
  lemma MarkersAgree(cut: seq<Row>, best: nat, handle: string)
    requires cut != [] && IsHandle(handle)
    ensures TailMarker(Served(cut), best, handle) == CutMarker(cut, best, handle)
    ensures Utf8.Size(CutMarker(cut, best, handle)) == Utf8.Size(CutMarker(cut, best, HANDLE))
  {
    ServedText(cut);
    HandleIsHandle();
    MarkerSizeIgnoresHandle(|cut|, cut[0].rank, cut[|cut| - 1].rank, Bytes(cut), best, HANDLE, handle);
  }

  lemma ServedSlices(rows: seq<Row>, start: nat)
    requires start <= |rows|
    ensures Served(rows)[start..] == Served(rows[start..]) && Served(rows)[..start] == Served(rows[..start])
  {
  }

  lemma MarkerSavesIff(rows: seq<Row>, start: nat, handle: string)
    requires start < |rows| && IsHandle(handle)
    ensures var cut := rows[start..];
            Utf8.Size(CutMarker(cut, Best(rows), handle)) >= Utf8.Size(Bodies(cut)) <==> SavedAt(rows, start) <= 0
  {
    ServedText(rows[start..]);
    MarkersAgree(rows[start..], Best(rows), handle);
  }

  /** A block cut at `start`, in the script's terms. */
  lemma CutIsServed(rows: seq<Row>, start: nat, handleFor: string -> string, stored: string -> bool)
    requires start < |rows| && forall s :: IsHandle(handleFor(s))
    ensures var cut := rows[start..];
            RowsCutAt(Served(rows), start, Best(rows), handleFor, stored)
            == Marked(Bodies(rows), Bodies(rows[..start]), Bodies(cut),
                      CutMarker(cut, Best(rows), handleFor(Bodies(cut))), stored(Bodies(cut)))
  {
    var cut := rows[start..];
    ServedSlices(rows, start);
    ServedText(rows);
    ServedText(cut);
    ServedText(rows[..start]);
    MarkersAgree(cut, Best(rows), handleFor(Bodies(cut)));
  }

  /** Where the query tests agree, what the binary serves is what the replay's rule says it serves, byte
      for byte; when the store fails it serves every row. */
  lemma BinaryServesTheRule(rows: seq<Row>, script: string -> bool, binary: string -> bool,
                            handleFor: string -> string, stored: string -> bool)
    requires SameNamed(rows, script, binary) && forall s :: IsHandle(handleFor(s))
    ensures var served := RankedRowsMd(Served(rows), binary, handleFor, stored);
            var start := CutAt(rows, script);
            served == if start.Some? && !stored(Bodies(rows[start.value..])) then Bodies(rows)
                      else ServedBlock(rows, script, handleFor)
  {
    RulesAgree(rows, script, binary);
    ServedText(rows);
    var tail := TailStart(rows, script);
    if tail.Some? {
      CutIsServed(rows, tail.value, handleFor, stored);
      MarkerSavesIff(rows, tail.value, handleFor(Bodies(rows[tail.value..])));
    }
  }
}
