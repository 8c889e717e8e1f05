/** Scoring one transcript: which result answers which call, which evidence counts, and how much
    of each result the agent used. */
module Scorer {
  import opened Options
  import opened Text
  import opened Evidence
  import Utf8

  /** A normalized transcript event, in session order. */
  datatype Event =
    | Call(id: string, name: string, evidence: string)
    | Result(id: string, body: Option<string>, isError: bool, tokens: Option<nat>, cut: Option<bool>)
    | Said(said: string)

  /** The matching rules a transcript is scored under: how a call names its tool, what a word
      character is, and which anchors a line has. */
  datatype Matching = Matching(tool: string -> Option<string>, isWord: WordClass, anchors: string -> seq<Anchor>)

  ghost predicate WellFormed(m: Matching) {
    forall line, i :: 0 <= i < |m.anchors(line)| ==> AnchorOf(m.isWord, line, m.anchors(line)[i])
  }

  datatype CallReport = CallReport(
    tool: string, session: string, totalBytes: nat, usedBytes: nat, lines: nat, usedLines: nat,
    isError: bool, textStored: bool, rerequestCalls: nat, rerequestAfterCut: Option<nat>,
    totalTokens: Option<nat>, usedTokens: Option<nat>, unusedTokens: Option<nat>)

  // ---- pairing calls with results ----

  predicate IsToolCall(m: Matching, e: Event) {
    e.Call? && m.tool(e.name).Some?
  }

  /** The dictionaries after the first pass: call ids in insertion order, each id's call, and the
      index of the result that answers it. */
  datatype Pairing = Pairing(order: seq<string>, calls: map<string, Event>, results: map<string, nat>)

  function Pair(m: Matching, p: Pairing, e: Event, index: nat): (q: Pairing) {
    if IsToolCall(m, e) then
      if e.id in p.calls then p else Pairing(p.order + [e.id], p.calls[e.id := e], p.results)
    else if e.Result? && e.id in p.calls && e.id !in p.results then p.(results := p.results[e.id := index])
    else p
  }

  function PairUpTo(m: Matching, events: seq<Event>, n: nat): (p: Pairing)
    requires n <= |events|
  {
    if n == 0 then Pairing([], map[], map[]) else Pair(m, PairUpTo(m, events, n - 1), events[n - 1], n - 1)
  }

  /** `i` is the first tool call with this id among the first `n` events. */
  predicate FirstCall(m: Matching, events: seq<Event>, n: nat, id: string, i: nat)
    requires n <= |events|
  {
    && i < n && IsToolCall(m, events[i]) && events[i].id == id
    && forall k :: 0 <= k < i ==> !(IsToolCall(m, events[k]) && events[k].id == id)
  }

  predicate HasCall(m: Matching, events: seq<Event>, n: nat, id: string)
    requires n <= |events|
  {
    exists i :: 0 <= i < n && IsToolCall(m, events[i]) && events[i].id == id
  }

  /** Event `j` is a result with this id after a tool call with it. */
  predicate AnswerAt(m: Matching, events: seq<Event>, id: string, j: nat)
    requires j < |events|
  {
    events[j].Result? && events[j].id == id && HasCall(m, events, j, id)
  }

  /** `j` is the first such result among the first `n` events. */
  predicate FirstResult(m: Matching, events: seq<Event>, n: nat, id: string, j: nat)
    requires n <= |events|
  {
    j < n && AnswerAt(m, events, id, j) && forall k :: 0 <= k < j ==> !AnswerAt(m, events, id, k)
  }

  predicate HasResult(m: Matching, events: seq<Event>, n: nat, id: string)
    requires n <= |events|
  {
    exists j :: 0 <= j < n && AnswerAt(m, events, id, j)
  }

  lemma {:induction false} PairedCalls(m: Matching, events: seq<Event>, n: nat, id: string)
    requires n <= |events|
    ensures var p := PairUpTo(m, events, n);
            && (id in p.calls <==> HasCall(m, events, n, id)) && (id in p.order <==> id in p.calls)
            && (id in p.calls ==> exists i: nat :: FirstCall(m, events, n, id, i) && p.calls[id] == events[i])
  {
    if n > 0 {
      PairedCalls(m, events, n - 1, id);
      var p, e := PairUpTo(m, events, n - 1), events[n - 1];
      if id in p.calls {
        var i: nat :| FirstCall(m, events, n - 1, id, i) && p.calls[id] == events[i];
        assert FirstCall(m, events, n, id, i);
      } else if IsToolCall(m, e) && e.id == id {
        assert FirstCall(m, events, n, id, n - 1);
      }
    }
  }

  lemma {:induction false} PairedResults(m: Matching, events: seq<Event>, n: nat, id: string)
    requires n <= |events|
    ensures var p := PairUpTo(m, events, n);
            && (id in p.results <==> HasResult(m, events, n, id))
            && (id in p.results ==> FirstResult(m, events, n, id, p.results[id]))
  {
    if n > 0 {
      PairedResults(m, events, n - 1, id);
      PairedCalls(m, events, n - 1, id);
      HasResultStep(m, events, n, id);
      var p := PairUpTo(m, events, n - 1);
      PairStep(m, p, events[n - 1], n - 1, id);
      if id !in p.results && AnswerAt(m, events, id, n - 1) {
        assert FirstResult(m, events, n, id, n - 1);
      }
    }
  }

  lemma PairStep(m: Matching, p: Pairing, e: Event, index: nat, id: string)
    ensures var q := Pair(m, p, e, index);
            && (id in q.results <==> id in p.results || (e.Result? && e.id == id && id in p.calls))
            && (id in p.results ==> q.results[id] == p.results[id])
            && (id in q.results && id !in p.results ==> q.results[id] == index)
  {
  }

  lemma HasResultStep(m: Matching, events: seq<Event>, n: nat, id: string)
    requires 0 < n <= |events|
    ensures HasResult(m, events, n, id) <==> HasResult(m, events, n - 1, id) || AnswerAt(m, events, id, n - 1)
  {
    if HasResult(m, events, n, id) {
      var j :| 0 <= j < n && AnswerAt(m, events, id, j);
      assert j == n - 1 || j < n - 1;
    }
    if HasResult(m, events, n - 1, id) {
      var j :| 0 <= j < n - 1 && AnswerAt(m, events, id, j);
      assert 0 <= j < n;
    }
  }

  /** Each called id is listed once, and only called ids have results. */
  ghost predicate Consistent(p: Pairing) {
    && Distinct(p.order)
    && (forall id :: id in p.order <==> id in p.calls)
    && p.results.Keys <= p.calls.Keys
  }

  lemma AddCall(p: Pairing, id: string, e: Event)
    requires Consistent(p) && id !in p.calls
    ensures Consistent(Pairing(p.order + [id], p.calls[id := e], p.results))
  {
    AppendDistinct(p.order, id);
  }

  lemma AppendDistinct(ids: seq<string>, id: string)
    requires Distinct(ids) && id !in ids
    ensures Distinct(ids + [id]) && forall x :: x in ids + [id] <==> x in ids || x == id
  {
    assert forall i :: 0 <= i < |ids| ==> ids[i] in ids;
  }

  lemma {:induction false} PairingIsConsistent(m: Matching, events: seq<Event>, n: nat)
    requires n <= |events|
    ensures Consistent(PairUpTo(m, events, n))
  {
    if n > 0 {
      PairingIsConsistent(m, events, n - 1);
      var p, e := PairUpTo(m, events, n - 1), events[n - 1];
      if IsToolCall(m, e) && e.id !in p.calls {
        AddCall(p, e.id, e);
      }
    }
  }

  // ---- evidence around a result ----

  predicate Authored(e: Event) {
    !e.Result?
  }

  function AuthoredText(e: Event): (s: string)
    requires Authored(e)
  {
    if e.Call? then e.evidence else e.said
  }

  predicate SameTool(m: Matching, e: Event, tool: string) {
    e.Call? && m.tool(e.name) == Some(tool)
  }

  datatype Where = Before | LaterUse | LaterRerequest

  /** Which of the three evidence lists an event at `index` belongs to. */
  function Placed(m: Matching, e: Event, index: nat, result: nat, tool: string): (w: Where) {
    if index < result then Before else if SameTool(m, e, tool) then LaterRerequest else LaterUse
  }

  function Segments(m: Matching, events: seq<Event>, n: nat, result: nat, tool: string,
                    w: Where): (segments: seq<string>)
    requires n <= |events|
  {
    if n == 0 then []
    else
      Segments(m, events, n - 1, result, tool, w)
      + (if Authored(events[n - 1]) && Placed(m, events[n - 1], n - 1, result, tool) == w
         then [AuthoredText(events[n - 1])] else [])
  }

  /** `split_evidence`: the three joined texts. */
  method SplitEvidence(m: Matching, events: seq<Event>, result: nat, tool: string)
    returns (before: string, laterUse: string, laterRerequest: string)
    ensures before == JoinLines(Segments(m, events, |events|, result, tool, Before))
    ensures laterUse == JoinLines(Segments(m, events, |events|, result, tool, LaterUse))
    ensures laterRerequest == JoinLines(Segments(m, events, |events|, result, tool, LaterRerequest))
  {
    var b: seq<string>, u: seq<string>, r: seq<string> := [], [], [];
    for i := 0 to |events|
      invariant b == Segments(m, events, i, result, tool, Before)
      invariant u == Segments(m, events, i, result, tool, LaterUse)
      invariant r == Segments(m, events, i, result, tool, LaterRerequest)
    {
      Nil(b);
      Nil(u);
      Nil(r);
      if !events[i].Result? {
        var text := AuthoredText(events[i]);
        if i < result {
          b := b + [text];
        } else if SameTool(m, events[i], tool) {
          r := r + [text];
        } else {
          u := u + [text];
        }
      }
    }
    return JoinLines(b), JoinLines(u), JoinLines(r);
  }

  // ---- scoring lines ----

  /** Some anchor of the line is new at the result and occurs later. */
  predicate Used(m: Matching, line: string, before: string, later: string) {
    exists i :: 0 <= i < |m.anchors(line)| && !Occurs(m.isWord, m.anchors(line)[i], before)
                && Occurs(m.isWord, m.anchors(line)[i], later)
  }

  datatype Score = Score(lines: nat, bytes: nat, usedLines: nat, usedBytes: nat)

  function ScoreOf(m: Matching, lines: seq<string>, before: string, later: string): (s: Score) {
    if lines == [] then Score(0, 0, 0, 0)
    else
      var rest := ScoreOf(m, lines[1..], before, later);
      var size, used := Utf8.Size(lines[0]), Used(m, lines[0], before, later);
      Score(rest.lines + 1, rest.bytes + size, rest.usedLines + (if used then 1 else 0),
            rest.usedBytes + (if used then size else 0))
  }

  /** `score_lines`: walk the physical lines, and stop at a line's first new anchor that occurs later. */
  method ScoreLines(m: Matching, text: string, before: string, later: string) returns (s: Score)
    ensures s == ScoreOf(m, SplitLines(text), before, later)
  {
    var lines := SplitLines(text);
    var count: nat, total: nat, usedLines: nat, usedBytes: nat := 0, 0, 0, 0;
    for i := 0 to |lines|
      invariant ScoreOf(m, lines, before, later)
                == (var r := ScoreOf(m, lines[i..], before, later);
                    Score(count + r.lines, total + r.bytes, usedLines + r.usedLines, usedBytes + r.usedBytes))
    {
      SliceStep(lines, i);
      var size := Utf8.Size(lines[i]);
      count, total := count + 1, total + size;
      var used := LineIsUsed(m, lines[i], before, later);
      if used {
        usedLines, usedBytes := usedLines + 1, usedBytes + size;
      }
    }
    assert lines[|lines|..] == [];
    s := Score(count, total, usedLines, usedBytes);
  }

  method LineIsUsed(m: Matching, line: string, before: string, later: string) returns (used: bool)
    ensures used == Used(m, line, before, later)
  {
    var anchors := m.anchors(line);
    for j := 0 to |anchors|
      invariant forall k :: 0 <= k < j ==> Occurs(m.isWord, anchors[k], before) || !Occurs(m.isWord, anchors[k], later)
    {
      if Occurs(m.isWord, anchors[j], before) {
        continue;
      }
      if Occurs(m.isWord, anchors[j], later) {
        return true;
      }
    }
    return false;
  }

  /** A line without its terminator, as `text.splitlines()` gives it. */
  function Unterminated(line: string): (s: string) {
    if line != "" && IsBreak(Last(line)) then
      if |line| > 1 && Last(line) == '\n' && line[|line| - 2] == '\r' then line[..|line| - 2] else line[..|line| - 1]
    else line
  }

  /** What is dropped is the line's terminator and nothing else. */
  lemma UnterminatedIs(line: string)
    requires OneLine(line)
    ensures var s := Unterminated(line);
            && s <= line && (forall k :: 0 <= k < |s| ==> !IsBreak(s[k]))
            && (var end := line[|s|..]; end == "" || (|end| == 1 && IsBreak(end[0])) || end == "\r\n")
  {
    forall k | 0 <= k < |line| - 1
      ensures IsBreak(line[k]) ==> k == |line| - 2 && line[k] == '\r' && Last(line) == '\n'
    {
      OneLineInterior(line, k);
    }
  }

  predicate Rerequested(m: Matching, text: string, before: string, later: string) {
    var lines := SplitLines(text);
    exists i :: 0 <= i < |lines| && Used(m, Unterminated(lines[i]), before, later)
  }

  /** `count_rerequests`. */
  method CountRerequests(m: Matching, text: string, before: string, later: string) returns (n: nat)
    requires WellFormed(m)
    ensures n == if Rerequested(m, text, before, later) then 1 else 0
  {
    if later == "" {
      NothingInEmpty(m, text, before);
      return 0;
    }
    var lines := SplitLines(text);
    for i := 0 to |lines|
      invariant forall k :: 0 <= k < i ==> !Used(m, Unterminated(lines[k]), before, later)
    {
      var used := LineIsUsed(m, Unterminated(lines[i]), before, later);
      if used {
        return 1;
      }
    }
    return 0;
  }

  /** No anchor occurs in empty evidence, so the early return of `count_rerequests` changes nothing. */
  lemma NothingInEmpty(m: Matching, text: string, before: string)
    requires WellFormed(m)
    ensures !Rerequested(m, text, before, "")
  {
    forall line, i | 0 <= i < |m.anchors(line)| ensures !Occurs(m.isWord, m.anchors(line)[i], "") {
      AnchorsArePlain(m.isWord, line, m.anchors(line)[i]);
    }
  }

  // ---- one call's report, and the whole transcript ----

  /** Split a real total only when every line is used or every line is unused. */
  function AttributeTokens(total: Option<nat>, usedLines: nat, lines: nat): (r: (Option<nat>, Option<nat>)) {
    if total.None? || lines == 0 then (None, None)
    else if usedLines == lines then (total, Some(0))
    else if usedLines == 0 then (Some(0), total)
    else (None, None)
  }

  function EvidenceOf(m: Matching, events: seq<Event>, result: nat, tool: string, w: Where): (s: string) {
    JoinLines(Segments(m, events, |events|, result, tool, w))
  }

  /** The report of a call to `tool` that the result at index `result` answers. */
  function ReportFor(m: Matching, session: string, events: seq<Event>, result: nat, tool: string): (r: CallReport)
    requires result < |events| && events[result].Result?
  {
    var res := events[result];
    if res.body.None? || res.isError then
      CallReport(tool, session, 0, 0, 0, 0, res.isError, res.body.Some?, 0, None, None, None, None)
    else
      var before := EvidenceOf(m, events, result, tool, Before);
      var s := ScoreOf(m, SplitLines(res.body.value), before, EvidenceOf(m, events, result, tool, LaterUse));
      var again := if Rerequested(m, res.body.value, before,
                                  EvidenceOf(m, events, result, tool, LaterRerequest)) then 1 else 0;
      Scored(tool, session, res, s, again)
  }

  /** The report of a scored result. */
  function Scored(tool: string, session: string, res: Event, s: Score, again: nat): (r: CallReport)
    requires res.Result?
  {
    var afterCut := if res.cut.Some? || again == 0 then Some(if res.cut == Some(true) then again else 0) else None;
    var (used, unused) := AttributeTokens(res.tokens, s.usedLines, s.lines);
    CallReport(tool, session, s.bytes, s.usedBytes, s.lines, s.usedLines, false, true, again, afterCut, res.tokens,
               used, unused)
  }

  function ToolOf(m: Matching, p: Pairing, id: string): (tool: string) {
    if id in p.calls && p.calls[id].Call? && m.tool(p.calls[id].name).Some? then m.tool(p.calls[id].name).value else ""
  }

  /** The pairing's results point at results, and its calls are tool calls. */
  ghost predicate Grounded(m: Matching, events: seq<Event>, p: Pairing) {
    && (forall id <- p.results.Keys :: p.results[id] < |events| && events[p.results[id]].Result?)
    && (forall id <- p.calls.Keys :: IsToolCall(m, p.calls[id]))
  }

  lemma {:induction false} PairingIsGrounded(m: Matching, events: seq<Event>, n: nat)
    requires n <= |events|
    ensures Grounded(m, events, PairUpTo(m, events, n))
  {
    if n > 0 {
      PairingIsGrounded(m, events, n - 1);
    }
  }

  function ReportsFor(m: Matching, session: string, events: seq<Event>, p: Pairing,
                      ids: seq<string>): (reports: seq<CallReport>)
    requires Grounded(m, events, p)
  {
    if ids == [] then []
    else
      (if ids[0] in p.results then [ReportFor(m, session, events, p.results[ids[0]], ToolOf(m, p, ids[0]))] else [])
      + ReportsFor(m, session, events, p, ids[1..])
  }

  function Unpaired(p: Pairing, ids: seq<string>): (n: nat) {
    if ids == [] then 0 else (if ids[0] in p.results then 0 else 1) + Unpaired(p, ids[1..])
  }

  /** The first pass over the transcript. */
  method PairCalls(m: Matching, events: seq<Event>) returns (p: Pairing)
    ensures p == PairUpTo(m, events, |events|)
  {
    var order: seq<string>, calls: map<string, Event>, results: map<string, nat> := [], map[], map[];
    for i := 0 to |events|
      invariant Pairing(order, calls, results) == PairUpTo(m, events, i)
    {
      var e := events[i];
      if e.Call? && m.tool(e.name).Some? {
        if e.id !in calls {
          order, calls := order + [e.id], calls[e.id := e];
        }
      } else if e.Result? && e.id in calls && e.id !in results {
        results := results[e.id := i];
      }
    }
    p := Pairing(order, calls, results);
  }

  method ScoreCall(m: Matching, session: string, events: seq<Event>, result: nat, tool: string) returns (r: CallReport)
    requires WellFormed(m) && result < |events| && events[result].Result?
    ensures r == ReportFor(m, session, events, result, tool)
  {
    var res := events[result];
    var before, laterUse, laterRerequest := SplitEvidence(m, events, result, tool);
    r := CallReport(tool, session, 0, 0, 0, 0, res.isError, res.body.Some?, 0, None, None, None, None);
    if r.textStored && !res.isError {
      var s := ScoreLines(m, res.body.value, before, laterUse);
      r := r.(totalBytes := s.bytes, usedBytes := s.usedBytes, lines := s.lines, usedLines := s.usedLines);
      var again := CountRerequests(m, res.body.value, before, laterRerequest);
      r := r.(rerequestCalls := again);
      if res.cut.Some? || again == 0 {
        r := r.(rerequestAfterCut := Some(if res.cut == Some(true) then again else 0));
      }
      var (used, unused) := AttributeTokens(res.tokens, s.usedLines, s.lines);
      r := r.(totalTokens := res.tokens, usedTokens := used, unusedTokens := unused);
    }
  }

  /** The second pass: score the answered calls and count the others. */
  method ReportAll(m: Matching, session: string, events: seq<Event>, p: Pairing)
    returns (reports: seq<CallReport>, unpaired: nat)
    requires WellFormed(m) && Grounded(m, events, p)
    ensures reports == ReportsFor(m, session, events, p, p.order) && unpaired == Unpaired(p, p.order)
  {
    reports, unpaired := [], 0;
    for i := 0 to |p.order|
      invariant ReportsFor(m, session, events, p, p.order) == reports + ReportsFor(m, session, events, p, p.order[i..])
      invariant Unpaired(p, p.order) == unpaired + Unpaired(p, p.order[i..])
    {
      SliceStep(p.order, i);
      var id := p.order[i];
      ghost var rest := ReportsFor(m, session, events, p, p.order[i + 1..]);
      if id !in p.results {
        unpaired := unpaired + 1;
        Nil(rest);
      } else {
        var report := ScoreCall(m, session, events, p.results[id], ToolOf(m, p, id));
        Assoc(reports, [report], rest);
        reports := reports + [report];
      }
    }
    assert p.order[|p.order|..] == [];
    Nil(reports);
  }

  // ---- what the reports say ----

  lemma {:induction false} ReportsAndUnpaired(m: Matching, session: string, events: seq<Event>, p: Pairing,
                                              ids: seq<string>)
    requires Grounded(m, events, p)
    ensures |ReportsFor(m, session, events, p, ids)| + Unpaired(p, ids) == |ids|
  {
    if ids != [] {
      ReportsAndUnpaired(m, session, events, p, ids[1..]);
    }
  }

  /** Reports and unpaired calls together are exactly the distinct tool-call ids, and each report is
      scored at the first result that follows the id's first call. */
  lemma EveryCallIsAccountedFor(m: Matching, events: seq<Event>, session: string, id: string)
    ensures var p := PairUpTo(m, events, |events|);
            && Grounded(m, events, p) && Distinct(p.order)
            && |ReportsFor(m, session, events, p, p.order)| + Unpaired(p, p.order) == |p.order|
            && (id in p.order <==> HasCall(m, events, |events|, id))
            && (id in p.results <==> HasResult(m, events, |events|, id))
            && (id in p.results ==> FirstResult(m, events, |events|, id, p.results[id]))
  {
    PairingIsGrounded(m, events, |events|);
    PairingIsConsistent(m, events, |events|);
    PairedCalls(m, events, |events|, id);
    PairedResults(m, events, |events|, id);
    var p := PairUpTo(m, events, |events|);
    ReportsAndUnpaired(m, session, events, p, p.order);
  }

  lemma {:induction false} ScoreIsExact(m: Matching, lines: seq<string>, before: string, later: string)
    ensures var s := ScoreOf(m, lines, before, later);
            s.bytes == Utf8.Size(Concat(lines)) && s.lines == |lines| && s.usedBytes <= s.bytes
            && s.usedLines <= s.lines
  {
    if lines != [] {
      ScoreIsExact(m, lines[1..], before, later);
      Utf8.EncodeAppend(lines[0], Concat(lines[1..]));
    }
  }

  /** Exact accounting: a scored call's bytes are the size of its text whatever its line terminators,
      what was used never exceeds what there was, and a token split that is present adds up. */
  predicate ExactReport(r: CallReport, text: string, cut: Option<bool>) {
    && r.totalBytes == Utf8.Size(text) && r.lines == |SplitLines(text)|
    && r.usedBytes <= r.totalBytes && r.usedLines <= r.lines
    && (r.usedTokens.Some? <==> r.unusedTokens.Some?)
    && (r.usedTokens.Some? ==> r.totalTokens == Some(r.usedTokens.value + r.unusedTokens.value))
    && (r.rerequestAfterCut.None? <==> cut.None? && r.rerequestCalls > 0)
  }

  lemma ReportIsExact(m: Matching, session: string, events: seq<Event>, result: nat, tool: string)
    requires result < |events| && events[result].Result? && events[result].body.Some? && !events[result].isError
    ensures ExactReport(ReportFor(m, session, events, result, tool), events[result].body.value, events[result].cut)
  {
    var s, again := ReportIsScored(m, session, events, result, tool);
    ScoredIsExact(tool, session, events[result], s, again, events[result].body.value);
  }

  lemma ScoredIsExact(tool: string, session: string, res: Event, s: Score, again: nat, text: string)
    requires res.Result? && ExactScore(s, text)
    ensures ExactReport(Scored(tool, session, res, s, again), text, res.cut)
  {
  }

  predicate ExactScore(s: Score, text: string) {
    s.bytes == Utf8.Size(text) && s.lines == |SplitLines(text)| && s.usedBytes <= s.bytes && s.usedLines <= s.lines
  }

  lemma TextScoreIsExact(m: Matching, text: string, before: string, later: string)
    ensures ExactScore(ScoreOf(m, SplitLines(text), before, later), text)
  {
    SplitLinesExact(text);
    ScoreIsExact(m, SplitLines(text), before, later);
  }

  lemma ReportIsScored(m: Matching, session: string, events: seq<Event>, result: nat, tool: string)
    returns (s: Score, again: nat)
    requires result < |events| && events[result].Result? && events[result].body.Some? && !events[result].isError
    ensures ReportFor(m, session, events, result, tool) == Scored(tool, session, events[result], s, again)
    ensures ExactScore(s, events[result].body.value)
  {
    var text := events[result].body.value;
    var before, later := EvidenceOf(m, events, result, tool, Before), EvidenceOf(m, events, result, tool, LaterUse);
    s := ScoreOf(m, SplitLines(text), before, later);
    again := if Rerequested(m, text, before, EvidenceOf(m, events, result, tool, LaterRerequest)) then 1 else 0;
    TextScoreIsExact(m, text, before, later);
  }

  // ---- what a report says, event by event ----

  /** The event is the agent's own and the anchor occurs in it. */
  predicate Mentions(m: Matching, e: Event, a: Anchor) {
    match e
    case Call(_, _, evidence) => Occurs(m.isWord, a, evidence)
    case Said(said) => Occurs(m.isWord, a, said)
    case Result(_, _, _, _, _) => false
  }

  predicate NewAt(m: Matching, events: seq<Event>, result: nat, a: Anchor)
    requires result <= |events|
  {
    forall i :: 0 <= i < result ==> !Mentions(m, events[i], a)
  }

  /** Some event after the result mentions the anchor: a call of the same tool if `again`, and an event
      that is no such call if not. */
  predicate MentionedAfter(m: Matching, events: seq<Event>, result: nat, tool: string, a: Anchor, again: bool) {
    exists i :: result < i < |events| && Mentions(m, events[i], a)
                && again == (events[i].Call? && m.tool(events[i].name) == Some(tool))
  }

  /** The line has an anchor that is new at the result and is mentioned after it. */
  predicate Taken(m: Matching, events: seq<Event>, result: nat, tool: string, line: string, again: bool)
    requires result <= |events|
  {
    exists k :: 0 <= k < |m.anchors(line)| && NewAt(m, events, result, m.anchors(line)[k])
                && MentionedAfter(m, events, result, tool, m.anchors(line)[k], again)
  }

  function TakenOf(m: Matching, events: seq<Event>, result: nat, tool: string, lines: seq<string>): (taken: seq<string>)
    requires result <= |events|
  {
    if lines == [] then []
    else
      (if Taken(m, events, result, tool, lines[0], false) then [lines[0]] else [])
      + TakenOf(m, events, result, tool, lines[1..])
  }

  predicate AskedAgain(m: Matching, events: seq<Event>, result: nat, tool: string, lines: seq<string>)
    requires result <= |events|
  {
    exists i :: 0 <= i < |lines| && Taken(m, events, result, tool, Unterminated(lines[i]), true)
  }

  /** The token split a report may make: all to one side, or none. */
  predicate SplitsTokens(r: CallReport) {
    if r.totalTokens.Some? && r.lines > 0 && r.usedLines == r.lines then
      r.usedTokens == r.totalTokens && r.unusedTokens == Some(0)
    else if r.totalTokens.Some? && r.lines > 0 && r.usedLines == 0 then
      r.usedTokens == Some(0) && r.unusedTokens == r.totalTokens
    else r.usedTokens.None? && r.unusedTokens.None?
  }

  /** What is known of the re-requests that a cut result caused. */
  predicate BlamesCut(r: CallReport, cut: Option<bool>) {
    match cut
    case Some(true) => r.rerequestAfterCut == Some(r.rerequestCalls)
    case Some(false) => r.rerequestAfterCut == Some(0)
    case None => r.rerequestAfterCut == if r.rerequestCalls == 0 then Some(0) else None
  }

  /** The report says of the result at index `result` what the events say of it. */
  predicate ReportsUse(m: Matching, session: string, events: seq<Event>, result: nat, tool: string, r: CallReport)
    requires result < |events| && events[result].Result?
  {
    var res := events[result];
    && r.tool == tool && r.session == session && r.isError == res.isError && r.textStored == res.body.Some?
    && if res.isError || res.body.None? then
         && r.totalBytes == r.usedBytes == r.lines == r.usedLines == r.rerequestCalls == 0
         && r.rerequestAfterCut == r.totalTokens == r.usedTokens == r.unusedTokens == None
       else
         var lines := SplitLines(res.body.value);
         var taken := TakenOf(m, events, result, tool, lines);
         && r.lines == |lines| && r.totalBytes == Utf8.Size(res.body.value)
         && r.usedLines == |taken| && r.usedBytes == Utf8.Size(Concat(taken))
         && r.rerequestCalls == (if AskedAgain(m, events, result, tool, lines) then 1 else 0)
         && r.totalTokens == res.tokens && SplitsTokens(r) && BlamesCut(r, res.cut)
  }

  predicate MentionedAt(m: Matching, events: seq<Event>, n: nat, result: nat, tool: string, w: Where, a: Anchor)
    requires n <= |events|
  {
    exists i :: 0 <= i < n && Mentions(m, events[i], a) && Placed(m, events[i], i, result, tool) == w
  }

  lemma OccursInOneMore(isWord: WordClass, a: Anchor, segments: seq<string>, more: string)
    ensures OccursInSome(isWord, a, segments + [more]) <==> OccursInSome(isWord, a, segments) || Occurs(isWord, a, more)
  {
    var all := segments + [more];
    assert all[|segments|] == more;
    if OccursInSome(isWord, a, segments) {
      var i :| 0 <= i < |segments| && Occurs(isWord, a, segments[i]);
      assert all[i] == segments[i];
    }
  }

  lemma {:induction false} SegmentsMention(m: Matching, events: seq<Event>, n: nat, result: nat, tool: string, w: Where,
                                           a: Anchor)
    requires n <= |events|
    ensures OccursInSome(m.isWord, a, Segments(m, events, n, result, tool, w)) <==>
            MentionedAt(m, events, n, result, tool, w, a)
  {
    if n > 0 {
      SegmentsMention(m, events, n - 1, result, tool, w, a);
      var e := events[n - 1];
      var segments := Segments(m, events, n - 1, result, tool, w);
      if Authored(e) && Placed(m, e, n - 1, result, tool) == w {
        OccursInOneMore(m.isWord, a, segments, AuthoredText(e));
      } else {
        Nil(segments);
      }
      MentionedStep(m, events, n, result, tool, w, a);
    }
  }

  lemma MentionedStep(m: Matching, events: seq<Event>, n: nat, result: nat, tool: string, w: Where, a: Anchor)
    requires 0 < n <= |events|
    ensures MentionedAt(m, events, n, result, tool, w, a) <==>
            || MentionedAt(m, events, n - 1, result, tool, w, a)
            || (Mentions(m, events[n - 1], a) && Placed(m, events[n - 1], n - 1, result, tool) == w)
  {
    if MentionedAt(m, events, n, result, tool, w, a) {
      var i :| 0 <= i < n && Mentions(m, events[i], a) && Placed(m, events[i], i, result, tool) == w;
      assert i < n - 1 || i == n - 1;
    }
  }

  lemma EvidenceMentions(m: Matching, events: seq<Event>, result: nat, tool: string, w: Where, a: Anchor)
    requires Plain(a)
    ensures Occurs(m.isWord, a, EvidenceOf(m, events, result, tool, w)) <==>
            MentionedAt(m, events, |events|, result, tool, w, a)
  {
    JoinIsFaithful(m.isWord, a, Segments(m, events, |events|, result, tool, w));
    SegmentsMention(m, events, |events|, result, tool, w, a);
  }

  lemma AnchorIsTaken(m: Matching, events: seq<Event>, result: nat, tool: string, a: Anchor, again: bool)
    requires Plain(a) && result < |events| && events[result].Result?
    ensures Occurs(m.isWord, a, EvidenceOf(m, events, result, tool, Before)) <==> !NewAt(m, events, result, a)
    ensures Occurs(m.isWord, a, EvidenceOf(m, events, result, tool, if again then LaterRerequest else LaterUse)) <==>
            MentionedAfter(m, events, result, tool, a, again)
  {
    var later := if again then LaterRerequest else LaterUse;
    EvidenceMentions(m, events, result, tool, Before, a);
    EvidenceMentions(m, events, result, tool, later, a);
    if MentionedAt(m, events, |events|, result, tool, later, a) {
      var i :| 0 <= i < |events| && Mentions(m, events[i], a) && Placed(m, events[i], i, result, tool) == later;
      assert result < i;
    }
    if MentionedAfter(m, events, result, tool, a, again) {
      var i :| result < i < |events| && Mentions(m, events[i], a)
               && again == (events[i].Call? && m.tool(events[i].name) == Some(tool));
      assert Placed(m, events[i], i, result, tool) == later;
    }
  }

  lemma LineIsTaken(m: Matching, events: seq<Event>, result: nat, tool: string, line: string, again: bool)
    requires WellFormed(m) && result < |events| && events[result].Result?
    ensures Used(m, line, EvidenceOf(m, events, result, tool, Before),
                 EvidenceOf(m, events, result, tool, if again then LaterRerequest else LaterUse)) <==>
            Taken(m, events, result, tool, line, again)
  {
    forall k | 0 <= k < |m.anchors(line)|
      ensures Occurs(m.isWord, m.anchors(line)[k], EvidenceOf(m, events, result, tool, Before)) <==>
              !NewAt(m, events, result, m.anchors(line)[k])
      ensures Occurs(m.isWord, m.anchors(line)[k],
                     EvidenceOf(m, events, result, tool, if again then LaterRerequest else LaterUse)) <==>
              MentionedAfter(m, events, result, tool, m.anchors(line)[k], again)
    {
      AnchorsArePlain(m.isWord, line, m.anchors(line)[k]);
      AnchorIsTaken(m, events, result, tool, m.anchors(line)[k], again);
    }
  }

  lemma {:induction false} ScoreIsTaken(m: Matching, events: seq<Event>, result: nat, tool: string, lines: seq<string>)
    requires WellFormed(m) && result < |events| && events[result].Result?
    ensures var s := ScoreOf(m, lines, EvidenceOf(m, events, result, tool, Before),
                             EvidenceOf(m, events, result, tool, LaterUse));
            var taken := TakenOf(m, events, result, tool, lines);
            s.usedLines == |taken| && s.usedBytes == Utf8.Size(Concat(taken))
  {
    if lines != [] {
      ScoreIsTaken(m, events, result, tool, lines[1..]);
      LineIsTaken(m, events, result, tool, lines[0], false);
      var rest := TakenOf(m, events, result, tool, lines[1..]);
      if Taken(m, events, result, tool, lines[0], false) {
        Cons(lines[0], rest);
        Utf8.EncodeAppend(lines[0], Concat(rest));
      } else {
        Nil(rest);
      }
    }
  }

  lemma RerequestIsAsked(m: Matching, events: seq<Event>, result: nat, tool: string, text: string)
    requires WellFormed(m) && result < |events| && events[result].Result?
    ensures Rerequested(m, text, EvidenceOf(m, events, result, tool, Before),
                        EvidenceOf(m, events, result, tool, LaterRerequest)) <==>
            AskedAgain(m, events, result, tool, SplitLines(text))
  {
    var lines := SplitLines(text);
    forall i | 0 <= i < |lines|
      ensures Used(m, Unterminated(lines[i]), EvidenceOf(m, events, result, tool, Before),
                   EvidenceOf(m, events, result, tool, LaterRerequest)) <==>
              Taken(m, events, result, tool, Unterminated(lines[i]), true)
    {
      LineIsTaken(m, events, result, tool, Unterminated(lines[i]), true);
    }
  }

  lemma ScoredSays(tool: string, session: string, res: Event, s: Score, again: nat)
    requires res.Result?
    ensures var r := Scored(tool, session, res, s, again);
            && r.tool == tool && r.session == session && !r.isError && r.textStored
            && r.lines == s.lines && r.totalBytes == s.bytes && r.usedLines == s.usedLines && r.usedBytes == s.usedBytes
            && r.rerequestCalls == again && r.totalTokens == res.tokens && SplitsTokens(r) && BlamesCut(r, res.cut)
  {
  }

  /** A report says of its result what the events say: its used lines are those with an anchor that
      nothing the agent wrote before the result mentions and something it wrote after it does, other
      than in another call of the same tool, and it is re-requested if such a call mentions one. */
  lemma ReportIsUse(m: Matching, session: string, events: seq<Event>, result: nat, tool: string)
    requires WellFormed(m) && result < |events| && events[result].Result?
    ensures ReportsUse(m, session, events, result, tool, ReportFor(m, session, events, result, tool))
  {
    if events[result].body.Some? && !events[result].isError {
      var text := events[result].body.value;
      ScoreIsTaken(m, events, result, tool, SplitLines(text));
      RerequestIsAsked(m, events, result, tool, text);
      var before, later := EvidenceOf(m, events, result, tool, Before), EvidenceOf(m, events, result, tool, LaterUse);
      TextScoreIsExact(m, text, before, later);
      var again := if AskedAgain(m, events, result, tool, SplitLines(text)) then 1 else 0;
      ScoredSays(tool, session, events[result], ScoreOf(m, SplitLines(text), before, later), again);
    }
  }

  // ---- which calls are reported ----

  /** The first calls of their ids among the first `n` events, in order: those with a result anywhere
      in the transcript, or those without one. */
  function CallsThat(m: Matching, events: seq<Event>, n: nat, answered: bool): (calls: seq<nat>)
    requires n <= |events|
  {
    if n == 0 then []
    else
      var e := events[n - 1];
      CallsThat(m, events, n - 1, answered)
      + (if IsToolCall(m, e) && !HasCall(m, events, n - 1, e.id) && HasResult(m, events, |events|, e.id) == answered
         then [n - 1] else [])
  }

  /** The report is that of the tool call at index `i`, scored at the first result that follows it. */
  ghost predicate ReportsCall(m: Matching, session: string, events: seq<Event>, i: nat, r: CallReport) {
    && i < |events| && IsToolCall(m, events[i])
    && exists j: nat :: FirstResult(m, events, |events|, events[i].id, j)
                        && ReportsUse(m, session, events, j, m.tool(events[i].name).value, r)
  }

  ghost predicate ReportsCalls(m: Matching, session: string, events: seq<Event>, calls: seq<nat>,
                               reports: seq<CallReport>) {
    |reports| == |calls| && forall k :: 0 <= k < |calls| ==> ReportsCall(m, session, events, calls[k], reports[k])
  }

  lemma {:induction false} ReportsForAppend(m: Matching, session: string, events: seq<Event>, p: Pairing,
                                            ids: seq<string>, id: string)
    requires Grounded(m, events, p)
    ensures ReportsFor(m, session, events, p, ids + [id])
            == ReportsFor(m, session, events, p, ids) + ReportsFor(m, session, events, p, [id])
    ensures Unpaired(p, ids + [id]) == Unpaired(p, ids) + Unpaired(p, [id])
  {
    var last := ReportsFor(m, session, events, p, [id]);
    if ids == [] {
      assert ids + [id] == [id];
      Nil(last);
    } else {
      ReportsForAppend(m, session, events, p, ids[1..], id);
      TailOfAppend(ids, [id]);
      var first := if ids[0] in p.results then
                     [ReportFor(m, session, events, p.results[ids[0]], ToolOf(m, p, ids[0]))] else [];
      Assoc(first, ReportsFor(m, session, events, p, ids[1..]), last);
    }
  }

  lemma OneReport(m: Matching, session: string, events: seq<Event>, p: Pairing, n: nat)
    requires WellFormed(m) && n < |events| && IsToolCall(m, events[n]) && !HasCall(m, events, n, events[n].id)
    requires p == PairUpTo(m, events, |events|) && Grounded(m, events, p)
    ensures var id := events[n].id;
            var reports := ReportsFor(m, session, events, p, [id]);
            && |reports| == (if HasResult(m, events, |events|, id) then 1 else 0)
            && Unpaired(p, [id]) == 1 - |reports|
            && (reports != [] ==> ReportsCall(m, session, events, n, reports[0]))
  {
    var id := events[n].id;
    PairedCalls(m, events, |events|, id);
    PairedResults(m, events, |events|, id);
    var i: nat :| FirstCall(m, events, |events|, id, i) && p.calls[id] == events[i];
    assert i == n;
    assert [id][1..] == [];
    if id in p.results {
      ReportIsUse(m, session, events, p.results[id], ToolOf(m, p, id));
      Nil([ReportFor(m, session, events, p.results[id], ToolOf(m, p, id))]);
    }
  }

  lemma ReportsCallsAppend(m: Matching, session: string, events: seq<Event>, calls: seq<nat>, reports: seq<CallReport>,
                           i: nat, more: seq<CallReport>)
    requires ReportsCalls(m, session, events, calls, reports) && |more| <= 1
    requires more != [] ==> ReportsCall(m, session, events, i, more[0])
    ensures ReportsCalls(m, session, events, calls + (if more != [] then [i] else []), reports + more)
  {
    var all := calls + if more != [] then [i] else [];
    forall k | 0 <= k < |all| ensures ReportsCall(m, session, events, all[k], (reports + more)[k]) {
      assert k == |calls| || all[k] == calls[k];
    }
  }

  lemma CallsStep(m: Matching, events: seq<Event>, n: nat, answered: bool)
    requires 0 < n <= |events| && IsToolCall(m, events[n - 1]) && !HasCall(m, events, n - 1, events[n - 1].id)
    ensures CallsThat(m, events, n, answered)
            == CallsThat(m, events, n - 1, answered)
               + (if HasResult(m, events, |events|, events[n - 1].id) == answered then [n - 1] else [])
  {
  }

  lemma NewCallIsReported(m: Matching, session: string, events: seq<Event>, p: Pairing, ids: seq<string>, n: nat)
    requires WellFormed(m) && n < |events|
    requires p == PairUpTo(m, events, |events|) && Grounded(m, events, p)
    requires IsToolCall(m, events[n]) && !HasCall(m, events, n, events[n].id)
    requires ReportsCalls(m, session, events, CallsThat(m, events, n, true), ReportsFor(m, session, events, p, ids))
    requires Unpaired(p, ids) == |CallsThat(m, events, n, false)|
    ensures ReportsCalls(m, session, events, CallsThat(m, events, n + 1, true),
                         ReportsFor(m, session, events, p, ids + [events[n].id]))
    ensures Unpaired(p, ids + [events[n].id]) == |CallsThat(m, events, n + 1, false)|
  {
    var calls, reports := CallsThat(m, events, n, true), ReportsFor(m, session, events, p, ids);
    var more := ReportsFor(m, session, events, p, [events[n].id]);
    OneReport(m, session, events, p, n);
    ReportsForAppend(m, session, events, p, ids, events[n].id);
    CallsStep(m, events, n + 1, true);
    CallsStep(m, events, n + 1, false);
    ReportsCallsAppend(m, session, events, calls, reports, n, more);
  }

  lemma OrderStep(m: Matching, events: seq<Event>, n: nat)
    requires 0 < n <= |events|
    ensures var was, now, e := PairUpTo(m, events, n - 1).order, PairUpTo(m, events, n).order, events[n - 1];
            if IsToolCall(m, e) && !HasCall(m, events, n - 1, e.id) then now == was + [e.id] else now == was
  {
    if IsToolCall(m, events[n - 1]) {
      PairedCalls(m, events, n - 1, events[n - 1].id);
    }
  }

  lemma NoCallsStep(m: Matching, events: seq<Event>, n: nat, answered: bool)
    requires 0 < n <= |events| && !(IsToolCall(m, events[n - 1]) && !HasCall(m, events, n - 1, events[n - 1].id))
    ensures CallsThat(m, events, n, answered) == CallsThat(m, events, n - 1, answered)
  {
    Nil(CallsThat(m, events, n - 1, answered));
  }

  lemma {:induction false} ReportsAreOfCalls(m: Matching, session: string, events: seq<Event>, p: Pairing, n: nat)
    requires WellFormed(m) && n <= |events|
    requires p == PairUpTo(m, events, |events|) && Grounded(m, events, p)
    ensures var ids := PairUpTo(m, events, n).order;
            && ReportsCalls(m, session, events, CallsThat(m, events, n, true), ReportsFor(m, session, events, p, ids))
            && Unpaired(p, ids) == |CallsThat(m, events, n, false)|
  {
    if n > 0 {
      ReportsAreOfCalls(m, session, events, p, n - 1);
      OrderStep(m, events, n);
      if IsToolCall(m, events[n - 1]) && !HasCall(m, events, n - 1, events[n - 1].id) {
        NewCallIsReported(m, session, events, p, PairUpTo(m, events, n - 1).order, n - 1);
      } else {
        NoCallsStep(m, events, n, true);
        NoCallsStep(m, events, n, false);
      }
    }
  }

  /** `analyze`: a report for every answered tool call, in the order the calls were first made, which
      says of the first result after the call what the events say of it; and the number of calls
      without a result. */
  method Analyze(m: Matching, events: seq<Event>, session: string) returns (reports: seq<CallReport>, unpaired: nat)
    requires WellFormed(m)
    ensures ReportsCalls(m, session, events, CallsThat(m, events, |events|, true), reports)
    ensures unpaired == |CallsThat(m, events, |events|, false)|
    ensures Grounded(m, events, PairUpTo(m, events, |events|))
    ensures var p := PairUpTo(m, events, |events|);
            reports == ReportsFor(m, session, events, p, p.order) && unpaired == Unpaired(p, p.order)
  {
    var p := PairCalls(m, events);
    PairingIsGrounded(m, events, |events|);
    reports, unpaired := ReportAll(m, session, events, p);
    ReportsAreOfCalls(m, session, events, p, |events|);
  }
}
