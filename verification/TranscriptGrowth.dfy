/** What a longer transcript changes: answered calls stay answered, and use only grows. */
module TranscriptGrowth {
  import opened Text
  import opened Evidence
  import opened Scorer

  // ---- growing transcripts ----

  lemma {:induction false} PairingOfPrefix(m: Matching, events: seq<Event>, more: seq<Event>, n: nat)
    requires n <= |events|
    ensures PairUpTo(m, events + more, n) == PairUpTo(m, events, n)
  {
    if n > 0 {
      PairingOfPrefix(m, events, more, n - 1);
      assert (events + more)[n - 1] == events[n - 1];
    }
  }

  /** Later events never change a call or a result that was already found. */
  lemma {:induction false} PairingOnlyGrows(m: Matching, events: seq<Event>, n: nat, k: nat)
    requires n <= k <= |events|
    ensures var p, q := PairUpTo(m, events, n), PairUpTo(m, events, k);
            && (forall id :: id in p.calls ==> id in q.calls && q.calls[id] == p.calls[id])
            && (forall id :: id in p.results ==> id in q.results && q.results[id] == p.results[id])
            && p.order <= q.order
    decreases k
  {
    if n < k {
      PairingOnlyGrows(m, events, n, k - 1);
    }
  }

  lemma {:induction false} SegmentsOfPrefix(m: Matching, events: seq<Event>, more: seq<Event>, n: nat, result: nat,
                                            tool: string, w: Where)
    requires n <= |events|
    ensures Segments(m, events + more, n, result, tool, w) == Segments(m, events, n, result, tool, w)
  {
    if n > 0 {
      SegmentsOfPrefix(m, events, more, n - 1, result, tool, w);
      assert (events + more)[n - 1] == events[n - 1];
    }
  }

  lemma {:induction false} SegmentsOnlyGrow(m: Matching, events: seq<Event>, n: nat, k: nat, result: nat, tool: string,
                                            w: Where)
    requires n <= k <= |events|
    ensures Segments(m, events, n, result, tool, w) <= Segments(m, events, k, result, tool, w)
    ensures w == Before && result <= n ==>
              Segments(m, events, n, result, tool, w) == Segments(m, events, k, result, tool, w)
    decreases k
  {
    if n < k {
      SegmentsOnlyGrow(m, events, n, k - 1, result, tool, w);
    }
  }

  /** Appending events leaves the evidence before a result alone and only adds segments after it. */
  lemma EvidenceGrows(m: Matching, events: seq<Event>, more: seq<Event>, result: nat, tool: string, w: Where)
    requires result <= |events|
    ensures var was := Segments(m, events, |events|, result, tool, w);
            var now := Segments(m, events + more, |events + more|, result, tool, w);
            was <= now && (w == Before ==> was == now)
  {
    SegmentsOfPrefix(m, events, more, |events|, result, tool, w);
    SegmentsOnlyGrow(m, events + more, |events|, |events + more|, result, tool, w);
  }

  lemma OccursInMore(m: Matching, a: Anchor, was: seq<string>, now: seq<string>)
    requires Plain(a) && was <= now && Occurs(m.isWord, a, JoinLines(was))
    ensures Occurs(m.isWord, a, JoinLines(now))
  {
    JoinIsFaithful(m.isWord, a, was);
    JoinIsFaithful(m.isWord, a, now);
    var i :| 0 <= i < |was| && Occurs(m.isWord, a, was[i]);
    assert now[i] == was[i];
  }

  /** A used line stays used when evidence is added after the result. */
  lemma UsedStaysUsed(m: Matching, line: string, before: string, was: seq<string>, now: seq<string>)
    requires WellFormed(m) && was <= now && Used(m, line, before, JoinLines(was))
    ensures Used(m, line, before, JoinLines(now))
  {
    var i :| 0 <= i < |m.anchors(line)| && !Occurs(m.isWord, m.anchors(line)[i], before)
             && Occurs(m.isWord, m.anchors(line)[i], JoinLines(was));
    AnchorsArePlain(m.isWord, line, m.anchors(line)[i]);
    OccursInMore(m, m.anchors(line)[i], was, now);
  }

  lemma {:induction false} ScoreOnlyGrows(m: Matching, lines: seq<string>, before: string, was: seq<string>,
                                          now: seq<string>)
    requires WellFormed(m) && was <= now
    ensures var s, t := ScoreOf(m, lines, before, JoinLines(was)), ScoreOf(m, lines, before, JoinLines(now));
            s.usedLines <= t.usedLines && s.usedBytes <= t.usedBytes && s.lines == t.lines && s.bytes == t.bytes
  {
    if lines != [] {
      ScoreOnlyGrows(m, lines[1..], before, was, now);
      if Used(m, lines[0], before, JoinLines(was)) {
        UsedStaysUsed(m, lines[0], before, was, now);
      }
    }
  }

  lemma RerequestStays(m: Matching, text: string, before: string, was: seq<string>, now: seq<string>)
    requires WellFormed(m) && was <= now && Rerequested(m, text, before, JoinLines(was))
    ensures Rerequested(m, text, before, JoinLines(now))
  {
    var lines := SplitLines(text);
    var i :| 0 <= i < |lines| && Used(m, Unterminated(lines[i]), before, JoinLines(was));
    UsedStaysUsed(m, Unterminated(lines[i]), before, was, now);
  }

  /** What grows and what stays when a transcript grows. */
  ghost predicate Refines(was: CallReport, now: CallReport) {
    && now.tool == was.tool && now.session == was.session && now.isError == was.isError
    && now.textStored == was.textStored
    && now.totalBytes == was.totalBytes && now.lines == was.lines && now.totalTokens == was.totalTokens
    && was.usedBytes <= now.usedBytes && was.usedLines <= now.usedLines && was.rerequestCalls <= now.rerequestCalls
  }

  lemma ReportOnlyGrows(m: Matching, session: string, events: seq<Event>, more: seq<Event>, result: nat, tool: string)
    requires WellFormed(m) && result < |events| && events[result].Result?
    ensures (events + more)[result] == events[result]
    ensures Refines(ReportFor(m, session, events, result, tool), ReportFor(m, session, events + more, result, tool))
  {
    var all := events + more;
    assert all[result] == events[result];
    EvidenceGrows(m, events, more, result, tool, Before);
    EvidenceGrows(m, events, more, result, tool, LaterUse);
    EvidenceGrows(m, events, more, result, tool, LaterRerequest);
    if events[result].body.Some? {
      var text, before := events[result].body.value, EvidenceOf(m, events, result, tool, Before);
      var was := Segments(m, events, |events|, result, tool, LaterUse);
      var now := Segments(m, all, |all|, result, tool, LaterUse);
      ScoreOnlyGrows(m, SplitLines(text), before, was, now);
      var asked := Segments(m, events, |events|, result, tool, LaterRerequest);
      var askedNow := Segments(m, all, |all|, result, tool, LaterRerequest);
      if Rerequested(m, text, before, JoinLines(asked)) {
        RerequestStays(m, text, before, asked, askedNow);
      }
    }
  }

  /** Monotonicity: appending events to a transcript keeps every answered call answered by the same
      result, and never lowers its used lines, used bytes or re-request count. */
  lemma AppendingNeverLowersUse(m: Matching, session: string, events: seq<Event>, more: seq<Event>, id: string)
    requires WellFormed(m) && id in PairUpTo(m, events, |events|).results
    ensures var p, q := PairUpTo(m, events, |events|), PairUpTo(m, events + more, |events + more|);
            && Grounded(m, events, p) && Grounded(m, events + more, q)
            && id in q.results && q.results[id] == p.results[id] && ToolOf(m, q, id) == ToolOf(m, p, id)
            && Refines(ReportFor(m, session, events, p.results[id], ToolOf(m, p, id)),
                       ReportFor(m, session, events + more, q.results[id], ToolOf(m, q, id)))
  {
    var all := events + more;
    PairingIsGrounded(m, events, |events|);
    PairingIsGrounded(m, all, |all|);
    PairingIsConsistent(m, events, |events|);
    PairingOfPrefix(m, events, more, |events|);
    PairingOnlyGrows(m, all, |events|, |all|);
    var p := PairUpTo(m, events, |events|);
    assert id in p.calls;
    ReportOnlyGrows(m, session, events, more, p.results[id], ToolOf(m, p, id));
  }
}
