/** Reporting over many calls: per-tool rows, the all-tools row over those rows, and token coverage.
    The two-level sum agrees with one flat pass over the calls. */
module Aggregation {
  import opened Options
  import opened Text
  import opened Scorer

  // ---- sums in which one missing value makes the total null ----

  /** A running total: nothing measured yet, a value missing, or a measured sum. */
  datatype Sum = Nothing | Null | Measured(n: nat)

  function Plus(a: Sum, b: Sum): (r: Sum) {
    if a.Nothing? then b else if b.Nothing? then a
    else if a.Measured? && b.Measured? then Measured(a.n + b.n) else Null
  }

  function Once(v: Option<nat>): (r: Sum) {
    if v.None? then Null else Measured(v.value)
  }

  function Value(a: Sum): (v: Option<nat>) {
    if a.Measured? then Some(a.n) else None
  }

  /** `add_optional`: the running total is `current`, meaningful only once something was `seen`. */
  function AddOptional(current: Option<nat>, incoming: Option<nat>, seen: bool): (r: (Option<nat>, bool)) {
    if incoming.None? then (None, true)
    else if !seen then (incoming, true)
    else if current.None? then (None, true)
    else (Some(current.value + incoming.value), true)
  }

  /** The pair `add_optional` carries stands for a running total. */
  predicate Carries(current: Option<nat>, seen: bool, a: Sum) {
    seen == !a.Nothing? && current == Value(a)
  }

  lemma AddOptionalIsPlus(current: Option<nat>, incoming: Option<nat>, seen: bool, a: Sum)
    requires Carries(current, seen, a)
    ensures var (next, s) := AddOptional(current, incoming, seen);
            Carries(next, s, Plus(a, Once(incoming)))
  {
  }

  // ---- what one report contributes ----

  datatype Counts = Counts(
    calls: nat, errorCalls: nat, withoutText: nat, zeroUsed: nat, rerequests: nat, withoutTokens: nat,
    withoutCut: nat, totalBytes: nat, usedBytes: nat, lines: nat, usedLines: nat)

  const ZERO := Counts(0, 0, 0, 0, 0, 0, 0, 0, 0, 0, 0)

  function Add(a: Counts, b: Counts): (c: Counts) {
    Counts(a.calls + b.calls, a.errorCalls + b.errorCalls, a.withoutText + b.withoutText, a.zeroUsed + b.zeroUsed,
           a.rerequests + b.rerequests, a.withoutTokens + b.withoutTokens, a.withoutCut + b.withoutCut,
           a.totalBytes + b.totalBytes, a.usedBytes + b.usedBytes, a.lines + b.lines, a.usedLines + b.usedLines)
  }

  /** A tally: plain counters and the four null-absorbing sums. */
  datatype Tally = Tally(counts: Counts, total: Sum, used: Sum, unused: Sum, afterCut: Sum)

  const EMPTY := Tally(ZERO, Nothing, Nothing, Nothing, Nothing)

  function Combine(a: Tally, b: Tally): (c: Tally) {
    Tally(Add(a.counts, b.counts), Plus(a.total, b.total), Plus(a.used, b.used), Plus(a.unused, b.unused),
          Plus(a.afterCut, b.afterCut))
  }

  predicate Scored(r: CallReport) {
    !r.isError && r.textStored
  }

  function One(b: bool): nat {
    if b then 1 else 0
  }

  function TallyOf(r: CallReport): (t: Tally) {
    if r.isError then EMPTY.(counts := ZERO.(calls := 1, errorCalls := 1))
    else if !r.textStored then EMPTY.(counts := ZERO.(calls := 1, withoutText := 1))
    else
      Tally(Counts(1, 0, 0, One(r.usedLines == 0), r.rerequestCalls, One(r.totalTokens.None?),
                   One(r.rerequestAfterCut.None?), r.totalBytes, r.usedBytes, r.lines, r.usedLines),
            Once(r.totalTokens), Once(r.usedTokens), Once(r.unusedTokens), Once(r.rerequestAfterCut))
  }

  /** One flat pass over the calls. */
  function Flat(reports: seq<CallReport>): (t: Tally) {
    if reports == [] then EMPTY else Combine(TallyOf(reports[0]), Flat(reports[1..]))
  }

  lemma CombineLaws(a: Tally, b: Tally, c: Tally)
    ensures Combine(a, b) == Combine(b, a)
    ensures Combine(Combine(a, b), c) == Combine(a, Combine(b, c))
    ensures Combine(EMPTY, a) == a
  {
  }

  // ---- what a tally says of the calls ----

  function Total(reports: seq<CallReport>, f: CallReport -> nat): (n: nat) {
    if reports == [] then 0 else f(reports[0]) + Total(reports[1..], f)
  }

  /** Every counter counts or adds up what its name says: errors over all calls, missing texts over
      those without an error, and everything else over the calls that were scored. */
  lemma {:induction false} CountsAre(reports: seq<CallReport>)
    ensures var c := Flat(reports).counts;
            && c.calls == |reports|
            && c.errorCalls == Total(reports, (r: CallReport) => One(r.isError))
            && c.withoutText == Total(reports, (r: CallReport) => One(!r.isError && !r.textStored))
            && c.zeroUsed == Total(reports, (r: CallReport) => One(Scored(r) && r.usedLines == 0))
            && c.withoutTokens == Total(reports, (r: CallReport) => One(Scored(r) && r.totalTokens.None?))
            && c.withoutCut == Total(reports, (r: CallReport) => One(Scored(r) && r.rerequestAfterCut.None?))
  {
    if reports != [] {
      CountsAre(reports[1..]);
    }
  }

  lemma {:induction false} AmountsAre(reports: seq<CallReport>)
    ensures var c := Flat(reports).counts;
            && c.rerequests == Total(reports, (r: CallReport) => if Scored(r) then r.rerequestCalls else 0)
            && c.totalBytes == Total(reports, (r: CallReport) => if Scored(r) then r.totalBytes else 0)
            && c.usedBytes == Total(reports, (r: CallReport) => if Scored(r) then r.usedBytes else 0)
            && c.lines == Total(reports, (r: CallReport) => if Scored(r) then r.lines else 0)
            && c.usedLines == Total(reports, (r: CallReport) => if Scored(r) then r.usedLines else 0)
  {
    if reports != [] {
      AmountsAre(reports[1..]);
    }
  }

  /** The null-absorbing sum of one figure over the scored calls. */
  function Figures(reports: seq<CallReport>, f: CallReport -> Option<nat>): (a: Sum) {
    if reports == [] then Nothing
    else Plus(if Scored(reports[0]) then Once(f(reports[0])) else Nothing, Figures(reports[1..], f))
  }

  lemma {:induction false} SumsAre(reports: seq<CallReport>)
    ensures var t := Flat(reports);
            && t.total == Figures(reports, (r: CallReport) => r.totalTokens)
            && t.used == Figures(reports, (r: CallReport) => r.usedTokens)
            && t.unused == Figures(reports, (r: CallReport) => r.unusedTokens)
            && t.afterCut == Figures(reports, (r: CallReport) => r.rerequestAfterCut)
  {
    if reports != [] {
      SumsAre(reports[1..]);
    }
  }

  /** It has a value exactly when some call was scored and none of those lacks the figure, and then it is
      their sum. */
  lemma {:induction false} FiguresAre(reports: seq<CallReport>, f: CallReport -> Option<nat>)
    ensures Figures(reports, f).Nothing? <==> forall r <- reports :: !Scored(r)
    ensures Figures(reports, f).Measured? <==>
            (exists r <- reports :: Scored(r)) && forall r <- reports :: Scored(r) ==> f(r).Some?
    ensures Figures(reports, f).Measured? ==>
              Figures(reports, f).n
              == Total(reports, (r: CallReport) => if Scored(r) && f(r).Some? then f(r).value else 0)
  {
    if reports != [] {
      FiguresAre(reports[1..], f);
      Uncons(reports);
      if forall r <- reports[1..] :: !Scored(r) {
        NothingToAdd(reports[1..], r => if Scored(r) && f(r).Some? then f(r).value else 0);
      }
    }
  }

  lemma {:induction false} NothingToAdd(reports: seq<CallReport>, f: CallReport -> nat)
    requires forall r <- reports :: f(r) == 0
    ensures Total(reports, f) == 0
  {
    if reports != [] {
      NothingToAdd(reports[1..], f);
    }
  }

  // ---- aggregate: one tally per tool ----

  function OfTool(reports: seq<CallReport>, tool: string): (r: seq<CallReport>) {
    if reports == [] then [] else (if reports[0].tool == tool then [reports[0]] else []) + OfTool(reports[1..], tool)
  }

  lemma {:induction false} FlatAppend(a: seq<CallReport>, b: seq<CallReport>)
    ensures Flat(a + b) == Combine(Flat(a), Flat(b))
  {
    if a == [] {
      Nil(b);
      CombineLaws(Flat(b), Flat(b), Flat(b));
    } else {
      assert (a + b)[1..] == a[1..] + b;
      FlatAppend(a[1..], b);
      CombineLaws(TallyOf(a[0]), Flat(a[1..]), Flat(b));
    }
  }

  lemma {:induction false} OfToolAppend(a: seq<CallReport>, b: seq<CallReport>, tool: string)
    ensures OfTool(a + b, tool) == OfTool(a, tool) + OfTool(b, tool)
  {
    if a == [] {
      Nil(b);
      Nil(OfTool(b, tool));
    } else {
      assert (a + b)[1..] == a[1..] + b;
      OfToolAppend(a[1..], b, tool);
      Assoc(if a[0].tool == tool then [a[0]] else [], OfTool(a[1..], tool), OfTool(b, tool));
    }
  }

  /** The dictionaries `aggregate` fills for one tool. */
  datatype Acc = Acc(counts: Counts, total: Option<nat>, used: Option<nat>, unused: Option<nat>, tokenSeen: bool,
                     afterCut: Option<nat>, cutSeen: bool, sessions: set<string>)

  const NO_ACC := Acc(ZERO, None, None, None, false, None, false, {})

  /** The accumulator carries the tally of the tool's calls so far. */
  predicate Holds(a: Acc, t: Tally) {
    && a.counts == t.counts
    && Carries(a.total, a.tokenSeen, t.total) && Carries(a.used, a.tokenSeen, t.used)
    && Carries(a.unused, a.tokenSeen, t.unused)
    && Carries(a.afterCut, a.cutSeen, t.afterCut)
  }

  function Accumulate(a: Acc, r: CallReport): (b: Acc) {
    var seen := a.(sessions := a.sessions + {r.session}, counts := a.counts.(calls := a.counts.calls + 1));
    if r.isError then seen.(counts := seen.counts.(errorCalls := seen.counts.errorCalls + 1))
    else if !r.textStored then seen.(counts := seen.counts.(withoutText := seen.counts.withoutText + 1))
    else
      var c := seen.counts;
      var counts := c.(zeroUsed := c.zeroUsed + One(r.usedLines == 0), rerequests := c.rerequests + r.rerequestCalls,
                       withoutTokens := c.withoutTokens + One(r.totalTokens.None?),
                       withoutCut := c.withoutCut + One(r.rerequestAfterCut.None?),
                       totalBytes := c.totalBytes + r.totalBytes, usedBytes := c.usedBytes + r.usedBytes,
                       lines := c.lines + r.lines, usedLines := c.usedLines + r.usedLines);
      var (afterCut, cutSeen) := AddOptional(a.afterCut, r.rerequestAfterCut, a.cutSeen);
      Acc(counts, AddOptional(a.total, r.totalTokens, a.tokenSeen).0, AddOptional(a.used, r.usedTokens, a.tokenSeen).0,
          AddOptional(a.unused, r.unusedTokens, a.tokenSeen).0, AddOptional(a.unused, r.unusedTokens, a.tokenSeen).1,
          afterCut, cutSeen, seen.sessions)
  }

  /** One report moves a tool's accumulator by exactly its tally. */
  lemma AccumulateIsCombine(a: Acc, r: CallReport, t: Tally)
    requires Holds(a, t)
    ensures Holds(Accumulate(a, r), Combine(t, TallyOf(r)))
  {
    if Scored(r) {
      AddOptionalIsPlus(a.total, r.totalTokens, a.tokenSeen, t.total);
      AddOptionalIsPlus(a.used, r.usedTokens, a.tokenSeen, t.used);
      AddOptionalIsPlus(a.unused, r.unusedTokens, a.tokenSeen, t.unused);
      AddOptionalIsPlus(a.afterCut, r.rerequestAfterCut, a.cutSeen, t.afterCut);
    }
  }

  function SessionsOf(reports: seq<CallReport>): (s: set<string>) {
    set i | 0 <= i < |reports| :: reports[i].session
  }

  /** A tool's finished row. */
  datatype Row = Row(tool: string, counts: Counts, totalTokens: Option<nat>, usedTokens: Option<nat>,
                     unusedTokens: Option<nat>, rerequestAfterCut: Option<nat>, sessions: nat)

  /** The row says what a flat pass over the tool's own calls says. */
  ghost predicate RowOf(row: Row, reports: seq<CallReport>) {
    var mine := OfTool(reports, row.tool);
    var t := Flat(mine);
    && row.counts == t.counts && row.totalTokens == Value(t.total) && row.usedTokens == Value(t.used)
    && row.unusedTokens == Value(t.unused) && row.rerequestAfterCut == Value(t.afterCut)
    && row.sessions == |SessionsOf(mine)|
  }

  function ToolsOf(reports: seq<CallReport>): (tools: set<string>) {
    set i | 0 <= i < |reports| :: reports[i].tool
  }

  /** The dictionaries hold each tool's calls among the first `n` reports. */
  ghost predicate HoldsAll(rows: map<string, Acc>, reports: seq<CallReport>) {
    && rows.Keys == ToolsOf(reports)
    && (forall tool <- rows.Keys :: HoldsTool(rows[tool], OfTool(reports, tool)))
  }

  ghost predicate HoldsTool(a: Acc, mine: seq<CallReport>) {
    Holds(a, Flat(mine)) && a.sessions == SessionsOf(mine)
  }

  function AccFor(rows: map<string, Acc>, tool: string): (a: Acc) {
    if tool in rows then rows[tool] else NO_ACC
  }

  lemma {:induction false} NoneOfTool(reports: seq<CallReport>, tool: string)
    requires tool !in ToolsOf(reports)
    ensures OfTool(reports, tool) == []
  {
    if reports != [] {
      assert reports[0].tool in ToolsOf(reports);
      forall t | t in ToolsOf(reports[1..]) ensures t in ToolsOf(reports) {
        var i :| 0 <= i < |reports[1..]| && reports[1..][i].tool == t;
        assert reports[i + 1].tool == t;
      }
      NoneOfTool(reports[1..], tool);
    }
  }

  lemma ToolsAppend(reports: seq<CallReport>, r: CallReport)
    ensures ToolsOf(reports + [r]) == ToolsOf(reports) + {r.tool}
    ensures SessionsOf(reports + [r]) == SessionsOf(reports) + {r.session}
  {
    var more := reports + [r];
    assert more[|reports|] == r;
    forall i | 0 <= i < |reports| ensures reports[i].tool in ToolsOf(more) && reports[i].session in SessionsOf(more) {
      assert more[i] == reports[i];
    }
  }

  lemma OfToolNext(reports: seq<CallReport>, r: CallReport, tool: string)
    ensures OfTool(reports + [r], tool) == if r.tool == tool then OfTool(reports, tool) + [r] else OfTool(reports, tool)
  {
    OfToolAppend(reports, [r], tool);
    assert [r][1..] == [];
    Nil([r]);
    Nil(OfTool(reports, tool));
  }

  lemma CombineEmpty(a: Tally)
    ensures Combine(a, EMPTY) == a
  {
    CombineLaws(a, EMPTY, EMPTY);
  }

  lemma FlatOne(r: CallReport)
    ensures Flat([r]) == TallyOf(r)
  {
    assert [r][1..] == [];
    assert Flat([r]) == Combine(TallyOf([r][0]), EMPTY);
    CombineEmpty(TallyOf(r));
  }

  lemma FlatNext(reports: seq<CallReport>, r: CallReport)
    ensures Flat(reports + [r]) == Combine(Flat(reports), TallyOf(r))
  {
    FlatAppend(reports, [r]);
    FlatOne(r);
  }

  lemma AccForHolds(rows: map<string, Acc>, reports: seq<CallReport>, tool: string)
    requires HoldsAll(rows, reports)
    ensures HoldsTool(AccFor(rows, tool), OfTool(reports, tool))
  {
    if tool !in rows {
      NoneOfTool(reports, tool);
    }
  }

  lemma AccumulateTool(rows: map<string, Acc>, reports: seq<CallReport>, r: CallReport)
    requires HoldsAll(rows, reports)
    ensures HoldsTool(Accumulate(AccFor(rows, r.tool), r), OfTool(reports + [r], r.tool))
  {
    var mine := OfTool(reports, r.tool);
    AccForHolds(rows, reports, r.tool);
    AccumulateIsCombine(AccFor(rows, r.tool), r, Flat(mine));
    OfToolNext(reports, r, r.tool);
    FlatNext(mine, r);
    ToolsAppend(mine, r);
  }

  lemma HoldsNext(rows: map<string, Acc>, reports: seq<CallReport>, r: CallReport)
    requires HoldsAll(rows, reports)
    ensures HoldsAll(rows[r.tool := Accumulate(AccFor(rows, r.tool), r)], reports + [r])
  {
    AccumulateTool(rows, reports, r);
    ToolsAppend(reports, r);
    forall tool | tool in rows && tool != r.tool
      ensures OfTool(reports + [r], tool) == OfTool(reports, tool)
    {
      OfToolNext(reports, r, tool);
    }
  }

  // ---- rows, largest first ----

  function InsertTool(tools: seq<string>, tool: string, rows: map<string, Acc>): (out: seq<string>) {
    if tools == [] then [tool]
    else if BytesOf(rows, tools[0]) < BytesOf(rows, tool) then [tool] + tools
    else [tools[0]] + InsertTool(tools[1..], tool, rows)
  }

  /** `sorted(rows, key=lambda name: -rows[name]["total_bytes"])`, which keeps ties in order. */
  function SortTools(tools: seq<string>, rows: map<string, Acc>): (out: seq<string>) {
    if tools == [] then [] else InsertTool(SortTools(tools[..|tools| - 1], rows), tools[|tools| - 1], rows)
  }

  /** Where a tool is first reported; this is its place in the dictionary. */
  function FirstOf(reports: seq<CallReport>, tool: string): (n: nat) {
    if reports == [] || reports[0].tool == tool then 0 else 1 + FirstOf(reports[1..], tool)
  }

  ghost predicate InOrder(tools: seq<string>, reports: seq<CallReport>) {
    forall i, j :: 0 <= i < j < |tools| ==> FirstOf(reports, tools[i]) < FirstOf(reports, tools[j])
  }

  /** More bytes, or as many and reported first. */
  predicate Before(rows: map<string, Acc>, reports: seq<CallReport>, a: string, b: string) {
    || BytesOf(rows, b) < BytesOf(rows, a)
    || (BytesOf(rows, b) == BytesOf(rows, a) && FirstOf(reports, a) < FirstOf(reports, b))
  }

  ghost predicate LargestFirst(tools: seq<string>, rows: map<string, Acc>, reports: seq<CallReport>) {
    forall i, j :: 0 <= i < j < |tools| ==> Before(rows, reports, tools[i], tools[j])
  }

  function BytesOf(rows: map<string, Acc>, tool: string): (n: nat) {
    AccFor(rows, tool).counts.totalBytes
  }

  lemma {:induction false} InsertAddsOne(tools: seq<string>, tool: string, rows: map<string, Acc>)
    ensures multiset(InsertTool(tools, tool, rows)) == multiset(tools) + multiset{tool}
  {
    if tools != [] {
      Uncons(tools);
      InsertAddsOne(tools[1..], tool, rows);
    }
  }

  lemma InsertMembers(tools: seq<string>, tool: string, rows: map<string, Acc>, x: string)
    ensures x in InsertTool(tools, tool, rows) <==> x == tool || x in tools
  {
    InsertAddsOne(tools, tool, rows);
    assert x in multiset(InsertTool(tools, tool, rows)) <==> x in multiset(tools) + multiset{tool};
  }

  lemma PrependLargest(first: string, rest: seq<string>, rows: map<string, Acc>, reports: seq<CallReport>)
    requires LargestFirst(rest, rows, reports) && forall x <- rest :: Before(rows, reports, first, x)
    ensures LargestFirst([first] + rest, rows, reports)
  {
    var all := [first] + rest;
    forall i, j | 0 <= i < j < |all| ensures Before(rows, reports, all[i], all[j]) {
      assert rest[j - 1] in rest;
    }
  }

  lemma LargestRest(tools: seq<string>, rows: map<string, Acc>, reports: seq<CallReport>)
    requires LargestFirst(tools, rows, reports) && tools != []
    ensures LargestFirst(tools[1..], rows, reports) && forall x <- tools[1..] :: Before(rows, reports, tools[0], x)
  {
  }

  /** A tool reported after all the others goes behind those with as many bytes. */
  lemma {:induction false} InsertKeepsOrder(tools: seq<string>, tool: string, rows: map<string, Acc>,
                                            reports: seq<CallReport>)
    requires LargestFirst(tools, rows, reports)
    requires forall x <- tools :: FirstOf(reports, x) < FirstOf(reports, tool)
    ensures LargestFirst(InsertTool(tools, tool, rows), rows, reports)
  {
    if tools != [] {
      var first, rest := tools[0], tools[1..];
      LargestRest(tools, rows, reports);
      Uncons(tools);
      if BytesOf(rows, first) < BytesOf(rows, tool) {
        PrependLargest(tool, tools, rows, reports);
      } else {
        InsertKeepsOrder(rest, tool, rows, reports);
        forall x | x in InsertTool(rest, tool, rows) ensures Before(rows, reports, first, x) {
          InsertMembers(rest, tool, rows, x);
        }
        PrependLargest(first, InsertTool(rest, tool, rows), rows, reports);
      }
    }
  }

  lemma {:induction false} SortAddsNothing(tools: seq<string>, rows: map<string, Acc>)
    ensures multiset(SortTools(tools, rows)) == multiset(tools)
  {
    if tools != [] {
      SortAddsNothing(tools[..|tools| - 1], rows);
      InsertAddsOne(SortTools(tools[..|tools| - 1], rows), tools[|tools| - 1], rows);
      Unsnoc(tools);
    }
  }

  /** Sorting keeps the tools of equal totals in order of first report. */
  lemma {:induction false} SortIsStable(tools: seq<string>, rows: map<string, Acc>, reports: seq<CallReport>)
    requires InOrder(tools, reports)
    ensures LargestFirst(SortTools(tools, rows), rows, reports)
  {
    if tools != [] {
      var init, last := tools[..|tools| - 1], tools[|tools| - 1];
      SortIsStable(init, rows, reports);
      SortAddsNothing(init, rows);
      forall x | x in SortTools(init, rows) ensures FirstOf(reports, x) < FirstOf(reports, last) {
        assert x in multiset(init);
      }
      InsertKeepsOrder(SortTools(init, rows), last, rows, reports);
    }
  }

  function MakeRow(tool: string, a: Acc): (row: Row) {
    Row(tool, a.counts, a.total, a.used, a.unused, a.afterCut, |a.sessions|)
  }

  /** Exactly one correct row per tool that appears, largest total first and ties in order of first
      report. */
  ghost predicate Aggregated(rows: seq<Row>, reports: seq<CallReport>) {
    && (forall i :: 0 <= i < |rows| ==> RowOf(rows[i], reports))
    && (forall i, j :: 0 <= i < j < |rows| ==> rows[i].tool != rows[j].tool)
    && (forall i, j :: 0 <= i < j < |rows| ==> rows[j].counts.totalBytes <= rows[i].counts.totalBytes)
    && (forall i, j :: 0 <= i < j < |rows| && rows[j].counts.totalBytes == rows[i].counts.totalBytes ==>
          FirstOf(reports, rows[i].tool) < FirstOf(reports, rows[j].tool))
    && (set i | 0 <= i < |rows| :: rows[i].tool) == ToolsOf(reports)
  }

  lemma {:induction false} FirstOfNext(reports: seq<CallReport>, r: CallReport, tool: string)
    ensures tool in ToolsOf(reports) ==>
              FirstOf(reports + [r], tool) == FirstOf(reports, tool) && FirstOf(reports, tool) < |reports|
    ensures tool !in ToolsOf(reports) && r.tool == tool ==> FirstOf(reports + [r], tool) == |reports|
  {
    if reports == [] {
      Nil([r]);
    } else {
      FirstOfNext(reports[1..], r, tool);
      TailOfAppend(reports, [r]);
      assert tool in ToolsOf(reports) <==> tool == reports[0].tool || tool in ToolsOf(reports[1..]) by {
        Uncons(reports);
      }
    }
  }

  lemma OrderNext(order: seq<string>, reports: seq<CallReport>, r: CallReport)
    requires InOrder(order, reports) && forall tool <- order :: tool in ToolsOf(reports)
    ensures InOrder(order, reports + [r])
    ensures r.tool !in ToolsOf(reports) ==> InOrder(order + [r.tool], reports + [r])
  {
    forall tool | tool in order ensures FirstOf(reports + [r], tool) == FirstOf(reports, tool) < |reports| {
      FirstOfNext(reports, r, tool);
    }
    FirstOfNext(reports, r, r.tool);
  }

  /** The first half of `aggregate`: fill the dictionaries, remembering insertion order. */
  method FillRows(reports: seq<CallReport>) returns (rows: map<string, Acc>, order: seq<string>)
    ensures HoldsAll(rows, reports)
    ensures InOrder(order, reports) && Distinct(order) && forall tool :: tool in order <==> tool in rows
  {
    rows, order := map[], [];
    for n := 0 to |reports|
      invariant HoldsAll(rows, reports[..n])
      invariant InOrder(order, reports[..n]) && Distinct(order) && forall tool :: tool in order <==> tool in rows
    {
      var r := reports[n];
      assert reports[..n + 1] == reports[..n] + [r];
      HoldsNext(rows, reports[..n], r);
      OrderNext(order, reports[..n], r);
      if r.tool !in rows {
        AppendDistinct(order, r.tool);
        order := order + [r.tool];
      }
      rows := rows[r.tool := Accumulate(AccFor(rows, r.tool), r)];
    }
    assert reports[..|reports|] == reports;
  }

  lemma SortedIsDistinct(order: seq<string>, sorted: seq<string>)
    requires Distinct(order) && multiset(sorted) == multiset(order)
    ensures Distinct(sorted) && forall tool :: tool in sorted <==> tool in order
  {
    forall tool ensures tool in sorted <==> tool in order {
      assert tool in multiset(sorted) <==> tool in multiset(order);
    }
    forall i, j | 0 <= i < j < |sorted| ensures sorted[i] != sorted[j] {
      if sorted[i] == sorted[j] {
        TwiceCounts(sorted, i, j);
        OnceCounts(order, sorted[i]);
        assert false;
      }
    }
  }

  lemma TwiceCounts(s: seq<string>, i: nat, j: nat)
    requires i < j < |s| && s[i] == s[j]
    ensures multiset(s)[s[i]] >= 2
  {
    assert s == s[..j] + s[j..];
    assert s[..j][i] == s[i] && s[j..][0] == s[i];
    assert s[i] in multiset(s[..j]) && s[i] in multiset(s[j..]);
  }

  lemma {:induction false} OnceCounts(s: seq<string>, x: string)
    requires Distinct(s)
    ensures multiset(s)[x] <= 1
  {
    if s != [] {
      var init, last := s[..|s| - 1], s[|s| - 1];
      assert s == init + [last];
      OnceCounts(init, x);
      assert last !in init;
      assert x == last ==> x !in multiset(init);
    }
  }

  method MakeRows(tools: seq<string>, rows: map<string, Acc>) returns (out: seq<Row>)
    requires forall i :: 0 <= i < |tools| ==> tools[i] in rows
    ensures |out| == |tools| && forall k :: 0 <= k < |tools| ==> out[k] == MakeRow(tools[k], rows[tools[k]])
  {
    out := [];
    for i := 0 to |tools|
      invariant |out| == i && forall k :: 0 <= k < i ==> out[k] == MakeRow(tools[k], rows[tools[k]])
    {
      out := out + [MakeRow(tools[i], rows[tools[i]])];
    }
  }

  /** `aggregate`. */
  method Aggregate(reports: seq<CallReport>) returns (out: seq<Row>)
    ensures Aggregated(out, reports)
  {
    var rows, order := FillRows(reports);
    var tools := SortTools(order, rows);
    SortIsStable(order, rows, reports);
    SortAddsNothing(order, rows);
    SortedIsDistinct(order, tools);
    out := MakeRows(tools, rows);
    RowsAreAggregated(reports, rows, tools, out);
  }

  lemma RowsAreAggregated(reports: seq<CallReport>, rows: map<string, Acc>, tools: seq<string>, out: seq<Row>)
    requires HoldsAll(rows, reports) && LargestFirst(tools, rows, reports)
    requires Distinct(tools) && forall tool :: tool in tools <==> tool in rows
    requires |out| == |tools|
    requires forall k :: 0 <= k < |tools| ==> tools[k] in rows && out[k] == MakeRow(tools[k], rows[tools[k]])
    ensures Aggregated(out, reports)
  {
    forall i | 0 <= i < |out| ensures RowOf(out[i], reports) {
      assert tools[i] in rows;
    }
    forall i, j | 0 <= i < j < |out|
      ensures out[j].counts.totalBytes <= out[i].counts.totalBytes
      ensures out[j].counts.totalBytes == out[i].counts.totalBytes ==>
                FirstOf(reports, out[i].tool) < FirstOf(reports, out[j].tool)
    {
      assert Before(rows, reports, tools[i], tools[j]);
    }
    var named := set i | 0 <= i < |out| :: out[i].tool;
    forall tool | tool in rows ensures tool in named {
      var i :| 0 <= i < |tools| && tools[i] == tool;
      assert out[i].tool == tool;
    }
    assert named == rows.Keys;
  }

  // ---- the all-tools row ----

  predicate NothingScored(row: Row) {
    row.counts.calls == row.counts.errorCalls + row.counts.withoutText
  }

  /** What a row adds to the all-tools row: its counters, and its sums unless it measured nothing. */
  function RowTally(row: Row): (t: Tally) {
    if NothingScored(row) then EMPTY.(counts := row.counts)
    else Tally(row.counts, Once(row.totalTokens), Once(row.usedTokens), Once(row.unusedTokens),
               Once(row.rerequestAfterCut))
  }

  function RowsTally(rows: seq<Row>): (t: Tally) {
    if rows == [] then EMPTY else Combine(RowTally(rows[0]), RowsTally(rows[1..]))
  }

  function AllRow(t: Tally, sessions: nat): (row: Row) {
    Row("**all**", t.counts, Value(t.total), Value(t.used), Value(t.unused), Value(t.afterCut), sessions)
  }

  /** `sum_rows`: the loop carries the tally of the rows so far. */
  method SumRows(rows: seq<Row>, sessions: nat) returns (total: Row)
    ensures total == AllRow(RowsTally(rows), sessions)
  {
    var counts := ZERO;
    var tokens: Option<nat>, tokensSeen := None, false;
    var used: Option<nat>, usedSeen := None, false;
    var unused: Option<nat>, unusedSeen := None, false;
    var afterCut: Option<nat>, cutSeen := None, false;
    ghost var t := EMPTY;
    for i := 0 to |rows|
      invariant counts == t.counts && Carries(tokens, tokensSeen, t.total) && Carries(used, usedSeen, t.used)
      invariant Carries(unused, unusedSeen, t.unused) && Carries(afterCut, cutSeen, t.afterCut)
      invariant RowsTally(rows) == Combine(t, RowsTally(rows[i..]))
    {
      SliceStep(rows, i);
      CombineLaws(t, RowTally(rows[i]), RowsTally(rows[i + 1..]));
      counts := Add(counts, rows[i].counts);
      ghost var was := t;
      t := Combine(t, RowTally(rows[i]));
      if NothingScored(rows[i]) {
        continue;
      }
      AddOptionalIsPlus(tokens, rows[i].totalTokens, tokensSeen, was.total);
      AddOptionalIsPlus(used, rows[i].usedTokens, usedSeen, was.used);
      AddOptionalIsPlus(unused, rows[i].unusedTokens, unusedSeen, was.unused);
      AddOptionalIsPlus(afterCut, rows[i].rerequestAfterCut, cutSeen, was.afterCut);
      tokens, tokensSeen := AddOptional(tokens, rows[i].totalTokens, tokensSeen).0,
        AddOptional(tokens, rows[i].totalTokens, tokensSeen).1;
      used, usedSeen := AddOptional(used, rows[i].usedTokens, usedSeen).0,
        AddOptional(used, rows[i].usedTokens, usedSeen).1;
      unused, unusedSeen := AddOptional(unused, rows[i].unusedTokens, unusedSeen).0,
        AddOptional(unused, rows[i].unusedTokens, unusedSeen).1;
      afterCut, cutSeen := AddOptional(afterCut, rows[i].rerequestAfterCut, cutSeen).0,
        AddOptional(afterCut, rows[i].rerequestAfterCut, cutSeen).1;
    }
    assert rows[|rows|..] == [];
    CombineEmpty(t);
    total := Row("**all**", counts, tokens, used, unused, afterCut, sessions);
  }

  // ---- the two levels agree with one flat pass ----

  /** A sum is untouched exactly when no call was scored. */
  lemma {:induction false} NothingIffUnscored(reports: seq<CallReport>)
    ensures var t := Flat(reports);
            && t.counts.errorCalls + t.counts.withoutText <= t.counts.calls
            && (t.total.Nothing? <==> t.counts.calls == t.counts.errorCalls + t.counts.withoutText)
            && (t.used.Nothing? <==> t.total.Nothing?) && (t.unused.Nothing? <==> t.total.Nothing?)
            && (t.afterCut.Nothing? <==> t.total.Nothing?)
  {
    if reports != [] {
      NothingIffUnscored(reports[1..]);
    }
  }

  lemma RowTallyIsFlat(row: Row, reports: seq<CallReport>)
    requires RowOf(row, reports)
    ensures RowTally(row) == Flat(OfTool(reports, row.tool))
  {
    NothingIffUnscored(OfTool(reports, row.tool));
  }

  function Within(reports: seq<CallReport>, tools: set<string>): (r: seq<CallReport>) {
    if reports == [] then [] else (if reports[0].tool in tools then [reports[0]] else []) + Within(reports[1..], tools)
  }

  /** A fold over the calls with any operation; used to argue about order and grouping alone. */
  function Fold<T>(op: (T, T) -> T, unit: T, f: CallReport -> T, reports: seq<CallReport>): (t: T) {
    if reports == [] then unit else op(f(reports[0]), Fold(op, unit, f, reports[1..]))
  }

  ghost predicate CommutativeMonoid<T(!new)>(op: (T, T) -> T, unit: T) {
    && (forall a, b :: op(a, b) == op(b, a))
    && (forall a, b, c {:trigger op(op(a, b), c)} :: op(op(a, b), c) == op(a, op(b, c)))
    && (forall a {:trigger op(unit, a)} :: op(unit, a) == a)
  }

  lemma {:induction false} FlatIsFold(reports: seq<CallReport>)
    ensures Flat(reports) == Fold(Combine, EMPTY, TallyOf, reports)
  {
    if reports != [] {
      FlatIsFold(reports[1..]);
    }
  }

  lemma TalliesAreMonoid()
    ensures CommutativeMonoid(Combine, EMPTY)
  {
    forall a, b ensures Combine(a, b) == Combine(b, a) {
      CombineLaws(a, b, a);
    }
    forall a, b, c ensures Combine(Combine(a, b), c) == Combine(a, Combine(b, c)) {
      CombineLaws(a, b, c);
    }
    forall a ensures Combine(EMPTY, a) == a {
      CombineLaws(a, a, a);
    }
  }

  lemma FoldWithin<T>(op: (T, T) -> T, unit: T, f: CallReport -> T, reports: seq<CallReport>, tools: set<string>)
    requires reports != []
    ensures Fold(op, unit, f, Within(reports, tools))
            == (var rest := Fold(op, unit, f, Within(reports[1..], tools));
                if reports[0].tool in tools then op(f(reports[0]), rest) else rest)
  {
    var rest := Within(reports[1..], tools);
    Cons(reports[0], rest);
    Nil(rest);
  }

  lemma FoldOfTool<T>(op: (T, T) -> T, unit: T, f: CallReport -> T, reports: seq<CallReport>, tool: string)
    requires reports != []
    ensures Fold(op, unit, f, OfTool(reports, tool))
            == (var rest := Fold(op, unit, f, OfTool(reports[1..], tool));
                if reports[0].tool == tool then op(f(reports[0]), rest) else rest)
  {
    var rest := OfTool(reports[1..], tool);
    Cons(reports[0], rest);
    Nil(rest);
  }

  lemma Shuffle<T(!new)>(op: (T, T) -> T, unit: T, x: T, a: T, b: T)
    requires CommutativeMonoid(op, unit)
    ensures op(x, op(a, b)) == op(op(x, a), b)
    ensures op(x, op(a, b)) == op(a, op(x, b))
  {
    assert op(op(x, a), b) == op(op(a, x), b);
  }

  lemma {:induction false} FoldOneMoreTool<T(!new)>(op: (T, T) -> T, unit: T, f: CallReport -> T,
                                                    reports: seq<CallReport>, tools: set<string>, tool: string)
    requires CommutativeMonoid(op, unit) && tool !in tools
    ensures Fold(op, unit, f, Within(reports, tools + {tool}))
            == op(Fold(op, unit, f, OfTool(reports, tool)), Fold(op, unit, f, Within(reports, tools)))
  {
    if reports != [] {
      var rest := reports[1..];
      FoldOneMoreTool(op, unit, f, rest, tools, tool);
      FoldWithin(op, unit, f, reports, tools + {tool});
      FoldWithin(op, unit, f, reports, tools);
      FoldOfTool(op, unit, f, reports, tool);
      Shuffle(op, unit, f(reports[0]), Fold(op, unit, f, OfTool(rest, tool)), Fold(op, unit, f, Within(rest, tools)));
    }
  }

  /** Adding one tool to a set of tools adds that tool's calls. */
  lemma OneMoreTool(reports: seq<CallReport>, tools: set<string>, tool: string)
    requires tool !in tools
    ensures Flat(Within(reports, tools + {tool})) == Combine(Flat(OfTool(reports, tool)), Flat(Within(reports, tools)))
  {
    TalliesAreMonoid();
    FoldOneMoreTool(Combine, EMPTY, TallyOf, reports, tools, tool);
    FlatIsFold(Within(reports, tools + {tool}));
    FlatIsFold(OfTool(reports, tool));
    FlatIsFold(Within(reports, tools));
  }

  lemma {:induction false} WithinNone(reports: seq<CallReport>)
    ensures Within(reports, {}) == []
  {
    if reports != [] {
      WithinNone(reports[1..]);
    }
  }

  lemma {:induction false} WithinAll(reports: seq<CallReport>, tools: set<string>)
    requires ToolsOf(reports) <= tools
    ensures Within(reports, tools) == reports
  {
    if reports != [] {
      assert reports[0].tool in ToolsOf(reports);
      forall t | t in ToolsOf(reports[1..]) ensures t in tools {
        var i :| 0 <= i < |reports[1..]| && reports[1..][i].tool == t;
        assert reports[i + 1].tool in ToolsOf(reports);
      }
      WithinAll(reports[1..], tools);
      Uncons(reports);
    }
  }

  function Named(rows: seq<Row>): (tools: set<string>) {
    set i | 0 <= i < |rows| :: rows[i].tool
  }

  lemma {:induction false} RowsTallyIsFlat(rows: seq<Row>, reports: seq<CallReport>)
    requires forall i :: 0 <= i < |rows| ==> RowOf(rows[i], reports)
    requires forall i, j :: 0 <= i < j < |rows| ==> rows[i].tool != rows[j].tool
    ensures RowsTally(rows) == Flat(Within(reports, Named(rows)))
  {
    if rows == [] {
      WithinNone(reports);
      assert Named(rows) == {};
    } else {
      RowsTallyIsFlat(rows[1..], reports);
      RowTallyIsFlat(rows[0], reports);
      NamedRest(rows);
      OneMoreTool(reports, Named(rows[1..]), rows[0].tool);
    }
  }

  lemma NamedRest(rows: seq<Row>)
    requires rows != [] && forall i, j :: 0 <= i < j < |rows| ==> rows[i].tool != rows[j].tool
    ensures Named(rows) == Named(rows[1..]) + {rows[0].tool} && rows[0].tool !in Named(rows[1..])
  {
    forall i | 0 <= i < |rows[1..]| ensures rows[1..][i].tool in Named(rows) {
      assert rows[i + 1].tool in Named(rows);
    }
    forall i | 0 <= i < |rows| ensures rows[i].tool in Named(rows[1..]) + {rows[0].tool} {
      if i > 0 {
        assert rows[1..][i - 1].tool == rows[i].tool;
      }
    }
  }

  /** The all-tools row, summed over the per-tool rows, is one flat pass over every call. */
  lemma TwoLevelsAreFlat(rows: seq<Row>, reports: seq<CallReport>)
    requires Aggregated(rows, reports)
    ensures RowsTally(rows) == Flat(reports)
  {
    RowsTallyIsFlat(rows, reports);
    assert Named(rows) == ToolsOf(reports);
    WithinAll(reports, ToolsOf(reports));
  }

  // ---- token columns and coverage ----

  function ScoredCalls(reports: seq<CallReport>): (n: nat) {
    if reports == [] then 0 else One(Scored(reports[0])) + ScoredCalls(reports[1..])
  }

  function Uncounted(reports: seq<CallReport>): (n: nat) {
    if reports == [] then 0 else One(Scored(reports[0]) && reports[0].totalTokens.None?) + Uncounted(reports[1..])
  }

  /** The token total is present exactly when some call was scored and none lacks a count. */
  lemma {:induction false} TotalIffComplete(reports: seq<CallReport>)
    ensures var t := Flat(reports);
            && t.counts.calls == ScoredCalls(reports) + t.counts.errorCalls + t.counts.withoutText
            && t.counts.withoutTokens == Uncounted(reports) <= ScoredCalls(reports)
            && (t.total.Nothing? <==> ScoredCalls(reports) == 0)
            && (t.total.Measured? <==> ScoredCalls(reports) > 0 && Uncounted(reports) == 0)
  {
    if reports != [] {
      TotalIffComplete(reports[1..]);
    }
  }

  /** A report splits its tokens or leaves both parts null. */
  predicate WellSplit(r: CallReport) {
    (r.usedTokens.Some? <==> r.unusedTokens.Some?)
    && (r.usedTokens.Some? ==> r.totalTokens == Some(r.usedTokens.value + r.unusedTokens.value))
  }

  /** Every report the scorer writes splits its tokens that way. */
  lemma ReportsAreWellSplit(m: Matching, session: string, events: seq<Event>, result: nat, tool: string)
    requires result < |events| && events[result].Result?
    ensures WellSplit(ReportFor(m, session, events, result, tool))
  {
    if events[result].body.Some? && !events[result].isError {
      ReportIsExact(m, session, events, result, tool);
    }
  }

  /** Wherever the aggregate split is present, used and unused tokens add up to the total. */
  lemma {:induction false} SplitAddsUp(reports: seq<CallReport>)
    requires forall i :: 0 <= i < |reports| ==> WellSplit(reports[i])
    ensures var t := Flat(reports);
            && (t.used.Measured? <==> t.unused.Measured?)
            && (t.used.Measured? ==> t.total == Measured(t.used.n + t.unused.n))
  {
    if reports != [] {
      SplitAddsUp(reports[1..]);
      NothingIffUnscored(reports[1..]);
      assert WellSplit(reports[0]);
    }
  }

  datatype Coverage = Coverage(scored: int, measured: int, missing: int)

  function RowsScored(rows: seq<Row>): (n: int) {
    if rows == [] then 0
    else rows[0].counts.calls - rows[0].counts.errorCalls - rows[0].counts.withoutText + RowsScored(rows[1..])
  }

  function RowsMissing(rows: seq<Row>): (n: int) {
    if rows == [] then 0 else rows[0].counts.withoutTokens + RowsMissing(rows[1..])
  }

  /** `token_count_coverage`. */
  method TokenCountCoverage(rows: seq<Row>) returns (c: Coverage)
    ensures c == Coverage(RowsScored(rows), RowsScored(rows) - RowsMissing(rows), RowsMissing(rows))
  {
    var scored, missing := 0, 0;
    for i := 0 to |rows|
      invariant scored + RowsScored(rows[i..]) == RowsScored(rows)
      invariant missing + RowsMissing(rows[i..]) == RowsMissing(rows)
    {
      SliceStep(rows, i);
      scored := scored + (rows[i].counts.calls - rows[i].counts.errorCalls - rows[i].counts.withoutText);
      missing := missing + rows[i].counts.withoutTokens;
    }
    assert rows[|rows|..] == [];
    c := Coverage(scored, scored - missing, missing);
  }

  lemma {:induction false} RowsCountsAreTally(rows: seq<Row>)
    ensures var t := RowsTally(rows);
            RowsScored(rows) == t.counts.calls - t.counts.errorCalls - t.counts.withoutText
            && RowsMissing(rows) == t.counts.withoutTokens
  {
    if rows != [] {
      RowsCountsAreTally(rows[1..]);
    }
  }

  lemma FlatTallyIsConsistent(rows: seq<Row>, reports: seq<CallReport>, sessions: nat)
    requires RowsTally(rows) == Flat(reports) && forall i :: 0 <= i < |reports| ==> WellSplit(reports[i])
    ensures var all := AllRow(Flat(reports), sessions);
            && RowsScored(rows) == ScoredCalls(reports) && RowsMissing(rows) == Uncounted(reports)
            && (all.totalTokens.Some? <==> RowsScored(rows) > 0 && RowsMissing(rows) == 0)
            && (all.usedTokens.Some? <==> all.unusedTokens.Some?)
            && (all.usedTokens.Some? ==> all.totalTokens == Some(all.usedTokens.value + all.unusedTokens.value))
  {
    RowsCountsAreTally(rows);
    TotalIffComplete(reports);
    SplitAddsUp(reports);
  }

  /** The report as a whole: the all-tools row is the flat pass, coverage counts exactly the scored
      calls with and without a stored count, the token total is present exactly at full coverage of
      at least one call, and a present split adds up to it. */
  lemma ReportIsConsistent(rows: seq<Row>, reports: seq<CallReport>, sessions: nat)
    requires Aggregated(rows, reports) && forall i :: 0 <= i < |reports| ==> WellSplit(reports[i])
    ensures var all := AllRow(RowsTally(rows), sessions);
            && all == AllRow(Flat(reports), sessions)
            && RowsScored(rows) == ScoredCalls(reports) && RowsMissing(rows) == Uncounted(reports)
            && (all.totalTokens.Some? <==> RowsScored(rows) > 0 && RowsMissing(rows) == 0)
            && (all.usedTokens.Some? <==> all.unusedTokens.Some?)
            && (all.usedTokens.Some? ==> all.totalTokens == Some(all.usedTokens.value + all.unusedTokens.value))
  {
    TwoLevelsAreFlat(rows, reports);
    FlatTallyIsConsistent(rows, reports, sessions);
  }
}
