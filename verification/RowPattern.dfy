/** The `ROW` pattern: how one line of a page is read as the head of a ranked row. */
module RowPattern {
  import opened Options
  import opened Text
  import opened TrimMarker

  // ---- one row head: the ROW pattern ----

  datatype RowHead = RowHead(name: string, rank: nat, utility: nat)

  /** `(?:, | · )rank (\d+) · utility (\d+)` at the start of `s`: the two numbers. */
  function MatchScore(s: string): (r: Option<(nat, nat)>) {
    var comma := MatchTokens([Lit(", rank "), Number, Lit(" \U{B7} utility "), Number], s);
    var dot := MatchTokens([Lit(" \U{B7} rank "), Number, Lit(" \U{B7} utility "), Number], s);
    if comma.Some? then Numbers(Lit(", rank "), comma.value.0, s)
    else if dot.Some? then Numbers(Lit(" \U{B7} rank "), dot.value.0, s)
    else None
  }

  function Numbers(opening: Token, groups: seq<string>, s: string): (r: Option<(nat, nat)>)
    requires var tokens := [opening, Number, Lit(" \U{B7} utility "), Number];
             var m := MatchTokens(tokens, s);
             m.Some? && m.value.0 == groups
    ensures r.Some?
  {
    var tokens := [opening, Number, Lit(" \U{B7} utility "), Number];
    MatchSound(tokens, s);
    assert TokenFits(tokens[1], groups[1]) && TokenFits(tokens[3], groups[3]);
    Some((ParseDec(groups[1]), ParseDec(groups[3])))
  }

  predicate NoLineFeed(s: string, from: nat, to: nat)
    requires from <= to <= |s|
  {
    forall k :: from <= k < to ==> s[k] != '\n'
  }

  /** A matcher for what follows a row's name; kept abstract while the lazy search is reasoned about. */
  type Score = string -> Option<(nat, nat)>

  predicate ScoreAt(score: Score, s: string, j: nat)
    requires j <= |s|
  {
    score(s[j..]).Some?
  }

  /** ROW matches `s` with the name ending at `i` and the score starting at `j`. */
  predicate RowSplit(score: Score, s: string, i: nat, j: nat) {
    && 5 <= i && i + 3 <= j <= |s|
    && "- **" <= s && NoLineFeed(s, 4, i)
    && s[i..i + 3] == "** " && NoLineFeed(s, i + 3, j)
    && ScoreAt(score, s, j)
  }

  /** The lazy gap `.*?`: the first position at or after `from` where the score matches. */
  function FindScore(score: Score, s: string, from: nat): (r: Option<nat>)
    requires from <= |s|
    ensures r.Some? ==> from <= r.value <= |s| && NoLineFeed(s, from, r.value) && ScoreAt(score, s, r.value)
    decreases |s| - from
  {
    if ScoreAt(score, s, from) then Some(from)
    else if from < |s| && s[from] != '\n' then FindScore(score, s, from + 1)
    else None
  }

  lemma {:induction false} FindScoreIsFirst(score: Score, s: string, from: nat, j: nat)
    requires from <= j <= |s| && NoLineFeed(s, from, j) && ScoreAt(score, s, j)
    ensures FindScore(score, s, from).Some? && FindScore(score, s, from).value <= j
    decreases |s| - from
  {
    if !ScoreAt(score, s, from) {
      FindScoreIsFirst(score, s, from + 1, j);
    }
  }

  /** The lazy name `.+?`: the first name end that leaves a score further on. */
  function FindName(score: Score, s: string, i: nat): (r: Option<(nat, nat)>)
    requires "- **" <= s && 5 <= i <= |s| && NoLineFeed(s, 4, i)
    ensures r.Some? ==> RowSplit(score, s, r.value.0, r.value.1)
    decreases |s| - i
  {
    var here := if i + 3 <= |s| && s[i..i + 3] == "** " then FindScore(score, s, i + 3) else None;
    if here.Some? then Some((i, here.value))
    else if i < |s| && s[i] != '\n' then FindName(score, s, i + 1)
    else None
  }

  lemma {:induction false} FindNameIsFirst(score: Score, s: string, from: nat, i: nat, j: nat)
    requires RowSplit(score, s, i, j) && 5 <= from <= i && NoLineFeed(s, 4, from)
    ensures var r := FindName(score, s, from);
            r.Some? && (r.value.0 < i || (r.value.0 == i && r.value.1 <= j))
    decreases |s| - from
  {
    if from == i {
      FindScoreIsFirst(score, s, i + 3, j);
    } else {
      FindNameIsFirst(score, s, from + 1, i, j);
    }
  }

  /** Where `ROW.match(line)` ends the name and starts the score. */
  function RowEnds(s: string): (r: Option<(nat, nat)>)
    ensures r.Some? ==> RowSplit(MatchScore, s, r.value.0, r.value.1)
  {
    if "- **" <= s && |s| > 4 && s[4] != '\n' then FindName(MatchScore, s, 5) else None
  }

  /** Of all the ways ROW can match a line, the match taken has the shortest name and then the
      shortest gap; a line is refused only when there is no way at all. */
  lemma RowMatchIsLazy(s: string, i: nat, j: nat)
    requires RowSplit(MatchScore, s, i, j)
    ensures var r := RowEnds(s);
            r.Some? && (r.value.0 < i || (r.value.0 == i && r.value.1 <= j))
    ensures var (nameEnd, start) := RowEnds(s).value;
            var head := MatchRow(s);
            && head.Some? && head.value.name == s[4..nameEnd]
            && MatchScore(s[start..]) == Some((head.value.rank, head.value.utility))
  {
    assert s[4] != '\n';
    FindNameIsFirst(MatchScore, s, 5, i, j);
  }

  /** `ROW.match(line)`. */
  function MatchRow(s: string): (r: Option<RowHead>)
    ensures r.Some? ==> "- **" <= s
  {
    var ends := RowEnds(s);
    if ends.None? then None
    else
      var score := MatchScore(s[ends.value.1..]).value;
      Some(RowHead(s[4..ends.value.0], score.0, score.1))
  }

  /** A marker line is never a row or a continuation: it opens with `- _`. */
  lemma MarkerIsNoRow(line: string)
    requires "- _" <= line
    ensures MatchRow(line).None? && !StartsWith(line, "  ")
  {
    assert line[2] == '_' && line[0] == '-';
  }

  lemma EndsAreWherePrinted(score: Score, s: string, i: nat, j: nat)
    requires RowSplit(score, s, i, j)
    requires forall k :: 4 <= k < i ==> s[k] != '*'
    requires forall b :: i + 3 <= b < j ==> !ScoreAt(score, s, b)
    ensures s[4] != '\n' && FindName(score, s, 5) == Some((i, j))
  {
    FindNameIsFirst(score, s, 5, i, j);
    var (a, b) := FindName(score, s, 5).value;
    assert s[a] == s[a..a + 3][0];
  }

  lemma NoEarlierScore(s: string, from: nat, j: nat, sep: string, rank: nat, utility: nat, rest: string)
    requires from <= j <= |s| && JoinsScore(sep) && (rest != "" ==> !IsDigit(rest[0]))
    requires s[j..] == ScoreWith(sep, rank, utility) + rest
    requires forall k :: from <= k < j ==> s[k] != '\U{B7}'
    ensures forall b :: from <= b < j ==> !ScoreAt(MatchScore, s, b)
  {
    forall b | from <= b < j ensures !ScoreAt(MatchScore, s, b) {
      assert s[b..][j - b..] == s[j..];
      NoScoreInGap(s[b..], j - b, sep, rank, utility, rest);
    }
  }

  /** A row head printed with either separator reads back field by field, whatever the gap between the
      name and the score holds besides a `·` and a line feed. */
  lemma RowReadsBack(name: string, gap: string, sep: string, rank: nat, utility: nat, rest: string)
    requires name != "" && (forall k :: 0 <= k < |name| ==> name[k] != '*' && name[k] != '\n')
    requires forall k :: 0 <= k < |gap| ==> gap[k] != '\U{B7}' && gap[k] != '\n'
    requires sep == ", " || sep == " \U{B7} "
    requires rest != "" ==> !IsDigit(rest[0])
    ensures MatchRow("- **" + name + "** " + gap + (ScoreWith(sep, rank, utility) + rest))
            == Some(RowHead(name, rank, utility))
  {
    var score := ScoreWith(sep, rank, utility) + rest;
    var s := "- **" + name + "** " + gap + score;
    var i := 4 + |name|;
    var j := i + 3 + |gap|;
    RowPieces(name, gap, score, s);
    ScoreReadsBack(sep, rank, utility, rest);
    NoEarlierScore(s, i + 3, j, sep, rank, utility, rest);
    EndsAreWherePrinted(MatchScore, s, i, j);
  }

  lemma RowPieces(name: string, gap: string, score: string, s: string)
    requires s == "- **" + name + "** " + gap + score
    ensures var i := 4 + |name|;
            var j := i + 3 + |gap|;
            && j <= |s| && s[j..] == score && s[4..i] == name && s[i..i + 3] == "** " && "- **" <= s
            && (forall k :: 4 <= k < i ==> s[k] == name[k - 4])
            && (forall k :: i + 3 <= k < j ==> s[k] == gap[k - (i + 3)])
  {
  }

  predicate JoinsScore(sep: string) {
    sep == ", " || sep == " \U{B7} "
  }

  function ScoreWith(sep: string, rank: nat, utility: nat): (s: string) {
    sep + "rank " + Dec(rank) + " \U{B7} utility " + Dec(utility)
  }

  /** `s` opens with a separator, the word and digits of a rank, and the word and all the digits of a
      utility. */
  ghost predicate ReadsAs(s: string, sep: string, ranked: string, useful: string, rest: string) {
    && JoinsScore(sep) && s == sep + "rank " + ranked + " \U{B7} utility " + useful + rest
    && ranked != "" && AllDigits(ranked) && useful != "" && AllDigits(useful)
    && (rest != "" ==> !IsDigit(rest[0]))
  }

  function Opening(sep: string): (s: string) {
    sep + "rank "
  }

  function ScoreTokens(sep: string): (tokens: seq<Token>) {
    [Lit(Opening(sep)), Number, Lit(" \U{B7} utility "), Number]
  }

  lemma Openings()
    ensures Opening(", ") == ", rank " && Opening(" \U{B7} ") == " \U{B7} rank "
  {
  }

  lemma TokensReadsAs(s: string, sep: string, ranked: string, useful: string, rest: string)
    requires ReadsAs(s, sep, ranked, useful, rest)
    ensures MatchTokens(ScoreTokens(sep), s) == Some(([Opening(sep), ranked, " \U{B7} utility ", useful], rest))
  {
    var groups := [Opening(sep), ranked, " \U{B7} utility ", useful];
    PrintMatches(ScoreTokens(sep), groups, rest);
    ConcatOfFour(groups);
  }

  lemma TokensMatched(s: string, sep: string)
    requires JoinsScore(sep) && MatchTokens(ScoreTokens(sep), s).Some?
    ensures var (groups, rest) := MatchTokens(ScoreTokens(sep), s).value;
            |groups| == 4 && ReadsAs(s, sep, groups[1], groups[3], rest)
  {
    var tokens := ScoreTokens(sep);
    var (groups, rest) := MatchTokens(tokens, s).value;
    MatchSound(tokens, s);
    LastNumberIsGreedy(tokens, s);
    assert TokenFits(tokens[0], groups[0]) && TokenFits(tokens[1], groups[1]);
    assert TokenFits(tokens[2], groups[2]) && TokenFits(tokens[3], groups[3]);
    ConcatOfFour(groups);
  }

  /** A text reads in at most one way, and the score is what its digits say. */
  lemma MatchScoreReads(s: string, sep: string, ranked: string, useful: string, rest: string)
    requires ReadsAs(s, sep, ranked, useful, rest)
    ensures MatchScore(s) == Some((ParseDec(ranked), ParseDec(useful)))
  {
    Openings();
    TokensReadsAs(s, sep, ranked, useful, rest);
    if sep != ", " {
      assert s[0] == ' ';
      assert MatchTokens(ScoreTokens(", "), s).None?;
    }
  }

  lemma MatchScoreParts(s: string) returns (sep: string, ranked: string, useful: string, rest: string)
    requires MatchScore(s).Some?
    ensures ReadsAs(s, sep, ranked, useful, rest)
    ensures MatchScore(s) == Some((ParseDec(ranked), ParseDec(useful)))
  {
    Openings();
    sep := if MatchTokens(ScoreTokens(", "), s).Some? then ", " else " \U{B7} ";
    TokensMatched(s, sep);
    var m := MatchTokens(ScoreTokens(sep), s).value;
    ranked, useful, rest := m.0[1], m.0[3], m.1;
  }

  /** The score pattern matches exactly where a text reads as a separator, a rank and a utility, and
      then gives the numbers those digits spell. */
  lemma MatchScoreIff(s: string, rank: nat, utility: nat)
    ensures MatchScore(s) == Some((rank, utility)) <==>
            exists sep, ranked, useful, rest :: ReadsAs(s, sep, ranked, useful, rest)
                                                && ParseDec(ranked) == rank && ParseDec(useful) == utility
  {
    if MatchScore(s) == Some((rank, utility)) {
      var sep, ranked, useful, rest := MatchScoreParts(s);
    }
    forall sep, ranked, useful, rest | ReadsAs(s, sep, ranked, useful, rest)
      ensures MatchScore(s) == Some((ParseDec(ranked), ParseDec(useful)))
    {
      MatchScoreReads(s, sep, ranked, useful, rest);
    }
  }

  lemma ScoreReadsBack(sep: string, rank: nat, utility: nat, rest: string)
    requires JoinsScore(sep) && (rest != "" ==> !IsDigit(rest[0]))
    ensures MatchScore(ScoreWith(sep, rank, utility) + rest) == Some((rank, utility))
  {
    DecRoundTrip(rank);
    DecRoundTrip(utility);
    MatchScoreReads(ScoreWith(sep, rank, utility) + rest, sep, Dec(rank), Dec(utility), rest);
  }

  predicate NoDot(s: string, n: nat) {
    n <= |s| && forall i :: 0 <= i < n ==> s[i] != '\U{B7}'
  }

  /** The first `·` of `s` is at `p`, behind one comma or none. */
  predicate DotAt(s: string, p: nat, comma: bool) {
    && 0 < p && p + 2 < |s| && s[p] == '\U{B7}' && NoDot(s, p)
    && if comma then s[0] == ',' && s[p + 2] == 'u' && forall i :: 0 < i < p ==> s[i] != ','
       else p == 1 && s[p + 2] == 'r'
  }

  /** Where the first `·` of a score is, and what stands around it. */
  lemma FirstDot(s: string, sep: string, ranked: string, useful: string, rest: string) returns (p: nat)
    requires ReadsAs(s, sep, ranked, useful, rest)
    ensures DotAt(s, p, sep == ", ")
  {
    var n := |sep| + 5 + |ranked|;
    assert s[|sep| + 5..n] == ranked;
    assert s[n..n + 11] == " \U{B7} utility ";
    assert s[..|sep| + 5] == sep + "rank ";
    p := if sep == ", " then n + 1 else 1;
    assert s[p] == if sep == ", " then s[n..n + 11][1] else s[..8][1];
    assert s[p + 2] == if sep == ", " then s[n..n + 11][3] else s[..8][3];
    forall i | 0 <= i < p ensures s[i] != '\U{B7}' && (0 < i && sep == ", " ==> s[i] != ',') {
      if i < |sep| + 5 {
        assert s[i] == (sep + "rank ")[i];
      } else if i < n {
        assert s[i] == ranked[i - (|sep| + 5)];
      } else {
        assert s[i] == " \U{B7} utility "[0];
      }
    }
  }

  /** A text without `·` before a score has its first `·` where the score has it. */
  lemma DotMoves(s: string, k: nat, q: nat, comma: bool)
    requires NoDot(s, k) && DotAt(s[k..], q, comma)
    ensures k + q + 2 < |s| && s[k + q] == '\U{B7}' && NoDot(s, k + q)
    ensures s[k + q + 2] == (if comma then 'u' else 'r') && s[k] == s[k..][0]
  {
    forall i | k <= i < k + q ensures s[i] != '\U{B7}' {
      assert s[i] == s[k..][i - k];
    }
  }

  lemma NoOtherDot(s: string, k: nat, q: nat, comma: bool, p: nat, other: bool)
    requires 0 < k && NoDot(s, k) && DotAt(s[k..], q, comma)
    ensures !DotAt(s, p, other)
  {
    DotMoves(s, k, q, comma);
    assert DotAt(s, p, other) ==> p == k + q;
  }

  /** No score starts in a text without `·` that a printed score follows. */
  lemma NoScoreInGap(s: string, k: nat, sep: string, rank: nat, utility: nat, rest: string)
    requires 0 < k <= |s| && JoinsScore(sep) && (rest != "" ==> !IsDigit(rest[0]))
    requires s[k..] == ScoreWith(sep, rank, utility) + rest && NoDot(s, k)
    ensures MatchScore(s).None?
  {
    DecRoundTrip(rank);
    DecRoundTrip(utility);
    var q := FirstDot(s[k..], sep, Dec(rank), Dec(utility), rest);
    if MatchScore(s).Some? {
      var read, ranked, useful, left := MatchScoreParts(s);
      var p := FirstDot(s, read, ranked, useful, left);
      NoOtherDot(s, k, q, sep == ", ", p, read == ", ");
      assert false;
    }
  }

  lemma ConcatOfFour(g: seq<string>)
    requires |g| == 4
    ensures Concat(g) == g[0] + g[1] + g[2] + g[3]
  {
    assert g[1..][1..] == g[2..] && g[2..][1..] == g[3..] && g[3..][1..] == [];
    assert Concat(g[3..]) == g[3] + Concat([]);
    assert Concat(g[2..]) == g[2] + Concat(g[3..]);
    assert Concat(g[1..]) == g[1] + Concat(g[2..]);
  }

  // ---- rows ----

  /** A ranked row: its head line and the indented lines that continue it. `lines` is the row's
      `text`, kept as the physical lines it was built from. */
  datatype Row = Row(name: string, rank: nat, utility: nat, isProtected: bool, lines: seq<string>) {
    function Body(): string {
      Concat(lines)
    }
  }

  const VIA := " \U{B7} via "

  /** A caller `anchor:` route ranked the row: it is named after the first ` · via `. */
  predicate RoutesAnchored(line: string) {
    var via := Find(line, VIA, 0);
    via.Some? && Find(line, "anchor:", via.value + |VIA|).Some?
  }

  /** A line is ranked by an anchor route exactly when some ` · via ` is followed by `anchor:`. */
  lemma RoutesAnchoredIff(line: string)
    ensures RoutesAnchored(line) <==>
            exists i: nat, j: nat :: i + 7 <= j && OccursAt(line, " \U{B7} via ", i) && OccursAt(line, "anchor:", j)
  {
    var via := Find(line, VIA, 0);
    if via.Some? {
      var route := Find(line, "anchor:", via.value + |VIA|);
      assert route.Some? ==> OccursAt(line, " \U{B7} via ", via.value) && OccursAt(line, "anchor:", route.value);
    }
  }

  function ReadRow(line: string, anchored: bool): (r: Option<Row>)
    ensures r.Some? ==> "- **" <= line && r.value.lines == [line]
  {
    var head := MatchRow(line);
    if head.None? then None
    else Some(Row(head.value.name, head.value.rank, head.value.utility, anchored || RoutesAnchored(line), [line]))
  }

  /** How `ranked_blocks` reads a head line, given whether the page reports lexical anchors. */
  function Reader(anchored: bool): (read: string -> Option<Row>)
    ensures forall line :: read(line) == ReadRow(line, anchored)
  {
    line => ReadRow(line, anchored)
  }
}
