/** The trim marker line: its printer, the `TRIM_MARKER` pattern that reads it back, and
    the left-to-right scan `TRIM_MARKER.sub` makes over a page. */
module TrimMarker {
  import opened Options
  import opened Text
  import Utf8

  // ---- a pattern language just wide enough for TRIM_MARKER ----

  /** A literal, `\d+`, or `rh_[0-9a-f]{24}`. */
  datatype Token = Lit(text: string) | Number | HandleName

  const HANDLE_LEN := 27

  predicate IsHandle(h: string) {
    |h| == HANDLE_LEN && h[..3] == "rh_" && forall k :: 3 <= k < HANDLE_LEN ==> IsHex(h[k])
  }

  /** The text one token can stand for. */
  predicate TokenFits(t: Token, text: string) {
    match t
    case Lit(l) => text == l
    case Number => text != "" && AllDigits(text)
    case HandleName => IsHandle(text)
  }

  predicate Fits(tokens: seq<Token>, groups: seq<string>) {
    |tokens| == |groups| && forall i :: 0 <= i < |tokens| ==> TokenFits(tokens[i], groups[i])
  }

  /** How much of `s` one token takes. `\d+` is greedy; TRIM_MARKER never needs it to give a digit back. */
  function Take(t: Token, s: string): (r: Option<nat>)
    ensures r.Some? ==> r.value <= |s| && TokenFits(t, s[..r.value])
  {
    match t
    case Lit(l) => if l <= s then Some(|l|) else None
    case Number => if DigitRun(s) == 0 then None else Some(DigitRun(s))
    case HandleName => if |s| >= HANDLE_LEN && IsHandle(s[..HANDLE_LEN]) then Some(HANDLE_LEN) else None
  }

  /** Match the tokens in order at the start of `s`: the text each token took, and what is left. */
  function MatchTokens(tokens: seq<Token>, s: string): (r: Option<(seq<string>, string)>)
    decreases |tokens|
  {
    if tokens == [] then Some(([], s))
    else
      var n := Take(tokens[0], s);
      if n.None? then None
      else
        var r := MatchTokens(tokens[1..], s[n.value..]);
        if r.None? then None else Some(([s[..n.value]] + r.value.0, r.value.1))
  }

  /** A match splits the text into pieces the tokens stand for. */
  lemma {:induction false} MatchSound(tokens: seq<Token>, s: string)
    ensures var r := MatchTokens(tokens, s);
            r.Some? ==> Fits(tokens, r.value.0) && s == Concat(r.value.0) + r.value.1
    decreases |tokens|
  {
    if tokens != [] && MatchTokens(tokens, s).Some? {
      var n := Take(tokens[0], s).value;
      MatchSound(tokens[1..], s[n..]);
      var r := MatchTokens(tokens, s).value;
      assert r.0[1..] == MatchTokens(tokens[1..], s[n..]).value.0;
      assert s == s[..n] + s[n..];
    }
  }

  /** A number that ends the pattern takes every digit there is. */
  lemma {:induction false} LastNumberIsGreedy(tokens: seq<Token>, s: string)
    requires tokens != [] && tokens[|tokens| - 1].Number? && MatchTokens(tokens, s).Some?
    ensures var rest := MatchTokens(tokens, s).value.1; rest != "" ==> !IsDigit(rest[0])
    decreases |tokens|
  {
    var n := Take(tokens[0], s).value;
    if |tokens| == 1 {
      assert MatchTokens(tokens[1..], s[n..]) == Some(([], s[n..]));
    } else {
      LastNumberIsGreedy(tokens[1..], s[n..]);
    }
  }

  /** Every number but a last one is followed by a literal that does not start with a digit. */
  predicate Separated(tokens: seq<Token>) {
    forall i :: 0 <= i < |tokens| - 1 && tokens[i].Number? ==>
      tokens[i + 1].Lit? && tokens[i + 1].text != "" && !IsDigit(tokens[i + 1].text[0])
  }

  /** One token takes exactly the text it was printed as. */
  lemma TakePrinted(t: Token, text: string, rest: string)
    requires TokenFits(t, text)
    requires t.Number? && rest != "" ==> !IsDigit(rest[0])
    ensures Take(t, text + rest) == Some(|text|)
  {
    assert (text + rest)[..|text|] == text;
    if t.Number? {
      DigitRunUnique(text, rest);
    }
  }

  /** Whatever is printed is read back, whatever follows it. */
  lemma {:induction false} PrintMatches(tokens: seq<Token>, groups: seq<string>, rest: string)
    requires Fits(tokens, groups) && Separated(tokens)
    requires tokens != [] && tokens[|tokens| - 1].Number? && rest != "" ==> !IsDigit(rest[0])
    ensures MatchTokens(tokens, Concat(groups) + rest) == Some((groups, rest))
    decreases |tokens|
  {
    var s := Concat(groups) + rest;
    if tokens == [] {
      assert s == rest;
    } else {
      var more := Concat(groups[1..]) + rest;
      assert s == groups[0] + more;
      if tokens[0].Number? && |tokens| > 1 {
        assert TokenFits(tokens[1], groups[1]);
        assert more[0] == groups[1][0];
      }
      TakePrinted(tokens[0], groups[0], more);
      assert s[..|groups[0]|] == groups[0] && s[|groups[0]|..] == more;
      PrintMatches(tokens[1..], groups[1..], rest);
      assert groups == [groups[0]] + groups[1..];
    }
  }

  // ---- a match stays inside one physical line ----

  predicate NoBreak(s: string) {
    forall k :: 0 <= k < |s| ==> !IsBreak(s[k])
  }

  predicate HasBreak(s: string) {
    exists k :: 0 <= k < |s| && IsBreak(s[k])
  }

  predicate PlainLiterals(tokens: seq<Token>) {
    forall i :: 0 <= i < |tokens| && tokens[i].Lit? ==> NoBreak(tokens[i].text)
  }

  lemma FittingTextHasNoBreak(t: Token, text: string)
    requires TokenFits(t, text)
    requires t.Lit? ==> NoBreak(t.text)
    ensures NoBreak(text)
  {
    if t.HandleName? {
      assert forall k :: 0 <= k < 3 ==> text[k] == text[..3][k];
    }
  }

  lemma HasBreakAfter(a: string, n: nat)
    requires HasBreak(a) && n <= |a| && NoBreak(a[..n])
    ensures HasBreak(a[n..])
  {
    var k :| 0 <= k < |a| && IsBreak(a[k]);
    assert forall i :: 0 <= i < n ==> a[..n][i] == a[i];
    assert a[n..][k - n] == a[k];
  }

  lemma TakeIsLocal(t: Token, a: string, rest: string)
    requires HasBreak(a)
    requires t.Lit? ==> NoBreak(t.text)
    ensures Take(t, a + rest) == Take(t, a)
  {
    if t.Number? {
      var n := DigitRun(a);
      FittingDigits(a, n);
      HasBreakAfter(a, n);
      assert a + rest == a[..n] + (a[n..] + rest);
      DigitRunUnique(a[..n], a[n..] + rest);
    } else {
      var r := Take(t, a + rest);
      if r.Some? && r.value > |a| {
        FittingTextHasNoBreak(t, (a + rest)[..r.value]);
        assert forall k :: 0 <= k < |a| ==> (a + rest)[..r.value][k] == a[k];
        assert false;
      }
      assert |a| >= HANDLE_LEN ==> (a + rest)[..HANDLE_LEN] == a[..HANDLE_LEN];
      assert t.Lit? && |t.text| <= |a| ==> (a + rest)[..|t.text|] == a[..|t.text|];
    }
  }

  lemma FittingDigits(a: string, n: nat)
    requires n <= |a| && AllDigits(a[..n])
    ensures NoBreak(a[..n])
  {
  }

  /** A match never looks past the end of a physical line: what follows the line is irrelevant. */
  lemma {:induction false} MatchIsLocal(tokens: seq<Token>, a: string, rest: string)
    requires PlainLiterals(tokens) && HasBreak(a)
    ensures var r := MatchTokens(tokens, a);
            MatchTokens(tokens, a + rest) == (if r.None? then None else Some((r.value.0, r.value.1 + rest)))
            && (r.Some? ==> HasBreak(r.value.1))
    decreases |tokens|
  {
    if tokens != [] {
      TakeIsLocal(tokens[0], a, rest);
      var n := Take(tokens[0], a);
      if n.Some? {
        FittingTextHasNoBreak(tokens[0], a[..n.value]);
        HasBreakAfter(a, n.value);
        assert (a + rest)[..n.value] == a[..n.value];
        assert (a + rest)[n.value..] == a[n.value..] + rest;
        MatchIsLocal(tokens[1..], a[n.value..], rest);
      }
    }
  }

  // ---- the marker line ----

  /** TRIM_MARKER over its seven literal words. */
  function Pattern(w: seq<string>): (tokens: seq<Token>)
    requires |w| == 7
  {
    [Lit(w[0]), Number, Lit(w[1]), Number, Lit(w[2]), Number, Lit(w[3]), Number, Lit(w[4]), Number, Lit(w[5]),
     HandleName, Lit(w[6])]
  }

  function Groups(w: seq<string>, count: nat, first: nat, last: nat, bytes: nat, best: nat,
                  handle: string): (g: seq<string>)
    requires |w| == 7
  {
    [w[0], Dec(count), w[1], Dec(first), w[2], Dec(last), w[3], Dec(bytes), w[4], Dec(best), w[5], handle, w[6]]
  }

  predicate PlainWords(w: seq<string>) {
    && |w| == 7
    && (forall i :: 0 <= i < 7 ==> NoBreak(w[i]))
    && (forall i :: 1 <= i < 6 ==> w[i] != "" && !IsDigit(w[i][0]))
    && "- _" <= w[0]
  }

  lemma PatternShape(w: seq<string>)
    requires PlainWords(w)
    ensures Separated(Pattern(w)) && PlainLiterals(Pattern(w))
  {
  }

  lemma GroupsFit(w: seq<string>, count: nat, first: nat, last: nat, bytes: nat, best: nat, handle: string)
    requires |w| == 7 && IsHandle(handle)
    ensures Fits(Pattern(w), Groups(w, count, first, last, bytes, best, handle))
  {
    DecRoundTrip(count);
    DecRoundTrip(first);
    DecRoundTrip(last);
    DecRoundTrip(bytes);
    DecRoundTrip(best);
  }

  const RANKS := " lower-ranked " + "results (ranks "
  const UTILITY := " bytes): each " + "scored at most " + "half of this " + "page's best " + "utility "
  const RESTORE := ". To restore " + "them, call " + "`tracedecay_" + "retrieve` with" + " handle `"
  const CLOSING := "` (pass the " + "same `project_" + "selector` if " + "this call used" + " one)._"
  const WORDS := ["- _Trimmed ", RANKS, "-", ", ", UTILITY, RESTORE, CLOSING]

  lemma NoBreakAppend(a: string, b: string)
    requires NoBreak(a) && NoBreak(b)
    ensures NoBreak(a + b)
  {
  }

  lemma UtilityWord()
    ensures NoBreak(UTILITY)
  {
    assert NoBreak(" bytes): each ");
    NoBreakAppend(" bytes): each ", "scored at most ");
    NoBreakAppend(" bytes): each " + "scored at most ", "half of this ");
    NoBreakAppend(" bytes): each " + "scored at most " + "half of this ", "page's best ");
    NoBreakAppend(" bytes): each " + "scored at most " + "half of this " + "page's best ", "utility ");
  }

  lemma RestoreWord()
    ensures NoBreak(RESTORE)
  {
    assert NoBreak(". To restore ");
    NoBreakAppend(". To restore ", "them, call ");
    NoBreakAppend(". To restore " + "them, call ", "`tracedecay_");
    NoBreakAppend(". To restore " + "them, call " + "`tracedecay_", "retrieve` with");
    NoBreakAppend(". To restore " + "them, call " + "`tracedecay_" + "retrieve` with", " handle `");
  }

  lemma ClosingWord()
    ensures NoBreak(CLOSING)
  {
    assert NoBreak("` (pass the ");
    NoBreakAppend("` (pass the ", "same `project_");
    NoBreakAppend("` (pass the " + "same `project_", "selector` if ");
    NoBreakAppend("` (pass the " + "same `project_" + "selector` if ", "this call used");
    NoBreakAppend("` (pass the " + "same `project_" + "selector` if " + "this call used", " one)._");
  }

  lemma WordsArePlain()
    ensures PlainWords(WORDS)
  {
    UtilityWord();
    RestoreWord();
    ClosingWord();
    NoBreakAppend(" lower-ranked ", "results (ranks ");
    assert NoBreak("- _Trimmed ");
  }

  /** What a match of TRIM_MARKER exposes: group(0), `count`, `bytes` and `handle`. */
  datatype Marker = Marker(text: string, count: nat, bytes: nat, handle: string)

  function MatchWords(w: seq<string>, s: string): (r: Option<Marker>)
    requires |w| == 7
    ensures r.Some? ==> r.value.text != "" || w[0] == ""
    ensures r.Some? ==> r.value.text <= s && IsHandle(r.value.handle)
  {
    var m := MatchTokens(Pattern(w), s);
    if m.None? then None
    else
      MatchSound(Pattern(w), s);
      var (groups, rest) := m.value;
      assert TokenFits(Pattern(w)[0], groups[0]) && TokenFits(Pattern(w)[11], groups[11]);
      assert TokenFits(Pattern(w)[1], groups[1]) && TokenFits(Pattern(w)[7], groups[7]);
      var text := Concat(groups) + (if rest != "" && rest[0] == '\n' then "\n" else "");
      Some(Marker(text, ParseDec(groups[1]), ParseDec(groups[7]), groups[11]))
  }

  /** TRIM_MARKER at the start of `s`; the trailing line feed is taken when it is there. */
  function MatchMarker(s: string): (r: Option<Marker>)
    ensures r.Some? ==> r.value.text != "" && r.value.text <= s && IsHandle(r.value.handle)
  {
    MatchWords(WORDS, s)
  }

  function LineOf(w: seq<string>, count: nat, first: nat, last: nat, bytes: nat, best: nat, handle: string): string
    requires |w| == 7
  {
    Concat(Groups(w, count, first, last, bytes, best, handle)) + "\n"
  }

  /** The printed marker line. */
  function MarkerText(count: nat, first: nat, last: nat, bytes: nat, best: nat, handle: string): (s: string) {
    LineOf(WORDS, count, first, last, bytes, best, handle)
  }

  lemma LineReadsBack(w: seq<string>, count: nat, first: nat, last: nat, bytes: nat, best: nat, handle: string,
                      rest: string)
    requires PlainWords(w) && IsHandle(handle)
    ensures var text := LineOf(w, count, first, last, bytes, best, handle);
            MatchWords(w, text + rest) == Some(Marker(text, count, bytes, handle))
  {
    var groups := Groups(w, count, first, last, bytes, best, handle);
    PatternShape(w);
    GroupsFit(w, count, first, last, bytes, best, handle);
    PrintMatches(Pattern(w), groups, "\n" + rest);
    assert Concat(groups) + ("\n" + rest) == LineOf(w, count, first, last, bytes, best, handle) + rest;
    DecRoundTrip(count);
    DecRoundTrip(bytes);
  }

  /** Printing then matching returns the printed line and its metadata, whatever follows. */
  lemma MarkerReadsBack(count: nat, first: nat, last: nat, bytes: nat, best: nat, handle: string, rest: string)
    requires IsHandle(handle)
    ensures var text := MarkerText(count, first, last, bytes, best, handle);
            MatchMarker(text + rest) == Some(Marker(text, count, bytes, handle))
  {
    WordsArePlain();
    LineReadsBack(WORDS, count, first, last, bytes, best, handle, rest);
  }

  lemma LineSays(w: seq<string>, count: nat, first: nat, last: nat, bytes: nat, best: nat, handle: string)
    requires |w| == 7
    ensures LineOf(w, count, first, last, bytes, best, handle)
            == Concat([w[0], Dec(count), w[1], Dec(first), w[2], Dec(last), w[3], Dec(bytes), w[4], Dec(best), w[5],
                       handle, w[6], "\n"])
  {
    var groups := Groups(w, count, first, last, bytes, best, handle);
    ConcatAppend(groups, ["\n"]);
    assert Concat(["\n"]) == "\n" + Concat([]);
    assert groups + ["\n"] == [w[0], Dec(count), w[1], Dec(first), w[2], Dec(last), w[3], Dec(bytes), w[4], Dec(best),
                               w[5], handle, w[6], "\n"];
  }

  /** The printed line is the sentence with the count, the ranks, the bytes, the best utility and the
      handle in their places. */
  lemma MarkerSays(count: nat, first: nat, last: nat, bytes: nat, best: nat, handle: string)
    ensures MarkerText(count, first, last, bytes, best, handle)
            == Concat(["- _Trimmed ", Dec(count), RANKS, Dec(first), "-", Dec(last), ", ", Dec(bytes), UTILITY,
                       Dec(best), RESTORE, handle, CLOSING, "\n"])
  {
    LineSays(WORDS, count, first, last, bytes, best, handle);
  }

  lemma LineNumbers(w: seq<string>, count: nat, first: nat, last: nat, bytes: nat, best: nat, handle: string,
                    rest: string)
    requires PlainWords(w) && IsHandle(handle)
    ensures var m := MatchTokens(Pattern(w), LineOf(w, count, first, last, bytes, best, handle) + rest);
            && m.Some? && |m.value.0| == 13
            && m.value.0[3] == Dec(first) && m.value.0[5] == Dec(last) && m.value.0[9] == Dec(best)
  {
    var groups := Groups(w, count, first, last, bytes, best, handle);
    PatternShape(w);
    GroupsFit(w, count, first, last, bytes, best, handle);
    PrintMatches(Pattern(w), groups, "\n" + rest);
    assert Concat(groups) + ("\n" + rest) == LineOf(w, count, first, last, bytes, best, handle) + rest;
  }

  /** The three numbers TRIM_MARKER does not name read back as well: the ranks of the first and the last
      cut row, and the best utility. */
  lemma MarkerNumbersReadBack(count: nat, first: nat, last: nat, bytes: nat, best: nat, handle: string, rest: string)
    requires IsHandle(handle)
    ensures var m := MatchTokens(Pattern(WORDS), MarkerText(count, first, last, bytes, best, handle) + rest);
            && m.Some? && |m.value.0| == 13
            && m.value.0[3] == Dec(first) && m.value.0[5] == Dec(last) && m.value.0[9] == Dec(best)
  {
    WordsArePlain();
    LineNumbers(WORDS, count, first, last, bytes, best, handle, rest);
  }

  lemma WordsAreLocal(w: seq<string>, l: string, rest: string)
    requires PlainWords(w) && HasBreak(l)
    ensures MatchWords(w, l + rest) == MatchWords(w, l)
  {
    PatternShape(w);
    MatchIsLocal(Pattern(w), l, rest);
  }

  /** Whether a line opens with a marker does not depend on the lines after it. */
  lemma MarkerIsLocal(l: string, rest: string)
    requires OneLine(l)
    requires rest == "" || Junction(l, rest)
    ensures MatchMarker(l + rest) == MatchMarker(l)
  {
    if rest == "" {
      assert l + rest == l;
    } else {
      WordsArePlain();
      WordsAreLocal(WORDS, l, rest);
    }
  }

  lemma LineIsOneLine(w: seq<string>, count: nat, first: nat, last: nat, bytes: nat, best: nat, handle: string)
    requires PlainWords(w) && IsHandle(handle)
    ensures var text := LineOf(w, count, first, last, bytes, best, handle);
            OneLine(text) && Last(text) == '\n' && "- _" <= text
  {
    var groups := Groups(w, count, first, last, bytes, best, handle);
    PatternShape(w);
    GroupsFit(w, count, first, last, bytes, best, handle);
    ConcatHasNoBreak(Pattern(w), groups);
    LineFeedEndsLine(Concat(groups));
  }

  /** The marker is one line that ends in a line feed and opens with `- _`. */
  lemma MarkerIsOneLine(count: nat, first: nat, last: nat, bytes: nat, best: nat, handle: string)
    requires IsHandle(handle)
    ensures var text := MarkerText(count, first, last, bytes, best, handle);
            OneLine(text) && Last(text) == '\n' && "- _" <= text
  {
    WordsArePlain();
    LineIsOneLine(WORDS, count, first, last, bytes, best, handle);
  }

  lemma {:induction false} ConcatHasNoBreak(tokens: seq<Token>, groups: seq<string>)
    requires Fits(tokens, groups) && PlainLiterals(tokens)
    ensures NoBreak(Concat(groups))
    decreases |tokens|
  {
    if tokens != [] {
      FittingTextHasNoBreak(tokens[0], groups[0]);
      ConcatHasNoBreak(tokens[1..], groups[1..]);
    }
  }

  lemma {:induction false} LineFeedEndsLine(body: string)
    requires NoBreak(body)
    ensures OneLine(body + "\n")
  {
    if body == "" {
      assert body + "\n" == "\n";
    } else {
      LineFeedEndsLine(body[1..]);
      assert (body + "\n")[1..] == body[1..] + "\n";
    }
  }

  lemma LineParts(w: seq<string>, count: nat, first: nat, last: nat, bytes: nat, best: nat, h: string,
                  head: seq<string>)
    requires |w| == 7 && IsHandle(h)
    requires head == Groups(w, count, first, last, bytes, best, h)[..11]
    ensures Utf8.Size(LineOf(w, count, first, last, bytes, best, h))
            == Utf8.Size(Concat(head)) + HANDLE_LEN + Utf8.Size(w[6] + "\n")
  {
    var groups := Groups(w, count, first, last, bytes, best, h);
    assert groups == head + [h, w[6]];
    ConcatAppend(head, [h, w[6]]);
    assert [h, w[6]][1..] == [w[6]];
    assert Concat([w[6]]) == w[6] + Concat([]);
    var tail := w[6] + "\n";
    assert LineOf(w, count, first, last, bytes, best, h) == Concat(head) + (h + tail);
    Utf8.EncodeAppend(Concat(head), h + tail);
    Utf8.EncodeAppend(h, tail);
    assert forall k :: 0 <= k < 3 ==> h[k] == h[..3][k];
    Utf8.AsciiSize(h);
  }

  /** All handles have the same size, so all markers for one cut do. */
  lemma MarkerSizeIgnoresHandle(count: nat, first: nat, last: nat, bytes: nat, best: nat, h: string, k: string)
    requires IsHandle(h) && IsHandle(k)
    ensures Utf8.Size(MarkerText(count, first, last, bytes, best, h))
            == Utf8.Size(MarkerText(count, first, last, bytes, best, k))
  {
    var head := Groups(WORDS, count, first, last, bytes, best, h)[..11];
    LineParts(WORDS, count, first, last, bytes, best, h, head);
    LineParts(WORDS, count, first, last, bytes, best, k, head);
  }

  // ---- TRIM_MARKER.sub over a page ----

  /** One step of the scan: a character outside every match, or a whole match. */
  datatype Piece = Raw(c: char) | Mark(m: Marker)

  /** A pattern tried at one position. */
  type Finder = find: string -> Option<Marker> | FindsPrefixes(find) witness (s => None)

  ghost predicate FindsPrefixes(find: string -> Option<Marker>) {
    forall s :: find(s).Some? ==> find(s).value.text != "" && find(s).value.text <= s
  }

  /** Whether the pattern matches at the start of a line depends on that line alone. */
  ghost predicate LineLocal(find: string -> Option<Marker>) {
    forall l: string, rest: string ::
      OneLine(l) && (rest == "" || Junction(l, rest)) ==> find(l + rest) == find(l)
  }

  /** The matches `re.sub` finds, left to right and non-overlapping. `bol` says that `^` holds here:
      under `re.M` that is the start of the page or just after a line feed. */
  function Scan(find: Finder, s: string, bol: bool): (pieces: seq<Piece>)
    decreases |s|
  {
    if s == "" then []
    else
      var m := find(s);
      if bol && m.Some? then
        var text := m.value.text;
        [Mark(m.value)] + Scan(find, s[|text|..], Last(text) == '\n')
      else [Raw(s[0])] + Scan(find, s[1..], s[0] == '\n')
  }

  lemma MarkersAreLineLocal()
    ensures FindsPrefixes(MatchMarker) && LineLocal(MatchMarker)
  {
    forall l: string, rest: string | OneLine(l) && (rest == "" || Junction(l, rest))
      ensures MatchMarker(l + rest) == MatchMarker(l)
    {
      MarkerIsLocal(l, rest);
    }
  }

  function RawPieces(s: string): (pieces: seq<Piece>) {
    if s == "" then [] else [Raw(s[0])] + RawPieces(s[1..])
  }

  /** Away from a line start the scan copies characters through. */
  lemma {:induction false} ScanCopiesInterior(find: Finder, m: string, rest: string)
    requires m != ""
    requires forall k :: 0 <= k < |m| - 1 ==> m[k] != '\n'
    ensures Scan(find, m + rest, false) == RawPieces(m) + Scan(find, rest, Last(m) == '\n')
  {
    assert (m + rest)[1..] == m[1..] + rest;
    if |m| == 1 {
      assert m[1..] + rest == rest;
      assert RawPieces(m) == [Raw(m[0])] + RawPieces(m[1..]);
    } else {
      ScanCopiesInterior(find, m[1..], rest);
      var x, y, z := [Raw(m[0])], RawPieces(m[1..]), Scan(find, rest, Last(m) == '\n');
      assert x + (y + z) == (x + y) + z;
    }
  }

  /** A line that is not a marker at a line start passes through unchanged. */
  lemma ScanCopiesLine(find: Finder, l: string, rest: string, bol: bool)
    requires LineLocal(find) && OneLine(l)
    requires rest == "" || Junction(l, rest)
    requires bol ==> find(l).None?
    ensures Scan(find, l + rest, bol) == RawPieces(l) + Scan(find, rest, Last(l) == '\n')
  {
    assert find(l + rest) == find(l);
    forall k | 0 <= k < |l| - 1 ensures l[k] != '\n' {
      OneLineInterior(l, k);
    }
    ScanCopiesInterior(find, l, rest);
    var s := l + rest;
    assert Scan(find, s, bol) == [Raw(s[0])] + Scan(find, s[1..], s[0] == '\n') == Scan(find, s, false);
  }

  /** A printed marker at a line start is found whole. */
  lemma ScanFindsMarker(find: Finder, m: Marker, rest: string)
    requires m.text != "" && Last(m.text) == '\n'
    requires find(m.text + rest) == Some(m)
    ensures Scan(find, m.text + rest, true) == [Mark(m)] + Scan(find, rest, true)
  {
    assert (m.text + rest)[|m.text|..] == rest;
  }
}
