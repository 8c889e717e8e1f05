/** Anchors and the evidence they are searched in: joining segments with line feeds neither makes
    nor breaks an occurrence. */
module Evidence {
  import opened Text
  import opened Words

  datatype Kind = PathAnchor | SymbolAnchor | QuoteAnchor

  /** An anchor of a result line: the literal text its pattern looks for, and the pattern's kind. */
  datatype Anchor = Anchor(kind: Kind, key: string)

  /** The regular-expression class `\w`. */
  type WordClass = isWord: char -> bool | !isWord('\n') witness (c => false)

  /** The character class a path may not follow: `[\w.@+-]`. */
  predicate PathCharacter(isWord: WordClass, c: char) {
    isWord(c) || c == '.' || c == '@' || c == '+' || c == '-'
  }

  predicate LeftBlocked(isWord: WordClass, kind: Kind, c: char) {
    match kind
    case PathAnchor => PathCharacter(isWord, c)
    case SymbolAnchor => isWord(c)
    case QuoteAnchor => false
  }

  predicate RightBlocked(isWord: WordClass, kind: Kind, c: char) {
    kind != QuoteAnchor && isWord(c)
  }

  /** The anchor's pattern matches `text` at `k`. */
  predicate MatchesAt(isWord: WordClass, a: Anchor, text: string, k: nat) {
    && OccursAt(text, a.key, k)
    && (k > 0 ==> !LeftBlocked(isWord, a.kind, text[k - 1]))
    && (k + |a.key| < |text| ==> !RightBlocked(isWord, a.kind, text[k + |a.key|]))
  }

  /** `pattern.search(text)`. */
  predicate Occurs(isWord: WordClass, a: Anchor, text: string) {
    exists k :: 0 <= k <= |text| && MatchesAt(isWord, a, text, k)
  }

  /** What may stand on either side of a match: a path follows no path character, a symbol no word
      character, neither is followed by a word character, and a quote may stand anywhere. */
  predicate Stands(isWord: WordClass, kind: Kind, left: string, right: string) {
    match kind
    case PathAnchor =>
      && (left != "" ==> !isWord(Last(left)) && Last(left) !in ".@+-")
      && (right != "" ==> !isWord(right[0]))
    case SymbolAnchor => (left != "" ==> !isWord(Last(left))) && (right != "" ==> !isWord(right[0]))
    case QuoteAnchor => true
  }

  lemma MatchStands(isWord: WordClass, a: Anchor, left: string, right: string)
    ensures MatchesAt(isWord, a, left + a.key + right, |left|) <==> Stands(isWord, a.kind, left, right)
  {
    var text := left + a.key + right;
    assert text[|left|..|left| + |a.key|] == a.key;
    assert left != "" ==> text[|left| - 1] == Last(left);
    assert right != "" ==> text[|left| + |a.key|] == right[0];
  }

  /** An anchor occurs in a text exactly when the text is some left part, the anchor's key and some
      right part that it may stand between. */
  lemma OccursIff(isWord: WordClass, a: Anchor, text: string)
    ensures Occurs(isWord, a, text) <==>
            exists left, right :: text == left + a.key + right && Stands(isWord, a.kind, left, right)
  {
    if Occurs(isWord, a, text) {
      var k :| 0 <= k <= |text| && MatchesAt(isWord, a, text, k);
      var left, right := text[..k], text[k + |a.key|..];
      assert text == left + a.key + right;
      MatchStands(isWord, a, left, right);
    }
    forall left, right | text == left + a.key + right && Stands(isWord, a.kind, left, right)
      ensures Occurs(isWord, a, text)
    {
      MatchStands(isWord, a, left, right);
    }
  }

  /** `"\n".join(segments)`. */
  function JoinLines(segments: seq<string>): (s: string) {
    if segments == [] then ""
    else if |segments| == 1 then segments[0]
    else segments[0] + "\n" + JoinLines(segments[1..])
  }

  /** Keys that no newline can split. */
  predicate Plain(a: Anchor) {
    a.key != "" && forall k :: 0 <= k < |a.key| ==> a.key[k] != '\n'
  }

  /** A match inside the left part of a joined text is a match of the left part. */
  lemma MatchInLeft(isWord: WordClass, a: Anchor, left: string, right: string, k: nat)
    requires Plain(a) && k + |a.key| <= |left|
    ensures MatchesAt(isWord, a, left + "\n" + right, k) <==> MatchesAt(isWord, a, left, k)
  {
    var text := left + "\n" + right;
    assert text[k..k + |a.key|] == left[k..k + |a.key|];
    assert forall i :: 0 <= i < |left| ==> text[i] == left[i];
    assert text[|left|] == '\n';
  }

  lemma OccursRight(left: string, right: string, key: string, k: nat, text: string)
    requires text == left + "\n" + right
    ensures OccursAt(text, key, |left| + 1 + k) <==> OccursAt(right, key, k)
    ensures text[|left|] == '\n' && forall i :: 0 <= i < |right| ==> text[|left| + 1 + i] == right[i]
  {
    var j := |left| + 1 + k;
    if j + |key| <= |text| {
      assert text[j..j + |key|] == right[k..k + |key|];
    }
  }

  lemma MatchInRight(isWord: WordClass, a: Anchor, left: string, right: string, k: nat)
    requires Plain(a)
    ensures MatchesAt(isWord, a, left + "\n" + right, |left| + 1 + k) <==> MatchesAt(isWord, a, right, k)
  {
    var text, j := left + "\n" + right, |left| + 1 + k;
    OccursRight(left, right, a.key, k, text);
    assert k > 0 && OccursAt(right, a.key, k) ==> text[j - 1] == right[k - 1];
    assert !LeftBlocked(isWord, a.kind, '\n');
  }

  /** A key without a newline cannot lie across the joint. */
  lemma NoMatchAcross(isWord: WordClass, a: Anchor, left: string, right: string, k: nat)
    requires Plain(a) && k <= |left| < k + |a.key|
    ensures !MatchesAt(isWord, a, left + "\n" + right, k)
  {
    var text := left + "\n" + right;
    if k + |a.key| <= |text| {
      assert text[k..k + |a.key|][|left| - k] == text[|left|] == '\n';
    }
  }

  lemma OccursInTwo(isWord: WordClass, a: Anchor, left: string, right: string)
    requires Plain(a)
    ensures Occurs(isWord, a, left + "\n" + right) <==> Occurs(isWord, a, left) || Occurs(isWord, a, right)
  {
    var text := left + "\n" + right;
    if Occurs(isWord, a, left) {
      var k :| 0 <= k <= |left| && MatchesAt(isWord, a, left, k);
      MatchInLeft(isWord, a, left, right, k);
    }
    if Occurs(isWord, a, right) {
      var k :| 0 <= k <= |right| && MatchesAt(isWord, a, right, k);
      MatchInRight(isWord, a, left, right, k);
    }
    if Occurs(isWord, a, text) {
      var k :| 0 <= k <= |text| && MatchesAt(isWord, a, text, k);
      if k + |a.key| <= |left| {
        MatchInLeft(isWord, a, left, right, k);
      } else if k <= |left| {
        NoMatchAcross(isWord, a, left, right, k);
      } else {
        MatchInRight(isWord, a, left, right, k - |left| - 1);
      }
    }
  }

  ghost predicate OccursInSome(isWord: WordClass, a: Anchor, segments: seq<string>) {
    exists i :: 0 <= i < |segments| && Occurs(isWord, a, segments[i])
  }

  /** An anchor occurs in the joined evidence exactly when it occurs in one of its segments. */
  lemma {:induction false} JoinIsFaithful(isWord: WordClass, a: Anchor, segments: seq<string>)
    requires Plain(a)
    ensures Occurs(isWord, a, JoinLines(segments)) <==> OccursInSome(isWord, a, segments)
  {
    if |segments| > 1 {
      JoinIsFaithful(isWord, a, segments[1..]);
      OccursInTwo(isWord, a, segments[0], JoinLines(segments[1..]));
      assert forall i :: 0 <= i < |segments[1..]| ==> segments[1..][i] == segments[i + 1];
      if OccursInSome(isWord, a, segments) {
        var i :| 0 <= i < |segments| && Occurs(isWord, a, segments[i]);
        assert i > 0 ==> segments[1..][i - 1] == segments[i];
      }
    } else if segments == [] {
      assert forall k: nat :: !OccursAt("", a.key, k);
    }
  }

  // ---- where anchors come from ----

  const MIN_QUOTE := 24

  /** What the three patterns can produce from a line: the path and symbol classes hold no white
      space, and a quote is the whole line in canonical form. */
  predicate AnchorOf(isWord: WordClass, line: string, a: Anchor) {
    match a.kind
    case PathAnchor =>
      a.key != "" && forall k :: 0 <= k < |a.key| ==> PathCharacter(isWord, a.key[k]) || a.key[k] == '/'
    case SymbolAnchor => a.key != "" && forall k :: 0 <= k < |a.key| ==> isWord(a.key[k]) || a.key[k] == ':'
    case QuoteAnchor => a.key == CanonicalText(line) && |a.key| >= MIN_QUOTE
  }

  /** The anchors spelled out by kind. */
  lemma AnchorOfIff(isWord: WordClass, line: string, key: string)
    ensures AnchorOf(isWord, line, Anchor(PathAnchor, key)) <==>
            key != "" && forall c <- key :: isWord(c) || c in ".@+-/"
    ensures AnchorOf(isWord, line, Anchor(SymbolAnchor, key)) <==> key != "" && forall c <- key :: isWord(c) || c == ':'
    ensures AnchorOf(isWord, line, Anchor(QuoteAnchor, key)) <==> key == CanonicalText(line) && |key| >= 24
  {
    assert forall k :: 0 <= k < |key| ==> key[k] in key;
    assert forall c :: c in ".@+-/" <==> c == '.' || c == '@' || c == '+' || c == '-' || c == '/';
  }

  lemma {:induction false} JoinedWordsHaveNoLineFeed(words: seq<string>)
    requires AllWords(words)
    ensures forall k :: 0 <= k < |JoinWords(words)| ==> JoinWords(words)[k] != '\n'
  {
    if words != [] {
      assert IsSpace('\n');
      if |words| > 1 {
        JoinedWordsHaveNoLineFeed(words[1..]);
      }
    }
  }

  lemma AnchorsArePlain(isWord: WordClass, line: string, a: Anchor)
    requires AnchorOf(isWord, line, a)
    ensures Plain(a)
  {
    SplitGivesWords(line);
    JoinedWordsHaveNoLineFeed(SplitWords(line));
  }
}
