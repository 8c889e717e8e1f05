/** For which queries the script's test of a name and the binary's agree on every name. */
module QueryAgreement {
  import opened Text
  import opened QueryTest

  // ---- lower cases as a code ----

  /** Some character's lower case starts with `x`. */
  ghost predicate IsHead(c: Casing, x: char) {
    exists e :: c.binaryAlnum(e) && c.lower(e) != "" && c.lower(e)[0] == x
  }

  predicate StartsSigma(s: string) {
    s != "" && (s[0] == SIGMA || s[0] == FINAL_SIGMA)
  }

  /** What more the tables have in common: the later characters of a lower case start none, the script
      and the binary-only lower cases start differently, and the sigmas have the lower cases they have. */
  ghost predicate Coded(c: Casing) {
    && Tables(c)
    && (forall e, k :: c.binaryAlnum(e) && 1 <= k < |c.lower(e)| ==> !IsHead(c, c.lower(e)[k]))
    && (forall x, y :: c.scriptAlnum(x) && BinaryOnly(c, y) ==> c.lower(x)[0] != c.lower(y)[0])
    && (forall e :: c.binaryAlnum(e) && StartsSigma(c.lower(e)) ==> |c.lower(e)| == 1)
    && c.scriptAlnum(CAPITAL_SIGMA) && c.scriptAlnum(FINAL_SIGMA) && c.lower(FINAL_SIGMA) == [FINAL_SIGMA]
  }

  /** One head, at the start. */
  ghost predicate CodeWord(c: Casing, w: string) {
    w != "" && IsHead(c, w[0]) && forall k :: 1 <= k < |w| ==> !IsHead(c, w[k])
  }

  lemma LowerIsCodeWord(c: Casing, e: char)
    requires Coded(c) && c.binaryAlnum(e)
    ensures CodeWord(c, c.lower(e))
  {
    assert IsHead(c, c.lower(e)[0]);
  }

  lemma SigmasAreCodeWords(c: Casing)
    requires Coded(c)
    ensures CodeWord(c, [SIGMA]) && CodeWord(c, [FINAL_SIGMA])
  {
    LowerIsCodeWord(c, CAPITAL_SIGMA);
    LowerIsCodeWord(c, FINAL_SIGMA);
  }

  ghost predicate CodeWords(c: Casing, blocks: seq<string>) {
    forall i :: 0 <= i < |blocks| ==> CodeWord(c, blocks[i])
  }

  lemma ConcatFirst(blocks: seq<string>)
    requires blocks != [] && blocks[0] != ""
    ensures Concat(blocks) != "" && Concat(blocks)[0] == blocks[0][0]
  {
  }

  /** A code word in a text made of code words starts one of them. */
  lemma {:induction false} WithinIsPrefix(c: Casing, blocks: seq<string>, part: string)
    requires CodeWords(c, blocks) && CodeWord(c, part) && Within(part, Concat(blocks))
    ensures exists i :: 0 <= i < |blocks| && part <= blocks[i]
  {
    WithinIsShorter(part, Concat(blocks));
    var a, b :| Concat(blocks) == a + part + b;
    var first, rest := blocks[0], Concat(blocks[1..]);
    if |a| >= |first| {
      WithinRest(a, part, b, first, rest);
      WithinIsPrefix(c, blocks[1..], part);
      var i :| 0 <= i < |blocks[1..]| && part <= blocks[1..][i];
      assert blocks[i + 1] == blocks[1..][i];
    } else {
      assert (first + rest)[|a|] == part[0];
      assert a == "";
      if |blocks| > 1 {
        ConcatFirst(blocks[1..]);
      }
      CodeWordEnds(c, first, rest, part, b);
      assert part == (first + rest)[..|part|] == first[..|part|];
      assert part <= blocks[0];
    }
  }

  lemma CodeWordEnds(c: Casing, first: string, rest: string, part: string, b: string)
    requires CodeWord(c, part) && part + b == first + rest && first != "" && (rest == "" || IsHead(c, rest[0]))
    ensures |part| <= |first|
  {
    var s := first + rest;
    assert forall k :: 0 <= k < |part| ==> part[k] == s[k];
    assert rest != "" ==> s[|first|] == rest[0];
  }

  lemma WithinRest(a: string, part: string, b: string, first: string, rest: string)
    requires a + part + b == first + rest && |a| >= |first|
    ensures Within(part, rest)
  {
    var n := |first|;
    assert rest == (first + rest)[n..] == (a + part + b)[n..];
    assert (a + part + b)[n..] == a[n..] + part + b;
  }

  lemma {:induction false} BlockIsWithin(blocks: seq<string>, i: nat, part: string)
    requires i < |blocks| && part <= blocks[i]
    ensures Within(part, Concat(blocks))
  {
    if i == 0 {
      var b := blocks[0];
      assert Concat(blocks) == "" + part + (b[|part|..] + Concat(blocks[1..]));
    } else {
      BlockIsWithin(blocks[1..], i - 1, part);
      WithinLonger(part, Concat(blocks[1..]), blocks[0], "");
      Nil(blocks[0] + Concat(blocks[1..]));
    }
  }

  lemma WithinIsFound(s: string, part: string)
    requires Within(part, s)
    ensures Find(s, part, 0).Some?
  {
    var a, b :| s == a + part + b;
    assert s[|a|..|a| + |part|] == part;
    assert OccursAt(s, part, |a|);
  }

  /** A code word occurs in a text made of code words exactly when it starts one of them. */
  lemma FoundIff(c: Casing, blocks: seq<string>, part: string)
    requires CodeWords(c, blocks) && CodeWord(c, part)
    ensures Find(Concat(blocks), part, 0).Some? <==> exists i :: 0 <= i < |blocks| && part <= blocks[i]
  {
    if Find(Concat(blocks), part, 0).Some? {
      FoundIsWithin(Concat(blocks), part);
      WithinIsPrefix(c, blocks, part);
    }
    if exists i :: 0 <= i < |blocks| && part <= blocks[i] {
      var i :| 0 <= i < |blocks| && part <= blocks[i];
      BlockIsWithin(blocks, i, part);
      WithinIsFound(Concat(blocks), part);
    }
  }

  // ---- the folds as texts of code words ----

  function LowerBlocks(lower: char -> string, s: string): (blocks: seq<string>)
    ensures |blocks| == |s| && forall i :: 0 <= i < |s| ==> blocks[i] == lower(s[i])
  {
    if s == "" then [] else [lower(s[0])] + LowerBlocks(lower, s[1..])
  }

  lemma {:induction false} LowerEachIsBlocks(lower: char -> string, s: string)
    ensures LowerEach(lower, s) == Concat(LowerBlocks(lower, s))
  {
    if s != "" {
      LowerEachIsBlocks(lower, s[1..]);
      Cons(lower(s[0]), LowerBlocks(lower, s[1..]));
    }
  }

  function ScriptBlocks(c: Casing, s: string): (blocks: seq<string>) {
    seq(|s|, i requires 0 <= i < |s| => LowerAt(c, s, i))
  }

  lemma {:induction false} LowerFromIsBlocks(c: Casing, s: string, i: nat)
    requires i <= |s|
    ensures LowerFrom(c, s, i) == Concat(ScriptBlocks(c, s)[i..])
    decreases |s| - i
  {
    if i < |s| {
      LowerFromIsBlocks(c, s, i + 1);
      SliceStep(ScriptBlocks(c, s), i);
    }
  }

  lemma ScriptBlocksAreCodeWords(c: Casing, s: string)
    requires Coded(c) && forall x <- s :: c.scriptAlnum(x)
    ensures CodeWords(c, ScriptBlocks(c, s))
  {
    SigmasAreCodeWords(c);
    forall i | 0 <= i < |s| ensures CodeWord(c, LowerAt(c, s, i)) {
      LowerIsCodeWord(c, s[i]);
    }
  }

  lemma {:induction false} KeptMembers(alnum: char -> bool, s: string, x: char)
    ensures x in Kept(alnum, s) <==> x in s && alnum(x)
  {
    if s != "" {
      KeptMembers(alnum, s[1..], x);
      Uncons(s);
    }
  }

  /** A code word occurs in the binary's fold of a name exactly when it starts the lower case of one of its
      letters. */
  lemma BinaryHoldsIff(c: Casing, name: string, w: string)
    requires Coded(c) && CodeWord(c, w)
    ensures Find(BinaryFold(c, name), w, 0).Some? <==> exists e :: e in name && c.binaryAlnum(e) && w <= c.lower(e)
  {
    var kept := Kept(c.binaryAlnum, name);
    var blocks := LowerBlocks(c.lower, kept);
    LowerEachIsBlocks(c.lower, kept);
    KeptIsAlnum(c.binaryAlnum, name);
    forall i | 0 <= i < |blocks| ensures CodeWord(c, blocks[i]) {
      assert kept[i] in kept;
      LowerIsCodeWord(c, kept[i]);
    }
    FoundIff(c, blocks, w);
    if exists i :: 0 <= i < |blocks| && w <= blocks[i] {
      var i :| 0 <= i < |blocks| && w <= blocks[i];
      KeptMembers(c.binaryAlnum, name, kept[i]);
    }
    forall e | e in name && c.binaryAlnum(e) && w <= c.lower(e)
      ensures exists i :: 0 <= i < |blocks| && w <= blocks[i]
    {
      KeptMembers(c.binaryAlnum, name, e);
      var i :| 0 <= i < |kept| && kept[i] == e;
      assert w <= blocks[i];
    }
  }

  predicate StartsAt(c: Casing, s: string, w: string, i: int) {
    0 <= i < |s| && w <= LowerAt(c, s, i)
  }

  ghost predicate StartsSome(c: Casing, s: string, w: string) {
    exists i :: StartsAt(c, s, w, i)
  }

  ghost predicate Occurs(s: string, w: string) {
    Find(s, w, 0).Some?
  }

  lemma ScriptBlocksIff(c: Casing, s: string, w: string)
    requires CodeWords(c, ScriptBlocks(c, s)) && CodeWord(c, w)
    ensures Occurs(LowerFrom(c, s, 0), w) <==> StartsSome(c, s, w)
  {
    var blocks := ScriptBlocks(c, s);
    LowerFromIsBlocks(c, s, 0);
    assert blocks[0..] == blocks;
    FoundIff(c, blocks, w);
    if exists i :: 0 <= i < |blocks| && w <= blocks[i] {
      var i :| 0 <= i < |blocks| && w <= blocks[i];
      assert StartsAt(c, s, w, i);
    }
    if exists i :: StartsAt(c, s, w, i) {
      var i :| StartsAt(c, s, w, i);
      assert w <= blocks[i];
    }
  }

  /** The same for the script's fold, letter by letter in its place. */
  lemma ScriptHoldsIff(c: Casing, name: string, w: string)
    requires Coded(c) && CodeWord(c, w)
    ensures Occurs(ScriptFold(c, name), w) <==> StartsSome(c, Kept(c.scriptAlnum, name), w)
  {
    var kept := Kept(c.scriptAlnum, name);
    KeptIsAlnum(c.scriptAlnum, name);
    ScriptBlocksAreCodeWords(c, kept);
    ScriptBlocksIff(c, kept, w);
  }

  // ---- queries of single letters ----

  /** Each word the binary takes has at most one letter or digit, which the script keeps too and which is
      no sigma. */
  predicate SingleLetters(c: Casing, query: string) {
    forall w <- SplitWhitespace(query) ::
      var kept := Kept(c.binaryAlnum, w);
      |kept| <= 1 && forall x <- kept :: c.scriptAlnum(x) && !StartsSigma(c.lower(x))
  }

  /** Short words without the condition on sigmas. */
  ghost predicate ShortWords(c: Casing, query: string) {
    && (forall x <- query :: !BinaryOnly(c, x))
    && forall w <- SplitWhitespace(query) :: |Kept(c.binaryAlnum, w)| <= 1
  }

  ghost predicate IsLetter(c: Casing, query: string, w: string) {
    exists x :: x in query && c.binaryAlnum(x) && w == c.lower(x)
  }

  lemma LetterWord(c: Casing, space: Spaces, query: string, x: char) returns (i: nat)
    requires Tables(c) && (forall y :: space(y) ==> IsSpace(y)) && x in query && c.binaryAlnum(x)
    ensures var words := SplitOn(space, query);
            i < |words| && x in words[i] && x in Kept(c.binaryAlnum, words[i])
  {
    WordsHold(space, query, x);
    var words := SplitOn(space, query);
    i :| 0 <= i < |words| && x in words[i];
    KeptMembers(c.binaryAlnum, words[i], x);
  }

  /** A word of one letter folds to its lower case, for both. */
  lemma OneLetterFolds(c: Casing, w: string)
    requires Tables(c) && (forall x <- w :: !BinaryOnly(c, x)) && |Kept(c.binaryAlnum, w)| <= 1
    ensures var kept := Kept(c.binaryAlnum, w);
            var folded := if kept == "" then "" else c.lower(kept[0]);
            BinaryFold(c, w) == folded && ScriptFold(c, w) == folded
  {
    SameKept(c, w);
    var kept := Kept(c.binaryAlnum, w);
    if kept != "" {
      assert kept[1..] == "" && kept == [kept[0]];
      assert LowerFrom(c, kept, 0) == LowerAt(c, kept, 0) + LowerFrom(c, kept, 1);
      assert LowerFrom(c, kept, 1) == "" && LowerAt(c, kept, 0) == c.lower(kept[0]);
      assert LowerEach(c.lower, kept) == c.lower(kept[0]) + LowerEach(c.lower, kept[1..]);
      Nil(c.lower(kept[0]));
    }
  }

  lemma PartIsShort(c: Casing, w: string, part: string)
    requires Within(part, w) && |Kept(c.binaryAlnum, w)| <= 1
    ensures |Kept(c.binaryAlnum, part)| <= 1
  {
    var a, b :| w == a + part + b;
    KeptAppend(c.binaryAlnum, a + part, b);
    KeptAppend(c.binaryAlnum, a, part);
  }

  /** Either split of such a query has short words only. */
  lemma WordIsShort(c: Casing, space: Spaces, query: string, w: string)
    requires Tables(c) && ShortWords(c, query) && (space == IsSpace || space == IsWhitespace)
    requires w in SplitOn(space, query)
    ensures |Kept(c.binaryAlnum, w)| <= 1 && forall x <- w :: x in query && !BinaryOnly(c, x)
  {
    WordIsWithin(space, query, w);
    WithinIsShorter(w, query);
    if space == IsSpace {
      FinerWordIsWithin(IsWhitespace, IsSpace, query, w);
      var coarse :| coarse in SplitOn(IsWhitespace, query) && Within(w, coarse);
      assert coarse in SplitWhitespace(query);
      PartIsShort(c, coarse, w);
    }
  }

  /** The folded words are the lower cases of the letters, for either fold and split. */
  lemma FoldedAreLetters(c: Casing, fold: Fold, space: Spaces, query: string, w: string)
    requires Tables(c) && ShortWords(c, query)
    requires (fold == ScriptFolds(c) && space == IsSpace) || (fold == BinaryFolds(c) && space == IsWhitespace)
    ensures w in FoldedWords(fold, SplitOn(space, query)) <==> IsLetter(c, query, w)
  {
    var words := SplitOn(space, query);
    FoldedMembers(fold, words, w);
    if w in FoldedWords(fold, words) {
      var word :| word in words && fold(word) == w;
      WordIsShort(c, space, query, word);
      OneLetterFolds(c, word);
      KeptMembers(c.binaryAlnum, word, Kept(c.binaryAlnum, word)[0]);
    }
    if IsLetter(c, query, w) {
      var x :| x in query && c.binaryAlnum(x) && w == c.lower(x);
      var i := LetterWord(c, space, query, x);
      WordIsShort(c, space, query, words[i]);
      OneLetterFolds(c, words[i]);
      assert words[i] in words && fold(words[i]) == w;
    }
  }

  lemma NamesEveryIff(fold: Fold, words: seq<string>, name: string)
    ensures NamesEvery(fold, words, name) <==>
            FoldedWords(fold, words) != [] && forall w <- FoldedWords(fold, words) :: Find(fold(name), w, 0).Some?
  {
    var folded := FoldedWords(fold, words);
    assert forall i :: 0 <= i < |folded| ==> folded[i] in folded;
  }

  /** A name passes if and only if some word folds to anything and the folded name holds every one that
      does. */
  lemma PassesIff(fold: Fold, words: seq<string>, name: string)
    ensures NamesEvery(fold, words, name) <==>
            && (exists w <- words :: fold(w) != "")
            && (forall w <- words :: fold(w) != "" ==> Contains(fold(name), fold(w)))
  {
    var folded := FoldedWords(fold, words);
    NamesEveryIff(fold, words, name);
    forall f ensures f in folded <==> f != "" && exists w <- words :: fold(w) == f {
      FoldedMembers(fold, words, f);
    }
    forall w | w in words && fold(w) != "" ensures fold(w) in folded {
    }
    assert folded != [] ==> folded[0] in folded;
    forall f ensures Contains(fold(name), f) <==> Find(fold(name), f, 0).Some? {
    }
  }

  ghost predicate HasLetter(c: Casing, query: string) {
    exists x :: x in query && c.binaryAlnum(x)
  }

  /** On such a query the two tests look for the same lower cases. */
  lemma ShortTests(c: Casing, query: string, name: string)
    requires Tables(c) && ShortWords(c, query)
    ensures Named(ScriptFolds(c), query)(name) <==>
            HasLetter(c, query) &&
            forall x <- query :: c.binaryAlnum(x) ==> Find(ScriptFold(c, name), c.lower(x), 0).Some?
    ensures BinaryNamed(BinaryFolds(c), query)(name) <==>
            HasLetter(c, query) &&
            forall x <- query :: c.binaryAlnum(x) ==> Find(BinaryFold(c, name), c.lower(x), 0).Some?
  {
    SplitWordsIsSplitOn(query);
    ShortTest(c, ScriptFolds(c), IsSpace, query, name);
    ShortTest(c, BinaryFolds(c), IsWhitespace, query, name);
  }

  lemma ShortTest(c: Casing, fold: Fold, space: Spaces, query: string, name: string)
    requires Tables(c) && ShortWords(c, query)
    requires (fold == ScriptFolds(c) && space == IsSpace) || (fold == BinaryFolds(c) && space == IsWhitespace)
    ensures NamesEvery(fold, SplitOn(space, query), name) <==>
            HasLetter(c, query) && forall x <- query :: c.binaryAlnum(x) ==> Find(fold(name), c.lower(x), 0).Some?
  {
    var words := SplitOn(space, query);
    var folded := FoldedWords(fold, words);
    NamesEveryIff(fold, words, name);
    forall w ensures w in folded <==> IsLetter(c, query, w) {
      FoldedAreLetters(c, fold, space, query, w);
    }
    forall x | x in query && c.binaryAlnum(x) ensures c.lower(x) in folded {
      assert IsLetter(c, query, c.lower(x));
    }
    if folded != [] {
      assert IsLetter(c, query, folded[0]);
    }
  }

  /** A lower case that is no sigma starts a letter of the script's in its place exactly where it starts the
      lower case of that letter. */
  lemma PlaceDoesNotMatter(c: Casing, s: string, w: string, i: nat)
    requires c.lower(CAPITAL_SIGMA) == [SIGMA] && w != "" && !StartsSigma(w) && i < |s|
    ensures w <= LowerAt(c, s, i) <==> w <= c.lower(s[i])
  {
  }

  lemma ScriptLetterIff(c: Casing, name: string, w: string)
    requires Coded(c) && CodeWord(c, w) && !StartsSigma(w)
    ensures Find(ScriptFold(c, name), w, 0).Some? <==> exists e :: e in name && c.scriptAlnum(e) && w <= c.lower(e)
  {
    var kept := Kept(c.scriptAlnum, name);
    ScriptHoldsIff(c, name, w);
    if exists i :: StartsAt(c, kept, w, i) {
      var i :| StartsAt(c, kept, w, i);
      KeptMembers(c.scriptAlnum, name, kept[i]);
      PlaceDoesNotMatter(c, kept, w, i);
    }
    if exists e :: e in name && c.scriptAlnum(e) && w <= c.lower(e) {
      var e :| e in name && c.scriptAlnum(e) && w <= c.lower(e);
      KeptMembers(c.scriptAlnum, name, e);
      var i :| 0 <= i < |kept| && kept[i] == e;
      PlaceDoesNotMatter(c, kept, w, i);
      assert StartsAt(c, kept, w, i);
    }
  }

  /** A lower case that is no sigma is in both folds of a name or in neither. */
  lemma LetterInBoth(c: Casing, x: char, name: string)
    requires Coded(c) && c.scriptAlnum(x) && !StartsSigma(c.lower(x))
    ensures Find(ScriptFold(c, name), c.lower(x), 0).Some? <==> Find(BinaryFold(c, name), c.lower(x), 0).Some?
  {
    var w := c.lower(x);
    LowerIsCodeWord(c, x);
    BinaryHoldsIff(c, name, w);
    ScriptLetterIff(c, name, w);
    forall e | e in name && c.binaryAlnum(e) && w <= c.lower(e) ensures c.scriptAlnum(e) {
      assert w[0] == c.lower(e)[0];
      assert !BinaryOnly(c, e);
    }
  }

  lemma SingleIsShort(c: Casing, query: string)
    requires Tables(c) && SingleLetters(c, query)
    ensures ShortWords(c, query) && forall x <- query :: c.binaryAlnum(x) ==> !StartsSigma(c.lower(x))
  {
    forall x | x in query && c.binaryAlnum(x) ensures c.scriptAlnum(x) && !StartsSigma(c.lower(x)) {
      var i := LetterWord(c, IsWhitespace, query, x);
      assert SplitWhitespace(query)[i] in SplitWhitespace(query);
    }
  }

  lemma SingleLettersAgree(c: Casing, query: string, name: string)
    requires Coded(c) && SingleLetters(c, query)
    ensures Named(ScriptFolds(c), query)(name) == BinaryNamed(BinaryFolds(c), query)(name)
  {
    SingleIsShort(c, query);
    ShortTests(c, query, name);
    forall x | x in query && c.binaryAlnum(x)
      ensures Find(ScriptFold(c, name), c.lower(x), 0).Some? <==> Find(BinaryFold(c, name), c.lower(x), 0).Some?
    {
      LetterInBoth(c, x, name);
    }
  }

  // ---- a name that splits the tests ----

  /** A cased letter that is no sigma. */
  predicate CasedLetter(c: Casing, a: char) {
    c.scriptAlnum(a) && c.cased(a) && !c.ignorable(a) && a != CAPITAL_SIGMA && !StartsSigma(c.lower(a))
  }

  /** A digit or other letter without case, a cased letter, and a letter only the binary keeps. */
  ghost predicate Samples(c: Casing, n: char, a: char, d: char) {
    Neutral(c, n) && CasedLetter(c, a) && BinaryOnly(c, d) && |c.lower(d)| == 1
  }

  predicate SplitsTests(c: Casing, query: string, name: string) {
    Named(ScriptFolds(c), query)(name) != BinaryNamed(BinaryFolds(c), query)(name)
  }

  lemma {:induction false} KeptTwice(alnum: char -> bool, s: string)
    requires forall x <- s :: alnum(x)
    ensures Kept(alnum, s) == s
  {
    if s != "" {
      KeptTwice(alnum, s[1..]);
      Uncons(s);
    }
  }

  /** The letters of a name fold like the name. */
  lemma FoldOfKept(c: Casing, s: string)
    ensures ScriptFold(c, Kept(c.scriptAlnum, s)) == ScriptFold(c, s)
    ensures BinaryFold(c, Kept(c.binaryAlnum, s)) == BinaryFold(c, s)
  {
    KeptIsAlnum(c.scriptAlnum, s);
    KeptTwice(c.scriptAlnum, Kept(c.scriptAlnum, s));
    KeptIsAlnum(c.binaryAlnum, s);
    KeptTwice(c.binaryAlnum, Kept(c.binaryAlnum, s));
  }

  /** The script's letters of the query, its words kept apart: a name the script accepts. */
  function ScriptName(c: Casing, n: char, query: string): (name: string) {
    Kept(c.scriptAlnum, JoinOn(n, SplitWords(query)))
  }

  lemma ScriptNameIsNamed(c: Casing, n: char, query: string)
    requires Tables(c) && Neutral(c, n) && exists x :: x in query && c.scriptAlnum(x)
    ensures Named(ScriptFolds(c), query)(ScriptName(c, n, query))
  {
    ScriptHasWordIff(c, query);
    ScriptFoldSeparates(c, n);
    JoinIsNamed(ScriptFolds(c), n, SplitWords(query));
    FoldOfKept(c, JoinOn(n, SplitWords(query)));
  }

  lemma BinaryNameIsNamed(c: Casing, n: char, query: string)
    requires Tables(c) && exists x :: x in query && c.binaryAlnum(x)
    ensures BinaryNamed(BinaryFolds(c), query)(Kept(c.binaryAlnum, JoinOn(n, SplitWhitespace(query))))
  {
    var x :| x in query && c.binaryAlnum(x);
    var words := SplitWhitespace(query);
    var i := LetterWord(c, IsWhitespace, query, x);
    BinaryFoldHolds(c, words[i], x);
    assert words[i] in words && BinaryFolds(c)(words[i]) != "";
    FoldedMembers(BinaryFolds(c), words, BinaryFolds(c)(words[i]));
    BinaryFoldIsCharByChar(c);
    SeparatesAnywhere(BinaryFolds(c), n);
    JoinIsNamed(BinaryFolds(c), n, words);
    FoldOfKept(c, JoinOn(n, words));
  }

  /** The fold of a word holds the lower case of each of its letters. */
  lemma BinaryFoldHolds(c: Casing, w: string, x: char)
    requires Tables(c) && x in w && c.binaryAlnum(x)
    ensures Within(c.lower(x), BinaryFold(c, w)) && BinaryFold(c, w) != ""
  {
    var kept := Kept(c.binaryAlnum, w);
    KeptMembers(c.binaryAlnum, w, x);
    var i :| 0 <= i < |kept| && kept[i] == x;
    LowerEachIsBlocks(c.lower, kept);
    BlockIsWithin(LowerBlocks(c.lower, kept), i, c.lower(x));
    WithinIsShorter(c.lower(x), BinaryFold(c, w));
  }

  /** What is in a word of the query is in every name the binary accepts. */
  lemma AcceptedHolds(c: Casing, query: string, w: string, part: string, name: string)
    requires w in SplitWhitespace(query) && part != "" && Within(part, BinaryFold(c, w))
    requires BinaryNamed(BinaryFolds(c), query)(name)
    ensures Find(BinaryFold(c, name), part, 0).Some?
  {
    var words := SplitWhitespace(query);
    WithinIsShorter(part, BinaryFold(c, w));
    NamesEveryIff(BinaryFolds(c), words, name);
    assert BinaryFolds(c)(w) == BinaryFold(c, w) != "";
    FoldedMembers(BinaryFolds(c), words, BinaryFold(c, w));
    FoundWithin(part, BinaryFold(c, w), BinaryFold(c, name));
  }

  lemma BinaryOnlyIsAbsent(c: Casing, name: string, x: char)
    requires Coded(c) && BinaryOnly(c, x) && forall y <- name :: c.scriptAlnum(y)
    ensures Find(BinaryFold(c, name), c.lower(x), 0).None?
  {
    LowerIsCodeWord(c, x);
    BinaryHoldsIff(c, name, c.lower(x));
    forall e | e in name ensures !(c.lower(x) <= c.lower(e)) {
      assert c.lower(e)[0] != c.lower(x)[0];
    }
  }

  /** A query with a letter only the binary keeps. */
  lemma BinaryOnlySplits(c: Casing, n: char, query: string, x: char) returns (name: string)
    requires Coded(c) && Neutral(c, n) && x in query && BinaryOnly(c, x)
    ensures (forall y <- name :: c.binaryAlnum(y)) && SplitsTests(c, query, name)
  {
    if exists y :: y in query && c.scriptAlnum(y) {
      name := ScriptName(c, n, query);
      ScriptNameIsNamed(c, n, query);
      KeptIsAlnum(c.scriptAlnum, JoinOn(n, SplitWords(query)));
      if BinaryNamed(BinaryFolds(c), query)(name) {
        var i := LetterWord(c, IsWhitespace, query, x);
        var w := SplitWhitespace(query)[i];
        BinaryFoldHolds(c, w, x);
        AcceptedHolds(c, query, w, c.lower(x), name);
        BinaryOnlyIsAbsent(c, name, x);
        assert false;
      }
    } else {
      name := Kept(c.binaryAlnum, JoinOn(n, SplitWhitespace(query)));
      BinaryNameIsNamed(c, n, query);
      KeptIsAlnum(c.binaryAlnum, JoinOn(n, SplitWhitespace(query)));
      ScriptHasWordIff(c, query);
    }
  }

  function Singles(s: string): (parts: seq<string>)
    ensures |parts| == |s| && forall i :: 0 <= i < |s| ==> parts[i] == [s[i]]
  {
    seq(|s|, i requires 0 <= i < |s| => [s[i]])
  }

  /** The letters of a name with `d` after each. */
  function Spread(d: char, s: string): (t: string) {
    if s == "" then "" else [s[0], d] + Spread(d, s[1..])
  }

  lemma {:induction false} SpreadIsJoin(d: char, s: string)
    ensures Spread(d, s) == JoinOn(d, Singles(s))
  {
    if s != "" {
      SpreadIsJoin(d, s[1..]);
      assert Singles(s)[1..] == Singles(s[1..]);
      assert [s[0], d] == [s[0]] + [d];
    }
  }

  lemma {:induction false} KeptOfSpread(alnum: char -> bool, d: char, s: string)
    requires !alnum(d)
    ensures Kept(alnum, Spread(d, s)) == Kept(alnum, s)
  {
    if s != "" {
      KeptOfSpread(alnum, d, s[1..]);
      KeptAppend(alnum, [s[0], d], Spread(d, s[1..]));
      assert [s[0], d][1..] == [d] && [d][1..] == "";
      assert Kept(alnum, [d]) == [] + Kept(alnum, "");
      Nil(if alnum(s[0]) then [s[0]] else []);
    }
  }

  lemma {:induction false} SpreadMembers(d: char, s: string, x: char)
    requires x in Spread(d, s)
    ensures x == d || x in s
  {
    if x !in [s[0], d] {
      SpreadMembers(d, s[1..], x);
    }
  }

  /** The lower case of a letter and the first character of the next. */
  function TwoHeads(c: Casing, x: char, y: char): (part: string)
    requires c.lower(y) != ""
  {
    c.lower(x) + [c.lower(y)[0]]
  }

  lemma TwoHeadsWithin(c: Casing, w: string)
    requires Tables(c) && |Kept(c.binaryAlnum, w)| >= 2
    ensures var kept := Kept(c.binaryAlnum, w);
            && c.binaryAlnum(kept[0]) && c.binaryAlnum(kept[1])
            && Within(TwoHeads(c, kept[0], kept[1]), BinaryFold(c, w))
  {
    var kept := Kept(c.binaryAlnum, w);
    KeptIsAlnum(c.binaryAlnum, w);
    assert kept[0] in kept && kept[1] in kept;
    var rest := LowerEach(c.lower, kept[1..][1..]);
    var x, y := c.lower(kept[0]), c.lower(kept[1]);
    assert kept[1..][0] == kept[1];
    assert LowerEach(c.lower, kept) == x + LowerEach(c.lower, kept[1..]);
    assert LowerEach(c.lower, kept[1..]) == y + rest;
    assert x + (y + rest) == "" + (x + [y[0]]) + (y[1..] + rest);
  }

  /** No lower case holds two heads. */
  lemma TwoHeadsAreNowhere(c: Casing, x: char, y: char, e: char)
    requires Coded(c) && c.binaryAlnum(x) && c.binaryAlnum(y)
    ensures !Within(TwoHeads(c, x, y), BinaryFold(c, [e]))
  {
    var part := TwoHeads(c, x, y);
    if Within(part, BinaryFold(c, [e])) {
      WithinIsShorter(part, BinaryFold(c, [e]));
      NothingOfOne(c, e);
      FoldOfOne(c, e);
      var a, b :| c.lower(e) == a + part + b;
      assert c.lower(e)[|a| + |c.lower(x)|] == c.lower(y)[0];
      assert IsHead(c, c.lower(y)[0]);
      assert false;
    }
  }

  lemma HeadIsOutside(c: Casing, x: char, y: char, d: char)
    requires Coded(c) && c.scriptAlnum(x) && c.scriptAlnum(y) && BinaryOnly(c, d)
    ensures c.lower(d)[0] !in TwoHeads(c, x, y)
  {
    assert IsHead(c, c.lower(d)[0]);
    var part := TwoHeads(c, x, y);
    forall k | 0 <= k < |part| ensures part[k] != c.lower(d)[0] {
    }
  }

  /** A query with a word of two letters. */
  lemma LongWordSplits(c: Casing, n: char, d: char, query: string, w: string) returns (name: string)
    requires Coded(c) && Neutral(c, n) && BinaryOnly(c, d) && |c.lower(d)| == 1
    requires (forall x <- query :: !BinaryOnly(c, x)) && w in SplitWhitespace(query) && |Kept(c.binaryAlnum, w)| >= 2
    ensures (forall y <- name :: c.binaryAlnum(y)) && SplitsTests(c, query, name)
  {
    var kept, letters := Kept(c.binaryAlnum, w), ScriptName(c, n, query);
    var x, y := kept[0], kept[1];
    name := Spread(d, letters);
    KeptMembers(c.binaryAlnum, w, x);
    KeptMembers(c.binaryAlnum, w, y);
    WordIsWithin(IsWhitespace, query, w);
    WithinIsShorter(w, query);
    ScriptNameIsNamed(c, n, query);
    KeptOfSpread(c.scriptAlnum, d, letters);
    KeptIsAlnum(c.scriptAlnum, JoinOn(n, SplitWords(query)));
    forall z | z in name ensures c.binaryAlnum(z) {
      SpreadMembers(d, letters, z);
    }
    if BinaryNamed(BinaryFolds(c), query)(name) {
      TwoHeadsWithin(c, w);
      AcceptedHolds(c, query, w, TwoHeads(c, x, y), name);
      SpreadHasNoTwoHeads(c, letters, d, x, y);
      assert false;
    }
  }

  lemma SpreadHasNoTwoHeads(c: Casing, letters: string, d: char, x: char, y: char)
    requires Coded(c) && BinaryOnly(c, d) && |c.lower(d)| == 1 && c.scriptAlnum(x) && c.scriptAlnum(y)
    ensures Find(BinaryFold(c, Spread(d, letters)), TwoHeads(c, x, y), 0).None?
  {
    if Find(BinaryFold(c, Spread(d, letters)), TwoHeads(c, x, y), 0).Some? {
      var fold, part := BinaryFolds(c), TwoHeads(c, x, y);
      FoundIsWithin(BinaryFold(c, Spread(d, letters)), part);
      SpreadIsJoin(d, letters);
      BinaryFoldIsCharByChar(c);
      SeparatesAnywhere(fold, d);
      HeadIsOutside(c, x, y, d);
      FoldOfOne(c, d);
      WithinJoinIsWithinWord(fold, d, c.lower(d)[0], Singles(letters), part);
      var w :| w in Singles(letters) && Within(part, fold(w));
      TwoHeadsAreNowhere(c, x, y, w[0]);
      assert false;
    }
  }

  lemma NothingOfOne(c: Casing, d: char)
    ensures !c.binaryAlnum(d) ==> BinaryFold(c, [d]) == ""
  {
    assert [d][1..] == "" && Kept(c.binaryAlnum, "") == "";
    Nil(Kept(c.binaryAlnum, ""));
  }

  lemma FoldOfOne(c: Casing, d: char)
    requires c.binaryAlnum(d)
    ensures BinaryFold(c, [d]) == c.lower(d)
  {
    assert [d][1..] == "" && Kept(c.binaryAlnum, "") == "";
    assert Kept(c.binaryAlnum, [d]) == [d];
    assert LowerEach(c.lower, [d]) == c.lower(d) + LowerEach(c.lower, "");
    Nil(c.lower(d));
  }

  // ---- sigmas ----

  /** The letters of the query whose lower case is not `t`. */
  function OtherLetters(c: Casing, t: string, query: string): (s: string) {
    if query == "" then ""
    else
      (if c.binaryAlnum(query[0]) && c.lower(query[0]) != t then [query[0]] else [])
      + OtherLetters(c, t, query[1..])
  }

  lemma {:induction false} OtherLettersAre(c: Casing, t: string, query: string, x: char)
    ensures x in OtherLetters(c, t, query) <==> x in query && c.binaryAlnum(x) && c.lower(x) != t
  {
    if query != "" {
      OtherLettersAre(c, t, query[1..], x);
      Uncons(query);
    }
  }

  /** The letters of the query that do not fold to `t`, and a capital sigma at the end of a word. */
  function SigmaName(c: Casing, a: char, t: char, query: string): (name: string) {
    OtherLetters(c, [t], query) + [a, CAPITAL_SIGMA]
  }

  lemma LastSigmaEndsWord(c: Casing, s: string, a: char)
    requires c.cased(a) && !c.ignorable(a)
    ensures var name := s + [a, CAPITAL_SIGMA];
            LowerAt(c, name, |name| - 1) == [FINAL_SIGMA]
  {
    var name := s + [a, CAPITAL_SIGMA];
    assert name[|name| - 2] == a && name[|name| - 1] == CAPITAL_SIGMA;
    assert CasedBefore(c, name, |name| - 1) && !CasedAfter(c, name, |name|);
  }

  lemma SigmaNameLetters(c: Casing, a: char, t: char, query: string)
    requires Tables(c) && (forall x <- query :: !BinaryOnly(c, x)) && c.scriptAlnum(a) && c.scriptAlnum(CAPITAL_SIGMA)
    ensures var name := SigmaName(c, a, t, query);
            && (forall e <- name :: c.scriptAlnum(e)) && Kept(c.scriptAlnum, name) == name
            && (forall e :: e in name <==> e == a || e == CAPITAL_SIGMA || e in OtherLetters(c, [t], query))
  {
    var name := SigmaName(c, a, t, query);
    forall e | e in OtherLetters(c, [t], query) ensures c.scriptAlnum(e) {
      OtherLettersAre(c, [t], query, e);
    }
    KeptTwice(c.scriptAlnum, name);
  }

  /** Where the only capital sigma of a name is its last letter. */
  lemma LowersInPlace(c: Casing, s: string, a: char, i: nat)
    requires c.cased(a) && !c.ignorable(a) && a != CAPITAL_SIGMA && CAPITAL_SIGMA !in s
    requires i < |s| + 2
    ensures var name := s + [a, CAPITAL_SIGMA];
            LowerAt(c, name, i) == if i == |s| + 1 then [FINAL_SIGMA] else c.lower(name[i])
  {
    LastSigmaEndsWord(c, s, a);
    if i < |s| {
      assert (s + [a, CAPITAL_SIGMA])[i] == s[i];
      assert s[i] in s;
    }
  }

  ghost predicate AsksFor(c: Casing, query: string, t: char) {
    exists y :: y in query && c.binaryAlnum(y) && c.lower(y) == [t]
  }

  lemma NoCapitalAmongOthers(c: Casing, t: char, query: string)
    requires Coded(c) && (t == SIGMA || !AsksFor(c, query, SIGMA))
    ensures CAPITAL_SIGMA !in OtherLetters(c, [t], query)
  {
    OtherLettersAre(c, [t], query, CAPITAL_SIGMA);
  }

  ghost predicate StartsLetter(c: Casing, s: string, w: string) {
    exists e :: e in s && w <= c.lower(e)
  }

  lemma PlacesIff(c: Casing, s: string, a: char, w: string)
    requires c.cased(a) && !c.ignorable(a) && a != CAPITAL_SIGMA && CAPITAL_SIGMA !in s && w != ""
    ensures StartsSome(c, s + [a, CAPITAL_SIGMA], w) <==> w == [FINAL_SIGMA] || StartsLetter(c, s + [a], w)
  {
    var name, letters := s + [a, CAPITAL_SIGMA], s + [a];
    forall i | 0 <= i < |name| ensures LowerAt(c, name, i) == if i == |s| + 1 then [FINAL_SIGMA] else c.lower(name[i]) {
      LowersInPlace(c, s, a, i);
    }
    if StartsSome(c, name, w) {
      var i :| StartsAt(c, name, w, i);
      if i <= |s| {
        assert letters[i] == name[i];
        assert name[i] in letters;
      }
    }
    if w == [FINAL_SIGMA] {
      assert StartsAt(c, name, w, |s| + 1);
    }
    if StartsLetter(c, letters, w) {
      var e :| e in letters && w <= c.lower(e);
      var i :| 0 <= i < |letters| && letters[i] == e;
      assert name[i] == e;
      assert StartsAt(c, name, w, i);
    }
  }

  /** The script's fold of the name has the final sigma and not the other. */
  lemma ScriptSigmas(c: Casing, a: char, t: char, query: string, w: string)
    requires Coded(c) && ShortWords(c, query) && CasedLetter(c, a) && CodeWord(c, w)
    requires t == SIGMA || !AsksFor(c, query, SIGMA)
    ensures Occurs(ScriptFold(c, SigmaName(c, a, t, query)), w) <==>
            w == [FINAL_SIGMA] || StartsLetter(c, OtherLetters(c, [t], query) + [a], w)
  {
    var s, name := OtherLetters(c, [t], query), SigmaName(c, a, t, query);
    NoCapitalAmongOthers(c, t, query);
    SigmaNameLetters(c, a, t, query);
    ScriptHoldsIff(c, name, w);
    PlacesIff(c, s, a, w);
  }

  lemma BinarySigmas(c: Casing, a: char, t: char, query: string, w: string)
    requires Coded(c) && ShortWords(c, query) && CasedLetter(c, a) && CodeWord(c, w)
    ensures Occurs(BinaryFold(c, SigmaName(c, a, t, query)), w) <==>
            w == [SIGMA] || StartsLetter(c, OtherLetters(c, [t], query) + [a], w)
  {
    SigmaNameLetters(c, a, t, query);
    var s, name := OtherLetters(c, [t], query), SigmaName(c, a, t, query);
    BinaryHoldsIff(c, name, w);
    assert w <= [SIGMA] <==> w == [SIGMA];
    assert forall e :: e in name <==> e in s + [a] || e == CAPITAL_SIGMA;
  }

  lemma OthersAreFound(c: Casing, a: char, t: char, query: string, y: char)
    requires Coded(c) && ShortWords(c, query) && CasedLetter(c, a) && y in query && c.binaryAlnum(y)
    requires t == SIGMA || !AsksFor(c, query, SIGMA)
    ensures var name := SigmaName(c, a, t, query);
            c.lower(y) != [t] ==> Occurs(ScriptFold(c, name), c.lower(y)) && Occurs(BinaryFold(c, name), c.lower(y))
  {
    LowerIsCodeWord(c, y);
    ScriptSigmas(c, a, t, query, c.lower(y));
    BinarySigmas(c, a, t, query, c.lower(y));
    OtherLettersAre(c, [t], query, y);
    assert c.lower(y) != [t] ==> y in OtherLetters(c, [t], query) + [a];
  }

  /** A query of short words, one of which is a sigma. */
  lemma SigmaSplits(c: Casing, a: char, query: string, x: char) returns (name: string)
    requires Coded(c) && ShortWords(c, query) && CasedLetter(c, a)
    requires x in query && c.binaryAlnum(x) && StartsSigma(c.lower(x))
    ensures (forall y <- name :: c.binaryAlnum(y)) && SplitsTests(c, query, name)
  {
    var t := if AsksFor(c, query, SIGMA) then SIGMA else FINAL_SIGMA;
    name := SigmaName(c, a, t, query);
    SigmaNameLetters(c, a, t, query);
    ShortTests(c, query, name);
    SigmaLetters(c, a, t, query);
    forall y | y in query && c.binaryAlnum(y)
      ensures c.lower(y) != [t] ==> Occurs(ScriptFold(c, name), c.lower(y)) && Occurs(BinaryFold(c, name), c.lower(y))
    {
      OthersAreFound(c, a, t, query, y);
    }
    SigmaIsWanted(c, query, x);
  }

  lemma SigmaPrefixIff(c: Casing, e: char, t: char)
    requires Coded(c) && c.binaryAlnum(e) && (t == SIGMA || t == FINAL_SIGMA)
    ensures [t] <= c.lower(e) <==> c.lower(e) == [t]
  {
  }

  /** Of the two sigmas, exactly one fold of the name has the one the query asks for. */
  lemma SigmaLetters(c: Casing, a: char, t: char, query: string)
    requires Coded(c) && ShortWords(c, query) && CasedLetter(c, a) && (t == SIGMA || t == FINAL_SIGMA)
    requires t == SIGMA || !AsksFor(c, query, SIGMA)
    ensures var name := SigmaName(c, a, t, query);
            && (Occurs(ScriptFold(c, name), [t]) <==> t == FINAL_SIGMA)
            && (Occurs(BinaryFold(c, name), [t]) <==> t == SIGMA)
  {
    SigmasAreCodeWords(c);
    ScriptSigmas(c, a, t, query, [t]);
    BinarySigmas(c, a, t, query, [t]);
    forall e | e in OtherLetters(c, [t], query) + [a] ensures !([t] <= c.lower(e)) {
      OtherLettersAre(c, [t], query, e);
      SigmaPrefixIff(c, e, t);
    }
  }

  lemma SigmaIsWanted(c: Casing, query: string, x: char)
    requires Coded(c) && x in query && c.binaryAlnum(x) && StartsSigma(c.lower(x))
    ensures AsksFor(c, query, SIGMA) || AsksFor(c, query, FINAL_SIGMA)
  {
    assert c.lower(x) == [c.lower(x)[0]];
  }

  // ---- agreement on every name ----

  /** A query that is not all single letters has a name, of letters and digits only, on which the two tests
      differ. */
  lemma SplittingName(c: Casing, n: char, a: char, d: char, query: string) returns (name: string)
    requires Coded(c) && Samples(c, n, a, d) && !SingleLetters(c, query)
    ensures (forall y <- name :: c.binaryAlnum(y)) && SplitsTests(c, query, name)
  {
    if exists x :: x in query && BinaryOnly(c, x) {
      var x :| x in query && BinaryOnly(c, x);
      name := BinaryOnlySplits(c, n, query, x);
    } else if exists w :: w in SplitWhitespace(query) && |Kept(c.binaryAlnum, w)| >= 2 {
      var w :| w in SplitWhitespace(query) && |Kept(c.binaryAlnum, w)| >= 2;
      name := LongWordSplits(c, n, d, query, w);
    } else {
      var x := SomeSigma(c, query);
      name := SigmaSplits(c, a, query, x);
    }
  }

  lemma SomeSigma(c: Casing, query: string) returns (x: char)
    requires Tables(c) && ShortWords(c, query) && !SingleLetters(c, query)
    ensures x in query && c.binaryAlnum(x) && StartsSigma(c.lower(x))
  {
    var w :| w in SplitWhitespace(query) && exists y :: y in Kept(c.binaryAlnum, w)
                                                        && !(c.scriptAlnum(y) && !StartsSigma(c.lower(y)));
    x :| x in Kept(c.binaryAlnum, w) && !(c.scriptAlnum(x) && !StartsSigma(c.lower(x)));
    KeptMembers(c.binaryAlnum, w, x);
    WordIsWithin(IsWhitespace, query, w);
    WithinIsShorter(w, query);
  }

  /** The script's test and the binary's agree on every name if and only if every word of the query is a
      single letter or digit, none of them a sigma or one that only the binary keeps. */
  lemma TestsAgreeIff(c: Casing, n: char, a: char, d: char, query: string)
    requires Coded(c) && Samples(c, n, a, d)
    ensures (forall name :: Named(ScriptFolds(c), query)(name) == BinaryNamed(BinaryFolds(c), query)(name)) <==>
            SingleLetters(c, query)
  {
    if SingleLetters(c, query) {
      forall name ensures Named(ScriptFolds(c), query)(name) == BinaryNamed(BinaryFolds(c), query)(name) {
        SingleLettersAgree(c, query, name);
      }
    } else {
      var name := SplittingName(c, n, a, d, query);
    }
  }
}
