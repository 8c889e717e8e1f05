/** Whether a row's name contains every word of the query: the replay script's test, the serving
    binary's, and when the two agree. */
module QueryTest {
  import opened Text

  // ---- splitting a query into words ----

  type Spaces = char -> bool

  /** The four separators `str.split` takes for white space and `split_whitespace` does not. */
  predicate IsSeparator(c: char) {
    '\U{1C}' <= c <= '\U{1F}'
  }

  /** What Rust's `char::is_whitespace` accepts. */
  predicate IsWhitespace(c: char) {
    IsSpace(c) && !IsSeparator(c)
  }

  function WordEnd(space: Spaces, s: string): (n: nat)
    ensures n <= |s| && (forall k :: 0 <= k < n ==> !space(s[k])) && (n < |s| ==> space(s[n]))
  {
    if s == "" || space(s[0]) then 0
    else
      var m := WordEnd(space, s[1..]);
      assert forall k :: 1 <= k < m + 1 ==> s[k] == s[1..][k - 1];
      m + 1
  }

  function SplitOn(space: Spaces, s: string): (words: seq<string>)
    decreases |s|
  {
    if s == "" then []
    else if space(s[0]) then SplitOn(space, s[1..])
    else [s[..WordEnd(space, s)]] + SplitOn(space, s[WordEnd(space, s)..])
  }

  /** `query.split_whitespace()`. */
  function SplitWhitespace(s: string): (words: seq<string>) {
    SplitOn(IsWhitespace, s)
  }

  lemma {:induction false} WordEndIsWordLen(s: string)
    ensures WordEnd(IsSpace, s) == WordLen(s)
  {
    if s != "" && !IsSpace(s[0]) {
      WordEndIsWordLen(s[1..]);
    }
  }

  lemma {:induction false} SplitWordsIsSplitOn(s: string)
    ensures SplitWords(s) == SplitOn(IsSpace, s)
    decreases |s|
  {
    if s != "" {
      WordEndIsWordLen(s);
      SplitWordsIsSplitOn(if IsSpace(s[0]) then s[1..] else s[WordLen(s)..]);
    }
  }

  /** Two notions of white space that agree on a text split it alike. */
  lemma {:induction false} SameEnd(a: Spaces, b: Spaces, s: string)
    requires forall k :: 0 <= k < |s| ==> a(s[k]) == b(s[k])
    ensures WordEnd(a, s) == WordEnd(b, s)
  {
    if s != "" && !a(s[0]) {
      SameEnd(a, b, s[1..]);
    }
  }

  lemma {:induction false} SameSplit(a: Spaces, b: Spaces, s: string)
    requires forall k :: 0 <= k < |s| ==> a(s[k]) == b(s[k])
    ensures SplitOn(a, s) == SplitOn(b, s)
    decreases |s|
  {
    if s != "" {
      SameEnd(a, b, s);
      var n := if a(s[0]) then 1 else WordEnd(a, s);
      assert forall k :: 0 <= k < |s[n..]| ==> s[n..][k] == s[n + k];
      SameSplit(a, b, s[n..]);
    }
  }

  predicate Holds(words: seq<string>, c: char) {
    exists i :: 0 <= i < |words| && c in words[i]
  }

  lemma HoldsStep(words: seq<string>, c: char)
    requires words != []
    ensures Holds(words, c) <==> c in words[0] || Holds(words[1..], c)
  {
    if Holds(words, c) {
      var i :| 0 <= i < |words| && c in words[i];
      assert i > 0 ==> words[1..][i - 1] == words[i];
    }
    if Holds(words[1..], c) {
      var i :| 0 <= i < |words[1..]| && c in words[1..][i];
      assert words[i + 1] == words[1..][i];
    }
  }

  /** The characters of the words are exactly those of the text that are no white space. */
  lemma {:induction false} WordsHold(space: Spaces, s: string, c: char)
    ensures Holds(SplitOn(space, s), c) <==> c in s && !space(c)
    decreases |s|
  {
    if s != "" {
      if space(s[0]) {
        WordsHold(space, s[1..], c);
        Uncons(s);
      } else {
        var n := WordEnd(space, s);
        WordsHold(space, s[n..], c);
        HoldsStep(SplitOn(space, s), c);
        assert s == s[..n] + s[n..];
        assert forall k :: 0 <= k < n ==> s[..n][k] == s[k];
      }
    }
  }

  /** The two languages split a query alike if and only if it holds none of the four separators. */
  lemma SplitsAgreeIff(query: string)
    ensures SplitWords(query) == SplitWhitespace(query) <==>
            forall c <- query :: c !in {'\U{1C}', '\U{1D}', '\U{1E}', '\U{1F}'}
  {
    SplitWordsIsSplitOn(query);
    if forall c <- query :: !IsSeparator(c) {
      SameSplit(IsSpace, IsWhitespace, query);
    } else {
      var c :| c in query && IsSeparator(c);
      WordsHold(IsSpace, query, c);
      WordsHold(IsWhitespace, query, c);
    }
  }

  // ---- folding ----

  /** The Unicode tables: what `str.isalnum` and `char::is_alphanumeric` accept, lower cases, and the two
      properties that place a final sigma. */
  datatype Casing = Casing(scriptAlnum: char -> bool, binaryAlnum: char -> bool, lower: char -> string,
                           cased: char -> bool, ignorable: char -> bool)

  /** What the tables have in common in every release: `is_alphanumeric` goes by the Alphabetic property,
      which the general categories of `isalnum` imply and which vowel signs have besides. */
  ghost predicate Tables(c: Casing) {
    && (forall x :: c.scriptAlnum(x) ==> c.binaryAlnum(x))
    && (forall x :: c.binaryAlnum(x) ==> c.lower(x) != "" && !IsSpace(x))
    && c.lower(CAPITAL_SIGMA) == [SIGMA]
  }

  /** The binary keeps the character and the script drops it. */
  predicate BinaryOnly(c: Casing, x: char) {
    c.binaryAlnum(x) && !c.scriptAlnum(x)
  }

  const CAPITAL_SIGMA := '\U{3A3}'
  const SIGMA := '\U{3C3}'
  const FINAL_SIGMA := '\U{3C2}'

  function Kept(alnum: char -> bool, s: string): (t: string) {
    if s == "" then "" else (if alnum(s[0]) then [s[0]] else []) + Kept(alnum, s[1..])
  }

  function LowerEach(lower: char -> string, s: string): (t: string) {
    if s == "" then "" else lower(s[0]) + LowerEach(lower, s[1..])
  }

  /** The binary's fold: each kept character in lower case by itself. */
  function BinaryFold(c: Casing, s: string): (t: string) {
    LowerEach(c.lower, Kept(c.binaryAlnum, s))
  }

  predicate CasedBefore(c: Casing, s: string, n: nat)
    requires n <= |s|
  {
    n > 0 && if c.ignorable(s[n - 1]) then CasedBefore(c, s, n - 1) else c.cased(s[n - 1])
  }

  predicate CasedAfter(c: Casing, s: string, n: nat)
    requires n <= |s|
    decreases |s| - n
  {
    n < |s| && if c.ignorable(s[n]) then CasedAfter(c, s, n + 1) else c.cased(s[n])
  }

  /** A capital sigma after a cased letter and before none. */
  predicate EndsWord(c: Casing, s: string, i: nat)
    requires i < |s|
  {
    s[i] == CAPITAL_SIGMA && CasedBefore(c, s, i) && !CasedAfter(c, s, i + 1)
  }

  function LowerAt(c: Casing, s: string, i: nat): (t: string)
    requires i < |s|
  {
    if s[i] == CAPITAL_SIGMA then [if EndsWord(c, s, i) then FINAL_SIGMA else SIGMA] else c.lower(s[i])
  }

  /** `str.lower` from position `i` on. */
  function LowerFrom(c: Casing, s: string, i: nat): (t: string)
    requires i <= |s|
    decreases |s| - i
  {
    if i == |s| then "" else LowerAt(c, s, i) + LowerFrom(c, s, i + 1)
  }

  /** The script's fold: the kept characters in lower case as one string. */
  function ScriptFold(c: Casing, s: string): (t: string) {
    LowerFrom(c, Kept(c.scriptAlnum, s), 0)
  }

  lemma SameHeads(a: string, b: string, x: string, y: string)
    requires |a| == |b|
    ensures a + x == b + y <==> a == b && x == y
  {
    if a + x == b + y {
      assert a == (a + x)[..|a|] && b == (b + y)[..|b|];
      assert x == (a + x)[|a|..] && y == (b + y)[|b|..];
    }
  }

  lemma {:induction false} LowerAgreesFrom(c: Casing, s: string, i: nat)
    requires i <= |s| && c.lower(CAPITAL_SIGMA) == [SIGMA]
    ensures LowerFrom(c, s, i) == LowerEach(c.lower, s[i..]) <==> forall k :: i <= k < |s| ==> !EndsWord(c, s, k)
    decreases |s| - i
  {
    if i < |s| {
      LowerAgreesFrom(c, s, i + 1);
      SliceStep(s, i);
      SameHeads(LowerAt(c, s, i), c.lower(s[i]), LowerFrom(c, s, i + 1), LowerEach(c.lower, s[i + 1..]));
    }
  }

  lemma {:induction false} LowerLength(c: Casing, s: string, i: nat)
    requires i <= |s| && c.lower(CAPITAL_SIGMA) == [SIGMA]
    ensures |LowerFrom(c, s, i)| == |LowerEach(c.lower, s[i..])|
    decreases |s| - i
  {
    if i < |s| {
      LowerLength(c, s, i + 1);
      SliceStep(s, i);
    }
  }

  lemma {:induction false} KeptLength(c: Casing, s: string)
    requires Tables(c)
    ensures |LowerEach(c.lower, Kept(c.scriptAlnum, s))| <= |LowerEach(c.lower, Kept(c.binaryAlnum, s))|
    ensures |LowerEach(c.lower, Kept(c.scriptAlnum, s))| == |LowerEach(c.lower, Kept(c.binaryAlnum, s))| ==>
              forall x <- s :: !BinaryOnly(c, x)
  {
    if s != "" {
      KeptLength(c, s[1..]);
      Uncons(s);
      KeptFirst(c.scriptAlnum, c.lower, s);
      KeptFirst(c.binaryAlnum, c.lower, s);
    }
  }

  lemma KeptFirst(alnum: char -> bool, lower: char -> string, s: string)
    requires s != ""
    ensures LowerEach(lower, Kept(alnum, s)) ==
            (if alnum(s[0]) then lower(s[0]) else "") + LowerEach(lower, Kept(alnum, s[1..]))
  {
    if alnum(s[0]) {
      Cons(s[0], Kept(alnum, s[1..]));
    } else {
      Nil(Kept(alnum, s[1..]));
      Nil(LowerEach(lower, Kept(alnum, s[1..])));
    }
  }

  lemma {:induction false} SameKept(c: Casing, s: string)
    requires Tables(c) && forall x <- s :: !BinaryOnly(c, x)
    ensures Kept(c.scriptAlnum, s) == Kept(c.binaryAlnum, s)
  {
    if s != "" {
      SameKept(c, s[1..]);
      assert !BinaryOnly(c, s[0]);
    }
  }

  /** A text the two languages fold alike: no character only the binary keeps, and no capital sigma at the
      end of a word of the kept text. */
  predicate FoldsAlike(c: Casing, s: string) {
    var kept := Kept(c.scriptAlnum, s);
    (forall x <- s :: !BinaryOnly(c, x)) && forall k :: 0 <= k < |kept| ==> !EndsWord(c, kept, k)
  }

  /** The two folds of a text agree if and only if it has no character only the binary keeps and no
      capital sigma at the end of a word. */
  lemma FoldsAgreeIff(c: Casing, s: string)
    requires Tables(c)
    ensures ScriptFold(c, s) == BinaryFold(c, s) <==> FoldsAlike(c, s)
  {
    var kept := Kept(c.scriptAlnum, s);
    assert kept[0..] == kept;
    LowerAgreesFrom(c, kept, 0);
    LowerLength(c, kept, 0);
    KeptLength(c, s);
    if forall x <- s :: !BinaryOnly(c, x) {
      SameKept(c, s);
    }
  }

  // ---- names_every_query_word ----

  type Fold = string -> string

  function FoldedWords(fold: Fold, words: seq<string>): (folded: seq<string>) {
    if words == [] then []
    else (if fold(words[0]) == "" then [] else [fold(words[0])]) + FoldedWords(fold, words[1..])
  }

  /** The folded name contains every folded word, and there is one. */
  predicate NamesEvery(fold: Fold, words: seq<string>, name: string) {
    var folded := FoldedWords(fold, words);
    folded != [] && forall i :: 0 <= i < |folded| ==> Find(fold(name), folded[i], 0).Some?
  }

  function ScriptFolds(c: Casing): (fold: Fold) {
    s => ScriptFold(c, s)
  }

  function BinaryFolds(c: Casing): (fold: Fold) {
    s => BinaryFold(c, s)
  }

  /** The script's test of a row's name, for a fixed query. */
  function Named(fold: Fold, query: string): (named: string -> bool) {
    name => NamesEvery(fold, SplitWords(query), name)
  }

  /** The binary's test. */
  function BinaryNamed(fold: Fold, query: string): (named: string -> bool) {
    name => NamesEvery(fold, SplitWhitespace(query), name)
  }

  lemma {:induction false} SameFolded(a: Fold, b: Fold, words: seq<string>)
    requires forall w <- words :: a(w) == b(w)
    ensures FoldedWords(a, words) == FoldedWords(b, words)
  {
    if words != [] {
      SameFolded(a, b, words[1..]);
    }
  }

  /** The two tests agree on a name whenever the query holds no separator and the two folds agree on
      its words and on the name. */
  lemma TestsAgree(script: Fold, binary: Fold, query: string, name: string)
    requires forall c <- query :: !IsSeparator(c)
    requires (forall w <- SplitWords(query) :: script(w) == binary(w)) && script(name) == binary(name)
    ensures Named(script, query)(name) == BinaryNamed(binary, query)(name)
  {
    SplitsAgreeIff(query);
    SameFolded(script, binary, SplitWords(query));
  }

  // ---- folds that work character by character ----

  predicate Splits(fold: Fold, a: string, b: string) {
    fold(a + b) == fold(a) + fold(b)
  }

  ghost predicate CharByChar(fold: Fold) {
    fold("") == "" && forall a, b :: Splits(fold, a, b)
  }

  ghost predicate Drops(fold: Fold, space: Spaces) {
    forall c :: space(c) ==> fold([c]) == ""
  }

  lemma {:induction false} KeptAppend(alnum: char -> bool, a: string, b: string)
    ensures Kept(alnum, a + b) == Kept(alnum, a) + Kept(alnum, b)
  {
    if a == "" {
      Nil(b);
    } else {
      TailOfAppend(a, b);
      KeptAppend(alnum, a[1..], b);
      Assoc(if alnum(a[0]) then [a[0]] else [], Kept(alnum, a[1..]), Kept(alnum, b));
    }
  }

  lemma {:induction false} LowerAppend(lower: char -> string, a: string, b: string)
    ensures LowerEach(lower, a + b) == LowerEach(lower, a) + LowerEach(lower, b)
  {
    if a == "" {
      Nil(b);
    } else {
      TailOfAppend(a, b);
      LowerAppend(lower, a[1..], b);
    }
  }

  /** The binary's fold is one. */
  lemma BinaryFoldIsCharByChar(c: Casing)
    requires forall x :: IsSpace(x) ==> !c.binaryAlnum(x)
    ensures CharByChar(BinaryFolds(c)) && Drops(BinaryFolds(c), IsSpace)
  {
    forall a, b ensures Splits(BinaryFolds(c), a, b) {
      KeptAppend(c.binaryAlnum, a, b);
      LowerAppend(c.lower, Kept(c.binaryAlnum, a), Kept(c.binaryAlnum, b));
    }
    forall x | IsSpace(x) ensures BinaryFold(c, [x]) == "" {
      assert [x][1..] == "";
      assert Kept(c.binaryAlnum, [x]) == [] + Kept(c.binaryAlnum, "");
    }
  }

  ghost predicate Within(part: string, s: string) {
    exists a, b :: s == a + part + b
  }

  lemma FoldWithin(fold: Fold, part: string, s: string)
    requires CharByChar(fold) && Within(part, s)
    ensures Within(fold(part), fold(s))
  {
    var a, b :| s == a + part + b;
    assert Splits(fold, a + part, b) && Splits(fold, a, part);
    assert fold(s) == fold(a) + fold(part) + fold(b);
  }

  lemma SliceWithin(text: string, k: nat, a: string, part: string, b: string)
    requires k + |a + part + b| <= |text| && text[k..k + |a + part + b|] == a + part + b
    ensures text[k + |a|..k + |a| + |part|] == part
  {
    var s := a + part + b;
    forall i | 0 <= i < |part| ensures text[k + |a| + i] == part[i] {
      assert text[k..k + |s|][|a| + i] == s[|a| + i];
    }
  }

  lemma FoundWithin(part: string, s: string, text: string)
    requires Within(part, s) && Find(text, s, 0).Some?
    ensures Find(text, part, 0).Some?
  {
    var a, b :| s == a + part + b;
    var k := Find(text, s, 0).value;
    SliceWithin(text, k, a, part, b);
    assert OccursAt(text, part, k + |a|);
  }

  lemma WithinIsShorter(part: string, s: string)
    requires Within(part, s)
    ensures |part| <= |s| && forall c <- part :: c in s
  {
    var a, b :| s == a + part + b;
    assert forall k :: 0 <= k < |part| ==> s[|a| + k] == part[k];
  }

  lemma WithinLonger(part: string, s: string, a: string, b: string)
    requires Within(part, s)
    ensures Within(part, a + s + b)
  {
    var x, y :| s == x + part + y;
    assert a + s + b == (a + x) + part + (y + b);
  }

  /** Text that starts a new word, or is empty, splits on its own. */
  lemma {:induction false} SplitAppend(space: Spaces, a: string, b: string)
    requires b == "" || space(b[0])
    ensures SplitOn(space, a + b) == SplitOn(space, a) + SplitOn(space, b)
    decreases |a|
  {
    if a == "" {
      Nil(b);
      Nil(SplitOn(space, b));
    } else if space(a[0]) {
      TailOfAppend(a, b);
      SplitAppend(space, a[1..], b);
    } else {
      var n := WordEnd(space, a);
      EndAppend(space, a, b);
      assert (a + b)[..n] == a[..n] && (a + b)[n..] == a[n..] + b;
      SplitAppend(space, a[n..], b);
      Assoc([a[..n]], SplitOn(space, a[n..]), SplitOn(space, b));
    }
  }

  lemma {:induction false} EndAppend(space: Spaces, a: string, b: string)
    requires b == "" || space(b[0])
    ensures WordEnd(space, a + b) == WordEnd(space, a)
  {
    if a == "" {
      Nil(b);
    } else if !space(a[0]) {
      TailOfAppend(a, b);
      EndAppend(space, a[1..], b);
    }
  }

  lemma {:induction false} WordIsWithin(space: Spaces, s: string, w: string)
    requires w in SplitOn(space, s)
    ensures Within(w, s)
    decreases |s|
  {
    if space(s[0]) {
      WordIsWithin(space, s[1..], w);
      WithinLonger(w, s[1..], [s[0]], "");
      assert [s[0]] + s[1..] + "" == s;
    } else {
      var n := WordEnd(space, s);
      assert "" + s[..n] + s[n..] == s;
      if w != s[..n] {
        WordIsWithin(space, s[n..], w);
        WithinLonger(w, s[n..], s[..n], "");
        assert s[..n] + s[n..] + "" == s;
      }
    }
  }

  /** More kinds of white space cut words finer: each finer word lies in a coarser one. */
  lemma {:induction false} FinerWordIsWithin(coarse: Spaces, fine: Spaces, s: string, part: string)
    requires (forall c :: coarse(c) ==> fine(c)) && part in SplitOn(fine, s)
    ensures exists w :: w in SplitOn(coarse, s) && Within(part, w)
    decreases |s|
  {
    if coarse(s[0]) {
      FinerWordIsWithin(coarse, fine, s[1..], part);
    } else {
      var n := WordEnd(coarse, s);
      assert s == s[..n] + s[n..];
      SplitAppend(fine, s[..n], s[n..]);
      if part in SplitOn(fine, s[..n]) {
        WordIsWithin(fine, s[..n], part);
        assert s[..n] in SplitOn(coarse, s);
      } else {
        FinerWordIsWithin(coarse, fine, s[n..], part);
      }
    }
  }

  lemma {:induction false} FoldedMembers(fold: Fold, words: seq<string>, x: string)
    ensures x in FoldedWords(fold, words) <==> x != "" && exists w :: w in words && fold(w) == x
  {
    if words != [] {
      FoldedMembers(fold, words[1..], x);
      Uncons(words);
    }
  }

  lemma {:induction false} FoldsToSomething(fold: Fold, s: string)
    requires CharByChar(fold)
    ensures fold(s) != "" <==> exists c :: c in s && fold([c]) != ""
  {
    if s != "" {
      FoldsToSomething(fold, s[1..]);
      Uncons(s);
      assert Splits(fold, [s[0]], s[1..]);
    }
  }

  lemma SomeWordFolds(fold: Fold, space: Spaces, query: string)
    requires CharByChar(fold) && Drops(fold, space) && fold(query) != ""
    ensures FoldedWords(fold, SplitOn(space, query)) != []
  {
    var words := SplitOn(space, query);
    FoldsToSomething(fold, query);
    var c :| c in query && fold([c]) != "";
    WordsHold(space, query, c);
    var i :| 0 <= i < |words| && c in words[i];
    FoldsToSomething(fold, words[i]);
    FoldedMembers(fold, words, fold(words[i]));
  }

  /** A query has a folded word exactly when it folds to something. */
  lemma HasWordIff(fold: Fold, space: Spaces, query: string)
    requires CharByChar(fold) && Drops(fold, space)
    ensures FoldedWords(fold, SplitOn(space, query)) != [] <==> fold(query) != ""
  {
    var words := SplitOn(space, query);
    if fold(query) != "" {
      SomeWordFolds(fold, space, query);
    }
    if FoldedWords(fold, words) != [] {
      var x := FoldedWords(fold, words)[0];
      FoldedMembers(fold, words, x);
      var w :| w in words && fold(w) == x;
      WordIsWithin(space, query, w);
      FoldWithin(fold, w, query);
      WithinIsShorter(fold(w), fold(query));
    }
  }

  /** What the finer split accepts follows from what the coarser one accepts. */
  lemma FinerTestAccepts(fold: Fold, coarse: Spaces, fine: Spaces, query: string, name: string)
    requires CharByChar(fold) && Drops(fold, fine) && forall c :: coarse(c) ==> fine(c)
    requires NamesEvery(fold, SplitOn(coarse, query), name)
    ensures NamesEvery(fold, SplitOn(fine, query), name)
  {
    HasWordIff(fold, coarse, query);
    HasWordIff(fold, fine, query);
    var folded, big := FoldedWords(fold, SplitOn(fine, query)), FoldedWords(fold, SplitOn(coarse, query));
    forall i | 0 <= i < |folded| ensures Find(fold(name), folded[i], 0).Some? {
      FoldedMembers(fold, SplitOn(fine, query), folded[i]);
      var part :| part in SplitOn(fine, query) && fold(part) == folded[i];
      FinerWordIsWithin(coarse, fine, query, part);
      var w :| w in SplitOn(coarse, query) && Within(part, w);
      FoldWithin(fold, part, w);
      FoldedMembers(fold, SplitOn(coarse, query), fold(w));
      var j :| 0 <= j < |big| && big[j] == fold(w);
      FoundWithin(fold(part), fold(w), fold(name));
    }
  }

  /** The split alone: with one character-by-character fold for both, whatever the query, a row the binary
      protects by its name is protected by the script. */
  lemma BinaryTestImpliesScript(fold: Fold, query: string, name: string)
    requires CharByChar(fold) && Drops(fold, IsSpace) && BinaryNamed(fold, query)(name)
    ensures Named(fold, query)(name)
  {
    FinerTestAccepts(fold, IsWhitespace, IsSpace, query, name);
    SplitWordsIsSplitOn(query);
  }

  // ---- queries with more words ----

  ghost predicate WordsAmong(query: string, larger: string) {
    forall w :: w in SplitWords(query) ==> w in SplitWords(larger)
  }

  /** A query with more words accepts fewer names, if the smaller one has a folded word at all. */
  lemma MoreWordsAcceptLess(fold: Fold, query: string, larger: string, name: string)
    requires WordsAmong(query, larger) && FoldedWords(fold, SplitWords(query)) != [] && Named(fold, larger)(name)
    ensures Named(fold, query)(name)
  {
    var folded, more := FoldedWords(fold, SplitWords(query)), FoldedWords(fold, SplitWords(larger));
    forall i | 0 <= i < |folded| ensures Find(fold(name), folded[i], 0).Some? {
      FoldedMembers(fold, SplitWords(query), folded[i]);
      FoldedMembers(fold, SplitWords(larger), folded[i]);
      var j :| 0 <= j < |more| && more[j] == folded[i];
    }
  }

  lemma FoundItself(s: string)
    ensures Find(s, s, 0).Some?
  {
    assert s[0..|s|] == s;
    assert OccursAt(s, s, 0);
  }

  // ---- a name that spells out a query ----

  /** `d` keeps the texts on its two sides apart. */
  ghost predicate Separates(fold: Fold, d: char) {
    fold("") == "" && forall a, b :: fold(a + [d] + b) == fold(a) + fold([d]) + fold(b)
  }

  function JoinOn(d: char, words: seq<string>): (s: string) {
    if words == [] then "" else words[0] + [d] + JoinOn(d, words[1..])
  }

  lemma {:induction false} FoldedIsWithinJoin(fold: Fold, d: char, words: seq<string>, w: string)
    requires Separates(fold, d) && w in words
    ensures Within(fold(w), fold(JoinOn(d, words)))
  {
    var rest := JoinOn(d, words[1..]);
    Uncons(words);
    assert fold(JoinOn(d, words)) == fold(words[0]) + fold([d]) + fold(rest);
    if w == words[0] {
      assert fold(JoinOn(d, words)) == "" + fold(w) + (fold([d]) + fold(rest));
    } else {
      FoldedIsWithinJoin(fold, d, words[1..], w);
      WithinLonger(fold(w), fold(rest), fold(words[0]) + fold([d]), "");
      Nil(fold(words[0]) + fold([d]) + fold(rest));
    }
  }

  /** The joined words of a query are a name that it accepts. */
  lemma JoinIsNamed(fold: Fold, d: char, words: seq<string>)
    requires Separates(fold, d) && FoldedWords(fold, words) != []
    ensures NamesEvery(fold, words, JoinOn(d, words))
  {
    var folded, name := FoldedWords(fold, words), JoinOn(d, words);
    FoundItself(fold(name));
    forall i | 0 <= i < |folded| ensures Find(fold(name), folded[i], 0).Some? {
      FoldedMembers(fold, words, folded[i]);
      var w :| w in words && fold(w) == folded[i];
      FoldedIsWithinJoin(fold, d, words, w);
      FoundWithin(folded[i], fold(name), fold(name));
    }
  }

  /** Text without `x` does not reach across it. */
  lemma WithinOneSide(part: string, a: string, x: char, b: string)
    requires Within(part, a + [x] + b) && x !in part
    ensures Within(part, a) || Within(part, b)
  {
    var s := a + [x] + b;
    var l, r :| s == l + part + r;
    var k, m := |l|, |l| + |part|;
    assert forall i :: k <= i < m ==> s[i] == part[i - k];
    assert s[|a|] == x;
    if m <= |a| {
      assert part == s[k..m] == a[k..m];
      assert a == a[..k] + part + a[m..];
    } else if k > |a| {
      var n := |a| + 1;
      assert part == s[k..m] == b[k - n..m - n];
      assert b == b[..k - n] + part + b[m - n..];
    }
  }

  lemma {:induction false} WithinJoinIsWithinWord(fold: Fold, d: char, x: char, words: seq<string>, part: string)
    requires Separates(fold, d) && fold([d]) == [x] && part != "" && x !in part
    requires Within(part, fold(JoinOn(d, words)))
    ensures exists w :: w in words && Within(part, fold(w))
  {
    WithinIsShorter(part, fold(JoinOn(d, words)));
    if words != [] {
      var rest := JoinOn(d, words[1..]);
      assert fold(JoinOn(d, words)) == fold(words[0]) + [x] + fold(rest);
      WithinOneSide(part, fold(words[0]), x, fold(rest));
      if Within(part, fold(words[0])) {
        assert words[0] in words;
      } else {
        WithinJoinIsWithinWord(fold, d, x, words[1..], part);
      }
    }
  }

  lemma FoundIsWithin(s: string, part: string)
    requires Find(s, part, 0).Some?
    ensures Within(part, s)
  {
    var k := Find(s, part, 0).value;
    assert s == s[..k] + part + s[k + |part|..];
  }

  /** Each folded word of the coarser split lies in one of the finer split. */
  ghost predicate Covered(fold: Fold, coarse: seq<string>, fine: seq<string>) {
    forall w <- coarse :: fold(w) == "" || exists part :: part in fine && Within(fold(w), fold(part))
  }

  lemma CoveredTestAccepts(fold: Fold, coarse: seq<string>, fine: seq<string>, name: string)
    requires Covered(fold, coarse, fine) && FoldedWords(fold, coarse) != [] && NamesEvery(fold, fine, name)
    ensures NamesEvery(fold, coarse, name)
  {
    var folded, small := FoldedWords(fold, coarse), FoldedWords(fold, fine);
    forall i | 0 <= i < |folded| ensures Find(fold(name), folded[i], 0).Some? {
      FoldedMembers(fold, coarse, folded[i]);
      var w :| w in coarse && fold(w) == folded[i];
      var part :| part in fine && Within(fold(w), fold(part));
      WithinIsShorter(fold(w), fold(part));
      FoldedMembers(fold, fine, fold(part));
      var j :| 0 <= j < |small| && small[j] == fold(part);
      FoundWithin(fold(w), fold(part), fold(name));
    }
  }

  lemma AgreementCovers(fold: Fold, d: char, x: char, query: string, w: string)
    requires CharByChar(fold) && Drops(fold, IsSpace) && fold([d]) == [x] && x !in fold(query)
    requires forall name :: Named(fold, query)(name) ==> BinaryNamed(fold, query)(name)
    requires w in SplitWhitespace(query) && fold(w) != ""
    ensures exists part :: part in SplitWords(query) && Within(fold(w), fold(part))
  {
    var words, coarse := SplitWords(query), SplitWhitespace(query);
    var name := JoinOn(d, words);
    SplitWordsIsSplitOn(query);
    HasWordIff(fold, IsSpace, query);
    WordIsWithin(IsWhitespace, query, w);
    FoldWithin(fold, w, query);
    WithinIsShorter(fold(w), fold(query));
    SeparatesAnywhere(fold, d);
    JoinIsNamed(fold, d, words);
    assert Named(fold, query)(name);
    FoldedMembers(fold, coarse, fold(w));
    var folded := FoldedWords(fold, coarse);
    var i :| 0 <= i < |folded| && folded[i] == fold(w);
    FoundIsWithin(fold(name), fold(w));
    WithinJoinIsWithinWord(fold, d, x, words, fold(w));
  }

  lemma SeparatesAnywhere(fold: Fold, d: char)
    requires CharByChar(fold)
    ensures Separates(fold, d)
  {
    forall a, b ensures fold(a + [d] + b) == fold(a) + fold([d]) + fold(b) {
      assert Splits(fold, a + [d], b) && Splits(fold, a, [d]);
    }
  }

  /** The split alone: with one character-by-character fold for both, and some character that folds to one
      the query does not have, the two tests agree on every name if and only if each folded word of the
      binary's split lies in a folded word of the script's. */
  lemma SplitTestsAgreeIff(fold: Fold, d: char, x: char, query: string)
    requires CharByChar(fold) && Drops(fold, IsSpace) && fold([d]) == [x] && x !in fold(query)
    ensures (forall name :: Named(fold, query)(name) == BinaryNamed(fold, query)(name)) <==>
            Covered(fold, SplitWhitespace(query), SplitWords(query))
  {
    var words, coarse := SplitWords(query), SplitWhitespace(query);
    SplitWordsIsSplitOn(query);
    HasWordIff(fold, IsSpace, query);
    HasWordIff(fold, IsWhitespace, query);
    if Covered(fold, coarse, words) {
      forall name ensures Named(fold, query)(name) == BinaryNamed(fold, query)(name) {
        if Named(fold, query)(name) {
          CoveredTestAccepts(fold, coarse, words, name);
        } else if BinaryNamed(fold, query)(name) {
          BinaryTestImpliesScript(fold, query, name);
        }
      }
    } else if forall name :: Named(fold, query)(name) == BinaryNamed(fold, query)(name) {
      forall w | w in coarse && fold(w) != "" ensures exists part :: part in words && Within(fold(w), fold(part)) {
        AgreementCovers(fold, d, x, query, w);
      }
    }
  }

  // ---- the script's fold ----

  /** A letter or digit without case, which the search for cased letters does not pass over. */
  predicate Neutral(c: Casing, d: char) {
    c.scriptAlnum(d) && !c.cased(d) && !c.ignorable(d) && d != CAPITAL_SIGMA
  }

  lemma {:induction false} CasedLeft(c: Casing, a: string, d: char, b: string, n: nat)
    requires n <= |a|
    ensures CasedBefore(c, a + [d] + b, n) == CasedBefore(c, a, n)
  {
    if n > 0 && c.ignorable(a[n - 1]) {
      CasedLeft(c, a, d, b, n - 1);
    }
  }

  lemma {:induction false} CasedUpTo(c: Casing, a: string, d: char, b: string, n: nat)
    requires n <= |a| && Neutral(c, d)
    ensures CasedAfter(c, a + [d] + b, n) == CasedAfter(c, a, n)
    decreases |a| - n
  {
    if n < |a| && c.ignorable(a[n]) {
      CasedUpTo(c, a, d, b, n + 1);
    }
  }

  lemma {:induction false} CasedSince(c: Casing, a: string, d: char, b: string, n: nat)
    requires n <= |b| && Neutral(c, d)
    ensures CasedBefore(c, a + [d] + b, |a| + 1 + n) == CasedBefore(c, b, n)
  {
    if n > 0 && c.ignorable(b[n - 1]) {
      CasedSince(c, a, d, b, n - 1);
    }
  }

  lemma {:induction false} CasedRight(c: Casing, a: string, d: char, b: string, n: nat)
    requires n <= |b|
    ensures CasedAfter(c, a + [d] + b, |a| + 1 + n) == CasedAfter(c, b, n)
    decreases |b| - n
  {
    if n < |b| && c.ignorable(b[n]) {
      CasedRight(c, a, d, b, n + 1);
    }
  }

  lemma LowerAtLeft(c: Casing, a: string, d: char, b: string, i: nat)
    requires i < |a| && Neutral(c, d)
    ensures LowerAt(c, a + [d] + b, i) == LowerAt(c, a, i)
  {
    CasedLeft(c, a, d, b, i);
    CasedUpTo(c, a, d, b, i + 1);
  }

  lemma LowerAtRight(c: Casing, a: string, d: char, b: string, i: nat)
    requires i < |b| && Neutral(c, d)
    ensures LowerAt(c, a + [d] + b, |a| + 1 + i) == LowerAt(c, b, i)
  {
    CasedSince(c, a, d, b, i);
    CasedRight(c, a, d, b, i + 1);
  }

  lemma {:induction false} LowerRight(c: Casing, a: string, d: char, b: string, i: nat)
    requires i <= |b| && Neutral(c, d)
    ensures LowerFrom(c, a + [d] + b, |a| + 1 + i) == LowerFrom(c, b, i)
    decreases |b| - i
  {
    if i < |b| {
      LowerRight(c, a, d, b, i + 1);
      LowerAtRight(c, a, d, b, i);
    }
  }

  lemma {:induction false} LowerLeft(c: Casing, a: string, d: char, b: string, i: nat)
    requires i <= |a| && Neutral(c, d)
    ensures LowerFrom(c, a + [d] + b, i) == LowerFrom(c, a, i) + LowerFrom(c, a + [d] + b, |a|)
    decreases |a| - i
  {
    if i == |a| {
      Nil(LowerFrom(c, a + [d] + b, i));
    } else {
      LowerLeft(c, a, d, b, i + 1);
      LowerAtLeft(c, a, d, b, i);
      Assoc(LowerAt(c, a, i), LowerFrom(c, a, i + 1), LowerFrom(c, a + [d] + b, |a|));
    }
  }

  lemma LowerAround(c: Casing, a: string, d: char, b: string)
    requires Neutral(c, d)
    ensures LowerFrom(c, a + [d] + b, 0) == LowerFrom(c, a, 0) + c.lower(d) + LowerFrom(c, b, 0)
  {
    LowerLeft(c, a, d, b, 0);
    LowerRight(c, a, d, b, 0);
    assert LowerAt(c, a + [d] + b, |a|) == c.lower(d);
  }

  lemma KeptAround(alnum: char -> bool, d: char, a: string, b: string)
    requires alnum(d)
    ensures Kept(alnum, [d]) == [d] && Kept(alnum, a + [d] + b) == Kept(alnum, a) + [d] + Kept(alnum, b)
  {
    assert [d][1..] == "";
    KeptAppend(alnum, a + [d], b);
    KeptAppend(alnum, a, [d]);
  }

  lemma LowerOne(c: Casing, d: char)
    requires Neutral(c, d)
    ensures LowerFrom(c, [d], 0) == c.lower(d)
  {
    assert LowerFrom(c, [d], 1) == "";
    Nil(c.lower(d));
  }

  lemma ScriptFoldAround(c: Casing, d: char, a: string, b: string)
    requires Neutral(c, d)
    ensures ScriptFold(c, a + [d] + b) == ScriptFold(c, a) + ScriptFold(c, [d]) + ScriptFold(c, b)
  {
    KeptAround(c.scriptAlnum, d, a, b);
    LowerAround(c, Kept(c.scriptAlnum, a), d, Kept(c.scriptAlnum, b));
    LowerOne(c, d);
  }

  /** The script's fold works word by word: a neutral character keeps two texts apart. */
  lemma ScriptFoldSeparates(c: Casing, d: char)
    requires Neutral(c, d)
    ensures Separates(ScriptFolds(c), d)
  {
    forall a, b ensures ScriptFold(c, a + [d] + b) == ScriptFold(c, a) + ScriptFold(c, [d]) + ScriptFold(c, b) {
      ScriptFoldAround(c, d, a, b);
    }
  }

  lemma {:induction false} KeptIsEmptyIff(alnum: char -> bool, s: string)
    ensures Kept(alnum, s) == "" <==> forall x <- s :: !alnum(x)
  {
    if s != "" {
      KeptIsEmptyIff(alnum, s[1..]);
      Uncons(s);
    }
  }

  lemma {:induction false} KeptIsAlnum(alnum: char -> bool, s: string)
    ensures forall x <- Kept(alnum, s) :: alnum(x)
  {
    if s != "" {
      KeptIsAlnum(alnum, s[1..]);
    }
  }

  lemma ScriptFoldIsEmptyIff(c: Casing, s: string)
    requires Tables(c)
    ensures ScriptFold(c, s) == "" <==> forall x <- s :: !c.scriptAlnum(x)
  {
    var kept := Kept(c.scriptAlnum, s);
    KeptIsEmptyIff(c.scriptAlnum, s);
    KeptIsAlnum(c.scriptAlnum, s);
    if kept != "" {
      assert kept[0] in kept;
      assert LowerAt(c, kept, 0) != "";
    }
  }

  /** A query has a folded word for the script exactly when it has a letter or digit. */
  lemma ScriptHasWordIff(c: Casing, query: string)
    requires Tables(c)
    ensures FoldedWords(ScriptFolds(c), SplitWords(query)) == [] <==> forall x <- query :: !c.scriptAlnum(x)
  {
    var words := SplitWords(query);
    SplitWordsIsSplitOn(query);
    var folded := FoldedWords(ScriptFolds(c), words);
    forall x | x in query && c.scriptAlnum(x) ensures folded != [] {
      WordsHold(IsSpace, query, x);
      var i :| 0 <= i < |words| && x in words[i];
      ScriptFoldIsEmptyIff(c, words[i]);
      assert words[i] in words && ScriptFolds(c)(words[i]) != "";
      FoldedMembers(ScriptFolds(c), words, ScriptFolds(c)(words[i]));
    }
    if folded != [] {
      FoldedMembers(ScriptFolds(c), words, folded[0]);
      var w :| w in words && ScriptFold(c, w) == folded[0];
      ScriptFoldIsEmptyIff(c, w);
      WordIsWithin(IsSpace, query, w);
      WithinIsShorter(w, query);
    }
  }
}
