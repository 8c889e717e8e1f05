/** `" ".join(text.split())` and `str.strip`: text compared up to white space. */
module Words {
  import opened Text

  /** A word: not empty, no white space. */
  predicate IsWord(w: string) {
    w != "" && forall k :: 0 <= k < |w| ==> !IsSpace(w[k])
  }

  predicate AllWords(words: seq<string>) {
    forall i :: 0 <= i < |words| ==> IsWord(words[i])
  }

  function JoinWords(words: seq<string>): (s: string) {
    if words == [] then "" else if |words| == 1 then words[0] else words[0] + " " + JoinWords(words[1..])
  }

  function CanonicalText(s: string): (c: string) {
    JoinWords(SplitWords(s))
  }

  lemma {:induction false} SplitGivesWords(s: string)
    ensures AllWords(SplitWords(s))
    decreases |s|
  {
    if s != "" {
      if IsSpace(s[0]) {
        SplitGivesWords(s[1..]);
      } else {
        var n := WordLen(s);
        SplitGivesWords(s[n..]);
        assert forall k :: 0 <= k < n ==> s[..n][k] == s[k];
      }
    }
  }

  lemma {:induction false} WordLenAt(w: string, rest: string)
    requires forall k :: 0 <= k < |w| ==> !IsSpace(w[k])
    requires rest != "" ==> IsSpace(rest[0])
    ensures WordLen(w + rest) == |w|
  {
    if w == "" {
      Nil(rest);
    } else {
      assert (w + rest)[1..] == w[1..] + rest;
      WordLenAt(w[1..], rest);
    }
  }

  /** A word that white space or the end follows is split off whole. */
  lemma SplitFirstWord(w: string, rest: string)
    requires IsWord(w) && (rest != "" ==> IsSpace(rest[0]))
    ensures SplitWords(w + rest) == [w] + SplitWords(rest)
  {
    WordLenAt(w, rest);
    assert (w + rest)[..|w|] == w && (w + rest)[|w|..] == rest;
  }

  /** Joining words with single spaces loses none of them. */
  lemma {:induction false} SplitOfJoin(words: seq<string>)
    requires AllWords(words)
    ensures SplitWords(JoinWords(words)) == words
  {
    if |words| == 1 {
      SplitFirstWord(words[0], "");
      Nil(words[0]);
      Uncons(words);
    } else if words != [] {
      var rest := " " + JoinWords(words[1..]);
      SplitOfJoin(words[1..]);
      assert rest[1..] == JoinWords(words[1..]);
      assert JoinWords(words) == words[0] + rest;
      SplitFirstWord(words[0], rest);
      Uncons(words);
    }
  }

  /** Two texts have one canonical form exactly when they have the same words in the same order. */
  lemma CanonicalIsWords(a: string, b: string)
    ensures CanonicalText(a) == CanonicalText(b) <==> SplitWords(a) == SplitWords(b)
    ensures CanonicalText(CanonicalText(a)) == CanonicalText(a)
  {
    SplitGivesWords(a);
    SplitGivesWords(b);
    SplitOfJoin(SplitWords(a));
    SplitOfJoin(SplitWords(b));
  }

  // ---- str.lstrip and str.strip ----

  function LStrip(s: string): (r: string) {
    if s != "" && IsSpace(s[0]) then LStrip(s[1..]) else s
  }

  function RStrip(s: string): (r: string) {
    if s != "" && IsSpace(Last(s)) then RStrip(s[..|s| - 1]) else s
  }

  function Strip(s: string): (r: string) {
    RStrip(LStrip(s))
  }

  predicate AllSpace(s: string) {
    forall k :: 0 <= k < |s| ==> IsSpace(s[k])
  }

  /** `s` is white space and then a text that starts with `opening`. */
  ghost predicate Opens(s: string, opening: string) {
    exists blank, rest :: AllSpace(blank) && s == blank + opening + rest
  }

  lemma {:induction false} LStripSplits(s: string) returns (blank: string)
    ensures AllSpace(blank) && s == blank + LStrip(s)
  {
    blank := "";
    if s != "" && IsSpace(s[0]) {
      var more := LStripSplits(s[1..]);
      blank := [s[0]] + more;
    }
  }

  lemma {:induction false} LStripOfBlank(blank: string, s: string)
    requires AllSpace(blank) && s != "" && !IsSpace(s[0])
    ensures LStrip(blank + s) == s
  {
    if blank == "" {
      assert blank + s == s;
    } else {
      LStripOfBlank(blank[1..], s);
      assert (blank + s)[1..] == blank[1..] + s;
    }
  }

  /** What is left after the white space starts with `opening` exactly when the text opens with it. */
  lemma LStripOpens(s: string, opening: string)
    requires opening != "" && !IsSpace(opening[0])
    ensures opening <= LStrip(s) <==> Opens(s, opening)
  {
    if opening <= LStrip(s) {
      var blank := LStripSplits(s);
      assert s == blank + opening + LStrip(s)[|opening|..];
    }
    forall blank, rest | AllSpace(blank) && s == blank + opening + rest ensures opening <= LStrip(s) {
      assert s == blank + (opening + rest);
      LStripOfBlank(blank, opening + rest);
    }
  }

  lemma {:induction false} LStripKeepsWords(s: string)
    ensures SplitWords(LStrip(s)) == SplitWords(s)
  {
    if s != "" && IsSpace(s[0]) {
      LStripKeepsWords(s[1..]);
    }
  }

  /** Words are separated at white space and nowhere else. */
  lemma {:induction false} SplitAtSpace(a: string, c: char, b: string)
    requires IsSpace(c)
    ensures SplitWords(a + ([c] + b)) == SplitWords(a) + SplitWords(b)
    decreases |a|
  {
    if a == "" {
      Nil([c] + b);
      Cons(c, b);
    } else if IsSpace(a[0]) {
      TailOfAppend(a, [c] + b);
      SplitAtSpace(a[1..], c, b);
    } else {
      var n := WordLen(a);
      assert a == a[..n] + a[n..];
      Assoc(a[..n], a[n..], [c] + b);
      assert forall k :: 0 <= k < n ==> a[..n][k] == a[k];
      SplitFirstWord(a[..n], a[n..]);
      SplitFirstWord(a[..n], a[n..] + ([c] + b));
      SplitAtSpace(a[n..], c, b);
      Assoc([a[..n]], SplitWords(a[n..]), SplitWords(b));
    }
  }

  lemma TrailingSpace(s: string, c: char)
    requires IsSpace(c)
    ensures SplitWords(s + [c]) == SplitWords(s)
  {
    SplitAtSpace(s, c, "");
    Nil([c]);
    Nil(SplitWords(s));
  }

  lemma {:induction false} RStripKeepsWords(s: string)
    ensures SplitWords(RStrip(s)) == SplitWords(s)
  {
    if s != "" && IsSpace(Last(s)) {
      RStripKeepsWords(s[..|s| - 1]);
      TrailingSpace(s[..|s| - 1], Last(s));
      assert s == s[..|s| - 1] + [Last(s)];
    }
  }

  lemma StripKeepsWords(s: string)
    ensures SplitWords(Strip(s)) == SplitWords(s)
  {
    LStripKeepsWords(s);
    RStripKeepsWords(LStrip(s));
  }

  /** Stripping leaves nothing exactly when there was no word. */
  lemma StripEmptyIff(s: string)
    ensures Strip(s) == "" <==> SplitWords(s) == []
  {
    StripKeepsWords(s);
    LStripStops(s);
    RStripStops(LStrip(s));
  }

  lemma {:induction false} LStripStops(s: string)
    ensures LStrip(s) != "" ==> !IsSpace(LStrip(s)[0])
  {
    if s != "" && IsSpace(s[0]) {
      LStripStops(s[1..]);
    }
  }

  lemma {:induction false} RStripStops(s: string)
    ensures s != "" && !IsSpace(s[0]) ==> RStrip(s) != "" && RStrip(s)[0] == s[0]
  {
    if s != "" && IsSpace(Last(s)) {
      RStripStops(s[..|s| - 1]);
    }
  }
}
