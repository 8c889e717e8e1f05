/** Keys of the Rust build caches: `v<generation>-rust-<lineage>-<env8>-<lock8>`. */
module CacheKeys {
  import opened Options
  import opened Text

  datatype Key = Key(generation: string, lineage: string, env: string, lock: string)

  predicate Hash8(s: string) {
    |s| == 8 && forall i :: 0 <= i < 8 ==> IsHex(s[i])
  }

  /** What the pattern's groups may hold: digits, and any text on one line. */
  predicate WellFormed(k: Key) {
    && k.generation != "" && AllDigits(k.generation)
    && k.lineage != "" && '\n' !in k.lineage
    && Hash8(k.env) && Hash8(k.lock)
  }

  /** The constant between generation and lineage. */
  const RUST := "-rust-"

  function Tail(k: Key): (s: string) {
    k.lineage + ['-'] + k.env + ['-'] + k.lock
  }

  function Format(k: Key): (s: string) {
    ['v'] + (k.generation + (RUST + Tail(k)))
  }

  /** The format spelled out. */
  lemma FormatSpells(k: Key)
    ensures Format(k) == "v" + k.generation + "-rust-" + k.lineage + "-" + k.env + "-" + k.lock
  {
  }

  /** The tail as lineage and two hashes, counted from the end. */
  function ParseTail(generation: string, s: string): (r: Option<Key>) {
    if |s| < 19 then None
    else
      var n := |s| - 18;
      var k := Key(generation, s[..n], s[n + 1..n + 9], s[n + 10..]);
      if s[n] == '-' && s[n + 9] == '-' && WellFormed(k) then Some(k) else None
  }

  /** `$` also matches before a final line feed. */
  function Body(key: string): (s: string) {
    if key != "" && Last(key) == '\n' then key[..|key| - 1] else key
  }

  /** `KEY_RE.match`: the groups of the only way the pattern can match. */
  function Parse(key: string): (r: Option<Key>) {
    ParseBody(Body(key))
  }

  function ParseBody(s: string): (r: Option<Key>) {
    if s == "" || s[0] != 'v' then None
    else
      var n := DigitRun(s[1..]);
      var rest := s[1 + n..];
      if !StartsWith(rest, RUST) then None else ParseTail(s[1..1 + n], rest[|RUST|..])
  }

  function LineageOf(key: string): (r: Option<string>) {
    if Parse(key).Some? then Some(Parse(key).value.lineage) else None
  }

  function GenerationOf(key: string): (r: Option<nat>) {
    var k := Parse(key);
    if k.Some? && WellFormed(k.value) then Some(ParseDec(k.value.generation)) else None
  }

  /** The pattern matches `key` with these groups: digits, any text on one line, and eight hexadecimal
      digits twice. */
  predicate Matches(key: string, k: Key) {
    && k.generation != "" && (forall c <- k.generation :: c in "0123456789")
    && k.lineage != "" && '\n' !in k.lineage
    && |k.env| == |k.lock| == 8 && (forall c <- k.env + k.lock :: c in "0123456789abcdef")
    && (var text := "v" + k.generation + "-rust-" + k.lineage + "-" + k.env + "-" + k.lock;
        key == text || key == text + "\n")
  }

  lemma DigitsAre(s: string)
    ensures AllDigits(s) <==> forall c <- s :: c in "0123456789"
  {
    forall c ensures IsDigit(c) <==> c in "0123456789" {
      assert IsDigit(c) ==> "0123456789"[c as int - 48] == c;
    }
    assert forall i :: 0 <= i < |s| ==> s[i] in s;
  }

  lemma HashesAre(a: string, b: string)
    requires |a| == |b| == 8
    ensures Hash8(a) && Hash8(b) <==> forall c <- a + b :: c in "0123456789abcdef"
  {
    forall c ensures IsHex(c) <==> c in "0123456789abcdef" {
      HexDigitsAre(c);
    }
    assert forall i :: 0 <= i < 8 ==> a[i] in a + b && b[i] in a + b;
  }

  lemma MatchesIff(key: string, k: Key)
    ensures Matches(key, k) <==> WellFormed(k) && (key == Format(k) || key == Format(k) + ['\n'])
  {
    DigitsAre(k.generation);
    if |k.env| == |k.lock| == 8 {
      HashesAre(k.env, k.lock);
    }
    FormatSpells(k);
  }

  lemma TailReadsBack(k: Key)
    requires WellFormed(k)
    ensures ParseTail(k.generation, Tail(k)) == Some(k)
  {
    var s := Tail(k);
    var n := |k.lineage|;
    assert |s| == n + 18;
    assert s[..n] == k.lineage;
    assert s[n + 1..n + 9] == k.env;
    assert s[n + 10..] == k.lock;
  }

  lemma BodyReadsBack(k: Key)
    requires WellFormed(k)
    ensures Body(Format(k)) == Format(k) && Body(Format(k) + ['\n']) == Format(k)
  {
    var s := Format(k);
    assert Last(s) == k.lock[7];
    assert (s + ['\n'])[..|s|] == s;
  }

  lemma RestReadsBack(generation: string, rust: string, tail: string)
    requires AllDigits(generation) && rust != "" && !IsDigit(rust[0])
    ensures var s := generation + (rust + tail);
            DigitRun(s) == |generation| && s[..|generation|] == generation
            && StartsWith(s[|generation|..], rust) && s[|generation|..][|rust|..] == tail
  {
    DigitRunUnique(generation, rust + tail);
    var s := generation + (rust + tail);
    assert s[|generation|..] == rust + tail;
  }

  lemma SlicesOfRest(s: string, n: nat)
    requires s != "" && n <= |s[1..]|
    ensures s[1..1 + n] == s[1..][..n] && s[1 + n..] == s[1..][n..]
  {
  }

  /** What the parser finds behind the `v`, for any constant between generation and tail. */
  lemma PartsReadBack(generation: string, rust: string, tail: string, s: string)
    requires AllDigits(generation) && rust != "" && !IsDigit(rust[0]) && s == ['v'] + (generation + (rust + tail))
    ensures s != "" && s[0] == 'v' && DigitRun(s[1..]) == |generation| && s[1..1 + |generation|] == generation
    ensures StartsWith(s[1 + |generation|..], rust) && s[1 + |generation|..][|rust|..] == tail
  {
    Cons('v', generation + (rust + tail));
    RestReadsBack(generation, rust, tail);
    SlicesOfRest(s, |generation|);
  }

  lemma FormattedBodyReadsBack(k: Key)
    requires WellFormed(k)
    ensures ParseBody(Format(k)) == Some(k)
  {
    PartsReadBack(k.generation, RUST, Tail(k), Format(k));
    TailReadsBack(k);
  }

  /** Formatting and then parsing gives every part back. */
  lemma FormatReadsBack(k: Key, key: string)
    requires Matches(key, k)
    ensures Parse(key) == Some(k)
  {
    MatchesIff(key, k);
    BodyReadsBack(k);
    FormattedBodyReadsBack(k);
  }

  lemma TailIsExact(generation: string, s: string)
    ensures ParseTail(generation, s).Some? ==>
              var k := ParseTail(generation, s).value; WellFormed(k) && k.generation == generation && Tail(k) == s
  {
    if ParseTail(generation, s).Some? {
      var n := |s| - 18;
      assert s == s[..n] + [s[n]] + s[n + 1..n + 9] + [s[n + 9]] + s[n + 10..];
    }
  }

  lemma Split3(s: string, n: nat, rust: string)
    requires s != "" && 1 + n <= |s| && StartsWith(s[1 + n..], rust)
    ensures s == [s[0]] + (s[1..1 + n] + (rust + s[1 + n..][|rust|..]))
  {
    var rest := s[1 + n..];
    assert rest == rust + rest[|rust|..];
    assert s == [s[0]] + (s[1..1 + n] + rest);
  }

  lemma BodyIsExact(s: string)
    ensures ParseBody(s).Some? ==> WellFormed(ParseBody(s).value) && s == Format(ParseBody(s).value)
  {
    if ParseBody(s).Some? {
      var n := DigitRun(s[1..]);
      var rest := s[1 + n..];
      TailIsExact(s[1..1 + n], rest[|RUST|..]);
      Split3(s, n, RUST);
    }
  }

  /** What is parsed is what was formatted. */
  lemma ParseIsExact(key: string)
    ensures Parse(key).Some? ==> Matches(key, Parse(key).value)
  {
    BodyIsExact(Body(key));
    if Body(key) != key {
      Unsnoc(key);
    }
    if Parse(key).Some? {
      MatchesIff(key, Parse(key).value);
    }
  }

  /** The pattern matches in exactly one way, so the lineage and generation are functions of the key:
      parsing is the inverse of formatting. */
  lemma ParseInvertsFormat(key: string, k: Key)
    ensures Parse(key) == Some(k) <==> Matches(key, k)
    ensures Matches(key, k) ==>
              LineageOf(key) == Some(k.lineage) && AllDigits(k.generation)
              && GenerationOf(key) == Some(ParseDec(k.generation))
  {
    ParseIsExact(key);
    if Matches(key, k) {
      FormatReadsBack(k, key);
      MatchesIff(key, k);
    }
  }
}
