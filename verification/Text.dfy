/** Python text as the scripts use it: physical lines, literal search, decimals. */
module Text {
  import opened Options

  // ---- physical lines: str.splitlines(keepends=True) ----

  /** The characters `str.splitlines` treats as a line boundary. */
  predicate IsBreak(c: char) {
    c == '\n' || c == '\r' || c == '\U{0B}' || c == '\U{0C}' || c == '\U{1C}' || c == '\U{1D}' ||
    c == '\U{1E}' || c == '\U{85}' || c == '\U{2028}' || c == '\U{2029}'
  }

  /** The terminators by code point. */
  lemma BreaksAre(c: char)
    ensures IsBreak(c) <==> c as int in {0x0A, 0x0B, 0x0C, 0x0D, 0x1C, 0x1D, 0x1E, 0x85, 0x2028, 0x2029}
  {
  }

  function Last(s: string): (c: char)
    requires s != ""
  {
    s[|s| - 1]
  }

  /** Length of the first physical line, terminator included; `\r\n` is one terminator. */
  function LineLen(s: string): (n: nat)
    requires s != ""
    ensures 1 <= n <= |s|
  {
    if s[0] == '\r' then (if |s| > 1 && s[1] == '\n' then 2 else 1)
    else if IsBreak(s[0]) || |s| == 1 then 1
    else 1 + LineLen(s[1..])
  }

  function SplitLines(s: string): (lines: seq<string>) {
    if s == "" then [] else [s[..LineLen(s)]] + SplitLines(s[LineLen(s)..])
  }

  function Concat(lines: seq<string>): (s: string) {
    if lines == [] then "" else lines[0] + Concat(lines[1..])
  }

  /** A string that is exactly one physical line. */
  predicate OneLine(l: string) {
    l != "" && LineLen(l) == |l|
  }

  /** `a` stays a whole line when `b` follows it. */
  predicate Junction(a: string, b: string)
    requires a != "" && b != ""
  {
    IsBreak(Last(a)) && !(Last(a) == '\r' && b[0] == '\n')
  }

  /** A sequence of strings that is the line split of its own concatenation. */
  predicate LineList(lines: seq<string>) {
    && (forall i :: 0 <= i < |lines| ==> OneLine(lines[i]))
    && (forall i :: 0 <= i < |lines| - 1 ==> Junction(lines[i], lines[i + 1]))
  }

  ghost predicate Distinct<T>(s: seq<T>) {
    forall i, j :: 0 <= i < j < |s| ==> s[i] != s[j]
  }

  // Sequence facts, named so that proofs can use them one at a time.

  lemma Cons<T>(x: T, s: seq<T>)
    ensures ([x] + s)[0] == x && ([x] + s)[1..] == s
  {
  }

  lemma Uncons<T>(s: seq<T>)
    requires s != []
    ensures s == [s[0]] + s[1..]
  {
  }

  lemma Unsnoc<T>(s: seq<T>)
    requires s != []
    ensures s == s[..|s| - 1] + [s[|s| - 1]]
  {
  }

  lemma TailOfAppend<T>(a: seq<T>, b: seq<T>)
    requires a != []
    ensures (a + b)[0] == a[0] && (a + b)[1..] == a[1..] + b && a + b == [a[0]] + (a[1..] + b)
  {
  }

  lemma Nil<T>(s: seq<T>)
    ensures [] + s == s && s + [] == s
  {
  }

  lemma SliceStep<T>(s: seq<T>, i: nat)
    requires i < |s|
    ensures s[i..] != [] && s[i..][0] == s[i] && s[i..][1..] == s[i + 1..]
  {
  }

  lemma Assoc<T>(x: seq<T>, y: seq<T>, z: seq<T>)
    ensures x + (y + z) == (x + y) + z
  {
  }

  lemma {:induction false} ConcatAppend(a: seq<string>, b: seq<string>)
    ensures Concat(a + b) == Concat(a) + Concat(b)
  {
    if a == [] {
      assert a + b == b;
    } else {
      assert (a + b)[1..] == a[1..] + b;
      ConcatAppend(a[1..], b);
    }
  }

  /** A one-line string has no line feed before its last character. */
  lemma {:induction false} OneLineInterior(l: string, k: nat)
    requires OneLine(l)
    requires k < |l| - 1
    ensures l[k] != '\n'
    ensures IsBreak(l[k]) ==> k == |l| - 2 && l[k] == '\r' && Last(l) == '\n'
  {
    if k > 0 && !IsBreak(l[0]) {
      OneLineInterior(l[1..], k - 1);
    }
  }

  lemma {:induction false} LineLenAppend(l: string, rest: string)
    requires OneLine(l)
    requires rest == "" || Junction(l, rest)
    ensures l + rest != "" && LineLen(l + rest) == |l|
  {
    if rest == "" {
      assert l + rest == l;
    } else if |l| > 1 && !IsBreak(l[0]) {
      assert (l + rest)[1..] == l[1..] + rest;
      LineLenAppend(l[1..], rest);
    }
  }

  /** Splitting the concatenation of a line list gives the list back. */
  lemma {:induction false} SplitConcat(lines: seq<string>)
    requires LineList(lines)
    ensures SplitLines(Concat(lines)) == lines
  {
    if lines != [] {
      var rest := Concat(lines[1..]);
      if lines[1..] != [] {
        assert rest[0] == lines[1][0];
        assert Junction(lines[0], lines[1]);
      }
      LineLenAppend(lines[0], rest);
      SplitConcat(lines[1..]);
    }
  }

  lemma {:induction false} FirstLineIsOneLine(s: string)
    requires s != ""
    ensures OneLine(s[..LineLen(s)])
    ensures LineLen(s) < |s| ==> Junction(s[..LineLen(s)], s[LineLen(s)..])
  {
    if s[0] != '\r' && !IsBreak(s[0]) && |s| > 1 {
      FirstLineIsOneLine(s[1..]);
      assert s[..LineLen(s)][1..] == s[1..][..LineLen(s[1..])];
      assert s[LineLen(s)..] == s[1..][LineLen(s[1..])..];
    }
  }

  /** No byte of the text is lost and every piece is one whole line. */
  lemma {:induction false} SplitLinesExact(s: string)
    ensures Concat(SplitLines(s)) == s
    ensures LineList(SplitLines(s))
    decreases |s|
  {
    if s != "" {
      FirstLineIsOneLine(s);
      var rest := s[LineLen(s)..];
      SplitLinesExact(rest);
      var lines := SplitLines(s);
      assert lines[1..] == SplitLines(rest);
      if rest != "" {
        assert lines[1][0] == rest[0];
      }
    }
  }

  // ---- literal search: `needle in text`, `text.startswith(prefix)` ----

  predicate StartsWith(s: string, prefix: string) {
    prefix <= s
  }

  predicate OccursAt(s: string, needle: string, k: nat) {
    k + |needle| <= |s| && s[k..k + |needle|] == needle
  }

  ghost predicate Contains(s: string, needle: string) {
    exists k: nat :: OccursAt(s, needle, k)
  }

  /** Position of the first occurrence at or after `from`, as `str.find` gives it. */
  function Find(s: string, needle: string, from: nat): (r: Option<nat>)
    ensures r.Some? ==> r.value >= from && OccursAt(s, needle, r.value)
    ensures r.Some? ==> forall k: nat :: from <= k < r.value ==> !OccursAt(s, needle, k)
    ensures r.None? ==> forall k: nat :: from <= k ==> !OccursAt(s, needle, k)
    decreases |s| + 1 - from
  {
    if from + |needle| > |s| then None
    else if s[from..from + |needle|] == needle then Some(from)
    else Find(s, needle, from + 1)
  }

  // ---- decimals: `f"{n}"`, `\d+`, `int(...)` ----

  predicate IsDigit(c: char) {
    '0' <= c <= '9'
  }

  predicate IsHex(c: char) {
    IsDigit(c) || 'a' <= c <= 'f'
  }

  lemma HexDigitsAre(c: char)
    ensures IsHex(c) <==> c in "0123456789abcdef"
  {
    var digits := "0123456789abcdef";
    if IsHex(c) {
      var i := c as int - if IsDigit(c) then 48 else 87;
      assert digits[i] == c;
    }
  }

  function Digit(d: nat): (c: char)
    requires d < 10
  {
    ['0', '1', '2', '3', '4', '5', '6', '7', '8', '9'][d]
  }

  function DigitValue(c: char): (d: nat)
    requires IsDigit(c)
    ensures d < 10
  {
    (c as int) - ('0' as int)
  }

  function Dec(n: nat): (s: string) {
    if n < 10 then [Digit(n)] else Dec(n / 10) + [Digit(n % 10)]
  }

  predicate AllDigits(s: string) {
    forall k :: 0 <= k < |s| ==> IsDigit(s[k])
  }

  function ParseDec(s: string): (n: nat)
    requires AllDigits(s)
  {
    if s == "" then 0 else 10 * ParseDec(s[..|s| - 1]) + DigitValue(Last(s))
  }

  lemma {:induction false} DecRoundTrip(n: nat)
    ensures Dec(n) != "" && AllDigits(Dec(n))
    ensures ParseDec(Dec(n)) == n
  {
    if n >= 10 {
      DecRoundTrip(n / 10);
      var s := Dec(n);
      assert s[..|s| - 1] == Dec(n / 10);
      assert DigitValue(Digit(n % 10)) == n % 10;
    } else {
      assert Dec(n)[..0] == "";
      assert DigitValue(Digit(n)) == n;
    }
  }

  /** Length of the maximal run of digits `\d+` takes greedily. */
  function DigitRun(s: string): (n: nat)
    ensures n <= |s| && AllDigits(s[..n])
    ensures n < |s| ==> !IsDigit(s[n])
  {
    if s == "" || !IsDigit(s[0]) then 0
    else
      var m := DigitRun(s[1..]);
      assert s[..m + 1] == [s[0]] + s[1..][..m];
      m + 1
  }

  lemma {:induction false} DigitRunUnique(digits: string, rest: string)
    requires AllDigits(digits)
    requires rest != "" ==> !IsDigit(rest[0])
    ensures DigitRun(digits + rest) == |digits|
  {
    if digits == "" {
      assert digits + rest == rest;
    } else {
      assert (digits + rest)[1..] == digits[1..] + rest;
      DigitRunUnique(digits[1..], rest);
    }
  }

  // ---- words: str.split() ----

  /** The characters `str.split()` with no argument separates words at. */
  predicate IsSpace(c: char) {
    '\t' <= c <= '\r' || '\U{1C}' <= c <= ' ' || c == '\U{85}' || c == '\U{A0}' || c == '\U{1680}' ||
    '\U{2000}' <= c <= '\U{200A}' || c == '\U{2028}' || c == '\U{2029}' || c == '\U{202F}' ||
    c == '\U{205F}' || c == '\U{3000}'
  }

  /** The white space by code point. */
  lemma SpacesAre(c: char)
    ensures var n := c as int;
            IsSpace(c) <==> || 0x09 <= n <= 0x0D || 0x1C <= n <= 0x20 || 0x2000 <= n <= 0x200A
                            || n in {0x85, 0xA0, 0x1680, 0x2028, 0x2029, 0x202F, 0x205F, 0x3000}
  {
  }

  /** Length of the leading run of word characters. */
  function WordLen(s: string): (n: nat)
    ensures n <= |s|
    ensures forall k :: 0 <= k < n ==> !IsSpace(s[k])
    ensures n < |s| ==> IsSpace(s[n])
  {
    if s == "" || IsSpace(s[0]) then 0
    else
      var m := WordLen(s[1..]);
      assert forall k :: 1 <= k < m + 1 ==> s[k] == s[1..][k - 1];
      m + 1
  }

  function SplitWords(s: string): (words: seq<string>)
    decreases |s|
  {
    if s == "" then []
    else if IsSpace(s[0]) then SplitWords(s[1..])
    else [s[..WordLen(s)]] + SplitWords(s[WordLen(s)..])
  }
}
