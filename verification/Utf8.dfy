/** `str.encode("utf-8")`: the byte sizes the scripts count and the bytes they hash. */
module Utf8 {

  type Byte = n: int | 0 <= n < 256

  function EncodeChar(c: char): (bytes: seq<Byte>)
    ensures 1 <= |bytes| <= 4
  {
    var n := c as int;
    if n < 0x80 then [n]
    else
      var low := 0x80 + n % 0x40;
      var m := n / 0x40;
      if n < 0x800 then [0xC0 + m, low]
      else
        var mid := 0x80 + m % 0x40;
        var k := m / 0x40;
        if n < 0x1_0000 then [0xE0 + k, mid, low]
        else [0xF0 + k / 0x40, 0x80 + k % 0x40, mid, low]
  }

  function PushContinuation(high: int, b: int): int {
    0x40 * high + (b - 0x80)
  }

  /** The code point a character's bytes spell. */
  function CodePoint(bytes: seq<Byte>): (n: int)
    requires 1 <= |bytes| <= 4
  {
    var lead: int := bytes[0];
    if |bytes| == 1 then lead
    else if |bytes| == 2 then PushContinuation(lead - 0xC0, bytes[1])
    else if |bytes| == 3 then PushContinuation(PushContinuation(lead - 0xE0, bytes[1]), bytes[2])
    else PushContinuation(PushContinuation(PushContinuation(lead - 0xF0, bytes[1]), bytes[2]), bytes[3])
  }

  /** How many bytes the character that starts with byte `b` takes. */
  function Width(b: Byte): (n: nat) {
    if b < 0x80 then 1 else if b < 0xE0 then 2 else if b < 0xF0 then 3 else 4
  }

  function Encode(s: string): (bytes: seq<Byte>) {
    if s == "" then [] else EncodeChar(s[0]) + Encode(s[1..])
  }

  /** `len(s.encode())`. */
  function Size(s: string): (n: nat) {
    |Encode(s)|
  }

  lemma {:induction false} EncodeAppend(a: string, b: string)
    ensures Encode(a + b) == Encode(a) + Encode(b)
    ensures Size(a + b) == Size(a) + Size(b)
  {
    if a == "" {
      assert a + b == b;
    } else {
      assert (a + b)[1..] == a[1..] + b;
      EncodeAppend(a[1..], b);
    }
  }

  lemma EncodeCharDecodes(c: char)
    ensures CodePoint(EncodeChar(c)) == c as int
    ensures Width(EncodeChar(c)[0]) == |EncodeChar(c)|
  {
  }

  predicate Continuation(b: Byte) {
    0x80 <= b <= 0xBF
  }

  /** A character takes the shortest of the four forms that holds its code point. */
  lemma EncodeCharIsShortest(c: char)
    ensures var n, bytes := c as int, EncodeChar(c);
            && |bytes| == (if n <= 0x7F then 1 else if n <= 0x7FF then 2 else if n <= 0xFFFF then 3 else 4)
            && (|bytes| == 1 ==> bytes == [n])
            && (|bytes| == 2 ==> 0xC2 <= bytes[0] <= 0xDF)
            && (|bytes| == 3 ==> 0xE0 <= bytes[0] <= 0xEF)
            && (|bytes| == 4 ==> 0xF0 <= bytes[0] <= 0xF4)
            && forall i :: 0 < i < |bytes| ==> Continuation(bytes[i])
  {
  }

  /** The first byte tells how many bytes a character takes, and the bytes tell the character. */
  lemma EncodeCharPrefixFree(c: char, d: char, x: seq<Byte>, y: seq<Byte>)
    requires EncodeChar(c) + x == EncodeChar(d) + y
    ensures c == d && x == y
  {
    EncodeCharDecodes(c);
    EncodeCharDecodes(d);
    SamePrefix(EncodeChar(c), EncodeChar(d), x, y);
  }

  lemma SamePrefix(a: seq<Byte>, b: seq<Byte>, x: seq<Byte>, y: seq<Byte>)
    requires a + x == b + y
    requires a != [] && b != [] && Width(a[0]) == |a| && Width(b[0]) == |b|
    ensures a == b && x == y
  {
    assert (a + x)[0] == (b + y)[0];
    assert a == (a + x)[..|a|] && b == (b + y)[..|b|];
    assert x == (a + x)[|a|..] && y == (b + y)[|b|..];
  }

  lemma {:induction false} EncodeInjective(s: string, t: string)
    requires Encode(s) == Encode(t)
    ensures s == t
  {
    if s != "" && t != "" {
      EncodeCharPrefixFree(s[0], t[0], Encode(s[1..]), Encode(t[1..]));
      EncodeInjective(s[1..], t[1..]);
      assert s == [s[0]] + s[1..] && t == [t[0]] + t[1..];
    }
  }

  predicate Ascii(s: string) {
    forall k :: 0 <= k < |s| ==> s[k] < '\U{80}'
  }

  lemma {:induction false} AsciiSize(s: string)
    requires Ascii(s)
    ensures Size(s) == |s|
  {
    if s != "" {
      AsciiSize(s[1..]);
    }
  }
}
