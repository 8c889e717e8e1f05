/** Content-Length framing of the packaged bridge check (Language Server Protocol 3.17, Base Protocol,
    Header Part). */
module Framing {
  import opened Options
  import opened Text
  import opened Utf8

  type Bytes = seq<Byte>

  const CR: Byte := 13
  const LF: Byte := 10

  datatype Refusal = IncompleteHeader | InvalidLength | ShortBody | InvalidJson | NotAnObject

  /** `json.loads` of a body: an object, another value, or no JSON at all. */
  datatype Loaded<V> = Object(value: V) | OtherValue | Invalid

  // ---- bytes ----

  predicate BlankAt(s: Bytes, k: nat) {
    k + 4 <= |s| && s[k] == CR && s[k + 1] == LF && s[k + 2] == CR && s[k + 3] == LF
  }

  /** The first blank line: where the header ends. */
  function FindBlank(s: Bytes): (r: Option<nat>)
    ensures r.Some? ==> BlankAt(s, r.value) && forall k: nat :: k < r.value ==> !BlankAt(s, k)
    ensures r.None? ==> forall k: nat :: !BlankAt(s, k)
  {
    if |s| < 4 then None
    else if BlankAt(s, 0) then Some(0)
    else
      var rest := FindBlank(s[1..]);
      assert forall k: nat :: k > 0 && BlankAt(s, k) ==> BlankAt(s[1..], k - 1);
      if rest.Some? then Some(rest.value + 1) else None
  }

  /** Length up to the first line end, or the whole length. */
  function LineLength(s: Bytes): (n: nat)
    ensures n <= |s|
    ensures n < |s| ==> n + 2 <= |s| && s[n] == CR && s[n + 1] == LF
  {
    if s == [] || (|s| >= 2 && s[0] == CR && s[1] == LF) then 0 else 1 + LineLength(s[1..])
  }

  /** `header.split(b"\r\n")`. */
  function HeaderLines(s: Bytes): (lines: seq<Bytes>)
    decreases |s|
  {
    var n := LineLength(s);
    if n == |s| then [s] else [s[..n]] + HeaderLines(s[n + 2..])
  }

  predicate IsSpaceByte(b: Byte) {
    b == 32 || 9 <= b <= 13
  }

  /** `bytes.strip()`. */
  function Stripped(s: Bytes): (t: Bytes)
    decreases |s|
  {
    if s == [] then []
    else if IsSpaceByte(s[0]) then Stripped(s[1..])
    else if IsSpaceByte(s[|s| - 1]) then Stripped(s[..|s| - 1])
    else s
  }

  predicate IsNumber(s: Bytes) {
    s != [] && forall i :: 0 <= i < |s| ==> 48 <= s[i] <= 57
  }

  function Number(s: Bytes): (n: nat)
    requires IsNumber(s)
  {
    ParseDec(seq(|s|, i requires 0 <= i < |s| => s[i] as char))
  }

  // ---- read_frame ----

  /** How a header line is recognised as the length field, and what it holds. */
  datatype Field = Field(matches: Bytes -> bool, value: Bytes -> Bytes)

  function Lengths(field: Field, lines: seq<Bytes>): (values: seq<Bytes>) {
    if lines == [] then []
    else (if field.matches(lines[0]) then [field.value(lines[0])] else []) + Lengths(field, lines[1..])
  }

  function Decoded<V>(loaded: Loaded<V>): (r: Result<V, Refusal>) {
    match loaded
    case Object(value) => Ok(value)
    case OtherValue => Refused(NotAnObject)
    case Invalid => Refused(InvalidJson)
  }

  function ReadFrame<V>(field: Field, loads: Bytes -> Loaded<V>, payload: Bytes): (r: Result<V, Refusal>) {
    var end := FindBlank(payload);
    if end.None? then Refused(IncompleteHeader)
    else
      var lengths := Lengths(field, HeaderLines(payload[..end.value]));
      var buffered := payload[end.value + 4..];
      if |lengths| != 1 || !IsNumber(lengths[0]) then Refused(InvalidLength)
      else if |buffered| < Number(lengths[0]) then Refused(ShortBody)
      else Decoded(loads(buffered[..Number(lengths[0])]))
  }

  // ---- any header the protocol allows ----

  predicate PlainLine(line: Bytes) {
    line != [] && CR !in line
  }

  function JoinLines(lines: seq<Bytes>): (s: Bytes)
    requires lines != []
  {
    if |lines| == 1 then lines[0] else lines[0] + [CR, LF] + JoinLines(lines[1..])
  }

  predicate PlainLines(lines: seq<Bytes>) {
    lines != [] && forall i :: 0 <= i < |lines| ==> PlainLine(lines[i])
  }

  lemma {:induction false} LineLengthSkips(line: Bytes, rest: Bytes)
    requires CR !in line
    ensures LineLength(line + rest) == |line| + LineLength(rest)
  {
    if line == [] {
      Nil(rest);
    } else {
      assert line[0] in line && (line + rest)[1..] == line[1..] + rest;
      LineLengthSkips(line[1..], rest);
    }
  }

  /** Splitting undoes joining. */
  lemma {:induction false} LinesOfJoined(lines: seq<Bytes>)
    requires PlainLines(lines)
    ensures HeaderLines(JoinLines(lines)) == lines
  {
    var s := JoinLines(lines);
    if |lines| == 1 {
      LineLengthSkips(lines[0], []);
      Nil(lines[0]);
      assert lines == [lines[0]];
    } else {
      var rest := JoinLines(lines[1..]);
      Assoc(lines[0], [CR, LF], rest);
      LineLengthSkips(lines[0], [CR, LF] + rest);
      assert LineLength([CR, LF] + rest) == 0;
      assert s[..|lines[0]|] == lines[0] && s[|lines[0]| + 2..] == rest;
      LinesOfJoined(lines[1..]);
      Uncons(lines);
    }
  }

  lemma {:induction false} JoinedStart(lines: seq<Bytes>)
    requires PlainLines(lines)
    ensures JoinLines(lines) != [] && JoinLines(lines)[0] != CR
  {
    assert lines[0][0] in lines[0];
  }

  lemma BlankAtLater(s: Bytes, d: nat, k: nat)
    requires d <= k && d <= |s|
    ensures BlankAt(s, k) <==> BlankAt(s[d..], k - d)
  {
  }

  /** A joined header holds no blank line of its own: the first is the one that ends it. */
  lemma {:induction false} NoBlankInside(lines: seq<Bytes>, s: Bytes, k: nat)
    requires PlainLines(lines) && JoinLines(lines) <= s && k < |JoinLines(lines)|
    ensures !BlankAt(s, k)
  {
    var line := lines[0];
    if k < |line| {
      assert s[k] == line[k];
      assert line[k] in line;
    } else if |lines| > 1 {
      var rest := JoinLines(lines[1..]);
      var tail := s[|line| + 2..];
      Assoc(line, [CR, LF], rest);
      assert JoinLines(lines)[|line| + 2..] == rest;
      JoinedStart(lines[1..]);
      assert rest <= tail;
      if k == |line| {
        assert s[k + 2] == rest[0];
      } else if k == |line| + 1 {
        assert s[k] == LF;
      } else {
        NoBlankInside(lines[1..], tail, k - |line| - 2);
        BlankAtLater(s, |line| + 2, k);
      }
    }
  }

  const BLANK: Bytes := [CR, LF, CR, LF]

  lemma BlankIsFound(lines: seq<Bytes>, rest: Bytes)
    requires PlainLines(lines)
    ensures FindBlank(JoinLines(lines) + BLANK + rest) == Some(|JoinLines(lines)|)
  {
    var h := JoinLines(lines);
    var s := h + BLANK + rest;
    assert BlankAt(s, |h|);
    forall k: nat | k < |h| ensures !BlankAt(s, k) {
      NoBlankInside(lines, s, k);
    }
  }

  lemma {:induction false} OneLength(field: Field, lines: seq<Bytes>, i: nat)
    requires i < |lines| && field.matches(lines[i])
    requires forall j :: 0 <= j < |lines| && j != i ==> !field.matches(lines[j])
    ensures Lengths(field, lines) == [field.value(lines[i])]
  {
    if i == 0 {
      NoLength(field, lines[1..]);
    } else {
      OneLength(field, lines[1..], i - 1);
    }
  }

  lemma {:induction false} NoLength(field: Field, lines: seq<Bytes>)
    requires forall j :: 0 <= j < |lines| ==> !field.matches(lines[j])
    ensures Lengths(field, lines) == []
  {
    if lines != [] {
      NoLength(field, lines[1..]);
    }
  }

  /** A header of plain lines with one length field announcing `n`. */
  ghost predicate Announces(field: Field, lines: seq<Bytes>, n: nat) {
    && PlainLines(lines)
    && exists i :: 0 <= i < |lines| && field.matches(lines[i])
              && (forall j :: 0 <= j < |lines| && j != i ==> !field.matches(lines[j]))
              && IsNumber(field.value(lines[i])) && Number(field.value(lines[i])) == n
  }

  lemma AnnouncedLength(field: Field, lines: seq<Bytes>, n: nat)
    requires Announces(field, lines, n)
    ensures var lengths := Lengths(field, HeaderLines(JoinLines(lines)));
            |lengths| == 1 && IsNumber(lengths[0]) && Number(lengths[0]) == n
  {
    var i :| 0 <= i < |lines| && field.matches(lines[i])
          && (forall j :: 0 <= j < |lines| && j != i ==> !field.matches(lines[j]))
          && IsNumber(field.value(lines[i])) && Number(field.value(lines[i])) == n;
    LinesOfJoined(lines);
    OneLength(field, lines, i);
  }

  lemma {:induction false} NoLengthIff(field: Field, lines: seq<Bytes>)
    ensures Lengths(field, lines) == [] <==> forall j :: 0 <= j < |lines| ==> !field.matches(lines[j])
  {
    if lines != [] {
      NoLengthIff(field, lines[1..]);
      assert forall j :: 0 < j < |lines| ==> lines[j] == lines[1..][j - 1];
    }
  }

  lemma {:induction false} OneLengthFound(field: Field, lines: seq<Bytes>) returns (i: nat)
    requires |Lengths(field, lines)| == 1
    ensures i < |lines| && field.matches(lines[i]) && Lengths(field, lines) == [field.value(lines[i])]
    ensures forall j :: 0 <= j < |lines| && j != i ==> !field.matches(lines[j])
  {
    if field.matches(lines[0]) {
      i := 0;
      NoLengthIff(field, lines[1..]);
      assert forall j :: 0 < j < |lines| ==> lines[j] == lines[1..][j - 1];
    } else {
      var k := OneLengthFound(field, lines[1..]);
      i := k + 1;
      assert forall j :: 0 < j < |lines| ==> lines[j] == lines[1..][j - 1];
    }
  }

  /** A complete header is refused exactly when it does not announce a length: it has no length field,
      or more than one, or one that is no number. */
  lemma LengthIsRefusedIff<V>(field: Field, loads: Bytes -> Loaded<V>, lines: seq<Bytes>, rest: Bytes)
    requires PlainLines(lines)
    ensures ReadFrame(field, loads, JoinLines(lines) + BLANK + rest) == Refused(InvalidLength) <==>
            forall n: nat :: !Announces(field, lines, n)
  {
    var h := JoinLines(lines);
    var s := h + BLANK + rest;
    BlankIsFound(lines, rest);
    LinesOfJoined(lines);
    assert s[..|h|] == h && s[|h| + 4..] == rest;
    var lengths := Lengths(field, lines);
    if |lengths| == 1 && IsNumber(lengths[0]) {
      var i := OneLengthFound(field, lines);
      assert Announces(field, lines, Number(lengths[0]));
    }
    forall n: nat | Announces(field, lines, n)
      ensures |lengths| == 1 && IsNumber(lengths[0])
    {
      AnnouncedLength(field, lines, n);
    }
  }

  /** Whatever other fields the header has and whatever follows the body, the body is what is read. */
  lemma FrameIsRead<V>(field: Field, loads: Bytes -> Loaded<V>, lines: seq<Bytes>, body: Bytes, rest: Bytes)
    requires Announces(field, lines, |body|)
    ensures ReadFrame(field, loads, JoinLines(lines) + BLANK + (body + rest)) == Decoded(loads(body))
  {
    var h := JoinLines(lines);
    var s := h + BLANK + (body + rest);
    BlankIsFound(lines, body + rest);
    AnnouncedLength(field, lines, |body|);
    assert s[..|h|] == h && s[|h| + 4..] == body + rest;
    assert (body + rest)[..|body|] == body;
  }

  /** Every strict prefix of a frame is refused as incomplete or short. */
  lemma PrefixIsRefused<V>(field: Field, loads: Bytes -> Loaded<V>, lines: seq<Bytes>, body: Bytes, k: nat)
    requires Announces(field, lines, |body|) && k < |JoinLines(lines) + BLANK + body|
    ensures ReadFrame(field, loads, (JoinLines(lines) + BLANK + body)[..k]) ==
            Refused(if k < |JoinLines(lines)| + 4 then IncompleteHeader else ShortBody)
  {
    var h := JoinLines(lines);
    var s := h + BLANK + body;
    var cut := s[..k];
    if k < |h| + 4 {
      forall j: nat ensures !BlankAt(cut, j) {
        if j < |h| {
          NoBlankInside(lines, s, j);
          assert BlankAt(cut, j) ==> BlankAt(s, j);
        }
      }
    } else {
      var part := body[..k - |h| - 4];
      assert cut == h + BLANK + part;
      BlankIsFound(lines, part);
      AnnouncedLength(field, lines, |body|);
      assert cut[..|h|] == h && cut[|h| + 4..] == part;
    }
  }

  // ---- framed ----

  const COLON: Byte := 58

  function LowerByte(b: Byte): (c: Byte) {
    if 65 <= b <= 90 then b + 32 else b
  }

  /** `line.lower().startswith(name)`. */
  predicate NamesField(name: Bytes, line: Bytes) {
    |name| <= |line| && forall i :: 0 <= i < |name| ==> LowerByte(line[i]) == name[i]
  }

  /** `line.split(b":", 1)[1]`; the lines it is used on hold a colon. */
  function AfterColon(line: Bytes): (rest: Bytes) {
    if line == [] then [] else if line[0] == COLON then line[1..] else AfterColon(line[1..])
  }

  function FieldNamed(name: Bytes): (field: Field) {
    Field(line => NamesField(name, line), line => Stripped(AfterColon(line)))
  }

  /** The line that announces `n`: the title, a colon, a space and the number. */
  function LengthLine(title: string, n: nat): (line: Bytes) {
    Encode(title) + [COLON, 32] + Encode(Dec(n))
  }

  lemma {:induction false} AsciiBytes(s: string)
    requires Ascii(s)
    ensures |Encode(s)| == |s| && forall i :: 0 <= i < |s| ==> Encode(s)[i] == s[i] as int
  {
    if s != "" {
      AsciiBytes(s[1..]);
      forall i | 0 < i < |s| ensures Encode(s)[i] == s[i] as int {
        assert Encode(s)[i] == Encode(s[1..])[i - 1];
      }
    }
  }

  lemma NumberReadsBack(n: nat)
    ensures var d := Encode(Dec(n)); IsNumber(d) && Number(d) == n
  {
    DecRoundTrip(n);
    AsciiBytes(Dec(n));
    var d := Encode(Dec(n));
    assert seq(|d|, i requires 0 <= i < |d| => d[i] as char) == Dec(n);
  }

  lemma {:induction false} ColonIsFound(a: Bytes, rest: Bytes)
    requires COLON !in a
    ensures AfterColon(a + [COLON] + rest) == rest
  {
    var s := a + [COLON] + rest;
    if a == [] {
      assert s[1..] == rest;
    } else {
      assert a[0] in a && s[0] == a[0];
      assert s[1..] == a[1..] + [COLON] + rest;
      ColonIsFound(a[1..], rest);
    }
  }

  /** The field `name` is `title` in lower case with its colon; the title has no line end or colon. */
  ghost predicate Titles(title: string, name: Bytes) {
    && Ascii(title) && '\r' !in title && ':' !in title && title != ""
    && |name| == |title| + 1 && name[|title|] == COLON
    && forall i :: 0 <= i < |title| ==> name[i] == LowerByte(title[i] as int)
  }

  lemma OneLineAnnounces(field: Field, line: Bytes, n: nat)
    requires PlainLine(line) && field.matches(line) && IsNumber(field.value(line)) && Number(field.value(line)) == n
    ensures Announces(field, [line], n)
  {
    assert [line][0] == line;
  }

  lemma LengthLineIsPlain(title: string, name: Bytes, n: nat)
    requires Titles(title, name)
    ensures PlainLine(LengthLine(title, n))
  {
    var line, t := LengthLine(title, n), Encode(title);
    AsciiBytes(title);
    NumberReadsBack(n);
    forall i | 0 <= i < |line| ensures line[i] != CR {
      if i < |t| {
        assert line[i] == title[i] as int && title[i] in title;
      }
    }
  }

  lemma LengthLineAnnounces(title: string, name: Bytes, n: nat)
    requires Titles(title, name)
    ensures Announces(FieldNamed(name), [LengthLine(title, n)], n)
  {
    LengthLineIsPlain(title, name, n);
    LengthLineValue(title, name, n);
    NumberReadsBack(n);
    OneLineAnnounces(FieldNamed(name), LengthLine(title, n), n);
  }

  lemma LengthLineValue(title: string, name: Bytes, n: nat)
    requires Titles(title, name)
    ensures NamesField(name, LengthLine(title, n))
    ensures Stripped(AfterColon(LengthLine(title, n))) == Encode(Dec(n))
  {
    var line, d, t := LengthLine(title, n), Encode(Dec(n)), Encode(title);
    AsciiBytes(title);
    NumberReadsBack(n);
    forall i | 0 <= i < |name| ensures LowerByte(line[i]) == name[i] {
      if i < |t| {
        assert line[i] == t[i];
      }
    }
    assert COLON !in t by {
      forall i | 0 <= i < |t| ensures t[i] != COLON {
        assert t[i] == title[i] as int && title[i] in title;
      }
    }
    assert line == t + [COLON] + ([32] + d);
    ColonIsFound(t, [32] + d);
    Cons(32, d);
  }

  /** Space, tab, line feed, vertical tab, form feed and carriage return. */
  predicate Blank(s: Bytes) {
    forall i :: 0 <= i < |s| ==> s[i] in {32, 9, 10, 11, 12, 13}
  }

  lemma {:induction false} StrippedOf(left: Bytes, middle: Bytes, right: Bytes)
    requires Blank(left) && Blank(right)
    requires middle != [] && !Blank([middle[0]]) && !Blank([middle[|middle| - 1]])
    ensures Stripped(left + middle + right) == middle
    decreases |left| + |right|
  {
    var s := left + middle + right;
    if left != [] {
      assert s[1..] == left[1..] + middle + right;
      StrippedOf(left[1..], middle, right);
    } else if right != [] {
      assert s[0] == middle[0] && s[|s| - 1] == right[|right| - 1];
      assert s[..|s| - 1] == left + middle + right[..|right| - 1];
      StrippedOf(left, middle, right[..|right| - 1]);
    } else {
      assert s == middle;
    }
  }

  /** `b` is the byte `lower`, or the capital of that letter. */
  predicate InEitherCase(b: Byte, lower: Byte) {
    !(65 <= lower <= 90) && (b == lower || (97 <= lower <= 122 && b == lower - 32))
  }

  /** A line is the length field if and only if it opens with the field's name, in either case of its
      letters. */
  lemma NamesFieldIff(name: Bytes, line: Bytes)
    requires forall i :: 0 <= i < |name| ==> !(65 <= name[i] <= 90)
    ensures NamesField(name, line) <==>
            |name| <= |line| && forall i :: 0 <= i < |name| ==> InEitherCase(line[i], name[i])
  {
  }

  /** What it holds is what follows the first colon without the white space around it. */
  lemma LengthFieldReads(title: Bytes, left: Bytes, value: Bytes, right: Bytes)
    requires COLON !in title && Blank(left) && Blank(right)
    requires value != [] && !Blank([value[0]]) && !Blank([value[|value| - 1]])
    ensures Stripped(AfterColon(title + [COLON] + (left + value + right))) == value
  {
    ColonIsFound(title, left + value + right);
    StrippedOf(left, value, right);
  }

  /** `framed`. */
  function Framed<V>(title: string, dumps: V -> Bytes, v: V): (bytes: Bytes) {
    LengthLine(title, |dumps(v)|) + BLANK + dumps(v)
  }

  lemma TitledRoundTrip<V>(title: string, name: Bytes, dumps: V -> Bytes, loads: Bytes -> Loaded<V>, v: V, rest: Bytes)
    requires Titles(title, name) && loads(dumps(v)) == Object(v)
    ensures ReadFrame(FieldNamed(name), loads, Framed(title, dumps, v) + rest) == Ok(v)
  {
    var body := dumps(v);
    var lines := [LengthLine(title, |body|)];
    LengthLineAnnounces(title, name, |body|);
    FrameIsRead(FieldNamed(name), loads, lines, body, rest);
    assert JoinLines(lines) == lines[0];
    Assoc(lines[0] + BLANK, body, rest);
  }

  lemma TitledPrefixIsRefused<V>(title: string, name: Bytes, dumps: V -> Bytes, loads: Bytes -> Loaded<V>, v: V, k: nat)
    requires Titles(title, name) && k < |Framed(title, dumps, v)|
    ensures var r := ReadFrame(FieldNamed(name), loads, Framed(title, dumps, v)[..k]);
            r.Refused? && r.error in {IncompleteHeader, ShortBody}
  {
    var body := dumps(v);
    var lines := [LengthLine(title, |body|)];
    LengthLineAnnounces(title, name, |body|);
    assert JoinLines(lines) == lines[0];
    PrefixIsRefused(FieldNamed(name), loads, lines, body, k);
  }

  const TITLE := "Content-Length"

  const NAME: Bytes := [99, 111, 110, 116, 101, 110, 116, 45, 108, 101, 110, 103, 116, 104, 58]

  /** The constants of the check fit together. */
  lemma ContentLengthTitles()
    ensures Titles(TITLE, NAME)
  {
    assert |TITLE| == 14;
  }

  /** Reading a frame gives the framed value back, whatever follows it. */
  lemma FramingRoundTrip<V>(dumps: V -> Bytes, loads: Bytes -> Loaded<V>, v: V, rest: Bytes)
    requires loads(dumps(v)) == Object(v)
    ensures ReadFrame(FieldNamed(NAME), loads, Framed(TITLE, dumps, v) + rest) == Ok(v)
  {
    ContentLengthTitles();
    TitledRoundTrip(TITLE, NAME, dumps, loads, v, rest);
  }

  /** No strict prefix of a frame is misread. */
  lemma FramedPrefixIsRefused<V>(dumps: V -> Bytes, loads: Bytes -> Loaded<V>, v: V, k: nat)
    requires k < |Framed(TITLE, dumps, v)|
    ensures var r := ReadFrame(FieldNamed(NAME), loads, Framed(TITLE, dumps, v)[..k]);
            r.Refused? && r.error in {IncompleteHeader, ShortBody}
  {
    ContentLengthTitles();
    TitledPrefixIsRefused(TITLE, NAME, dumps, loads, v, k);
  }
}
