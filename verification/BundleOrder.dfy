/** The two implementations of the bundle digest: the script sorts paths part by part, the build script sorts
    their texts. */
module BundleOrder {
  import opened Text
  import opened Utf8
  import opened Orders
  import opened Digest

  // ---- texts compare like their bytes ----

  predicate ByteLess(a: Byte, b: Byte) {
    a < b
  }

  lemma {:induction false} LexAfterPrefix<T(!new)>(less: Less<T>, p: seq<T>, x: seq<T>, y: seq<T>)
    requires StrictOrder(less)
    ensures LexLess(less, p + x, p + y) <==> LexLess(less, x, y)
  {
    if p == [] {
      Nil(x);
      Nil(y);
    } else {
      TailOfAppend(p, x);
      TailOfAppend(p, y);
      LexAfterPrefix(less, p[1..], x, y);
    }
  }

  /** Where two texts first differ decides. */
  lemma LexAtDifference<T(!new)>(less: Less<T>, p: seq<T>, a: T, b: T, x: seq<T>, y: seq<T>)
    requires StrictOrder(less) && a != b
    ensures LexLess(less, p + ([a] + x), p + ([b] + y)) <==> less(a, b)
  {
    LexAfterPrefix(less, p, [a] + x, [b] + y);
    Cons(a, x);
    Cons(b, y);
  }

  lemma WidthGrows(c: char, d: char)
    requires c < d
    ensures |EncodeChar(c)| <= |EncodeChar(d)|
  {
  }

  /** Leading digits first. */
  lemma PushOrder(g: int, a: int, h: int, b: int)
    requires 0x80 <= a < 0xC0 && 0x80 <= b < 0xC0
    requires PushContinuation(g, a) < PushContinuation(h, b)
    ensures g < h || (g == h && a < b)
  {
  }

  ghost predicate FirstLess(a: seq<Byte>, b: seq<Byte>, i: nat) {
    i < |a| && i < |b| && a[..i] == b[..i] && a[i] < b[i]
  }

  lemma SameWidthOrder(a: seq<Byte>, b: seq<Byte>) returns (i: nat)
    requires 1 <= |a| == |b| <= 4 && CodePoint(a) < CodePoint(b)
    requires forall k :: 1 <= k < |a| ==> 0x80 <= a[k] < 0xC0 && 0x80 <= b[k] < 0xC0
    ensures FirstLess(a, b, i)
  {
    if a[0] < b[0] {
      return 0;
    }
    var l: int, m: int := a[0], b[0];
    if |a| == 2 {
      PushOrder(l - 0xC0, a[1], m - 0xC0, b[1]);
    } else if |a| == 3 {
      var g, h := PushContinuation(l - 0xE0, a[1]), PushContinuation(m - 0xE0, b[1]);
      PushOrder(g, a[2], h, b[2]);
      if g < h {
        PushOrder(l - 0xE0, a[1], m - 0xE0, b[1]);
      }
    } else if |a| == 4 {
      var g, h := PushContinuation(l - 0xF0, a[1]), PushContinuation(m - 0xF0, b[1]);
      PushOrder(PushContinuation(g, a[2]), a[3], PushContinuation(h, b[2]), b[3]);
      if PushContinuation(g, a[2]) < PushContinuation(h, b[2]) {
        PushOrder(g, a[2], h, b[2]);
        if g < h {
          PushOrder(l - 0xF0, a[1], m - 0xF0, b[1]);
        }
      }
    }
    i := if a[1] < b[1] then 1 else if a[2] < b[2] then 2 else 3;
  }

  /** The first byte in which two characters' encodings differ is less for the lesser character. */
  lemma EncodeCharOrder(c: char, d: char) returns (i: nat)
    requires c < d
    ensures FirstLess(EncodeChar(c), EncodeChar(d), i)
  {
    EncodeCharIsShortest(c);
    EncodeCharIsShortest(d);
    WidthGrows(c, d);
    if |EncodeChar(c)| < |EncodeChar(d)| {
      return 0;
    }
    EncodeCharDecodes(c);
    EncodeCharDecodes(d);
    i := SameWidthOrder(EncodeChar(c), EncodeChar(d));
  }

  lemma BytesOfLess(a: seq<Byte>, b: seq<Byte>, i: nat, x: seq<Byte>, y: seq<Byte>)
    requires FirstLess(a, b, i)
    ensures LexLess(ByteLess, a + x, b + y) && !LexLess(ByteLess, b + y, a + x)
  {
    var p := a[..i];
    assert a + x == p + ([a[i]] + (a[i + 1..] + x));
    assert b + y == p + ([b[i]] + (b[i + 1..] + y));
    assert StrictOrder(ByteLess);
    LexAtDifference(ByteLess, p, a[i], b[i], a[i + 1..] + x, b[i + 1..] + y);
    LexAtDifference(ByteLess, p, b[i], a[i], b[i + 1..] + y, a[i + 1..] + x);
  }

  /** Comparing texts by code point and comparing their UTF-8 bytes is the same. */
  lemma {:induction false} EncodeKeepsOrder(s: string, t: string)
    ensures LexLess(ByteLess, Encode(s), Encode(t)) <==> LexLess(CharLess, s, t)
  {
    if s != "" && t != "" {
      var x, y := Encode(s[1..]), Encode(t[1..]);
      if s[0] == t[0] {
        EncodeKeepsOrder(s[1..], t[1..]);
        assert StrictOrder(ByteLess);
        LexAfterPrefix(ByteLess, EncodeChar(s[0]), x, y);
      } else if s[0] < t[0] {
        var i := EncodeCharOrder(s[0], t[0]);
        BytesOfLess(EncodeChar(s[0]), EncodeChar(t[0]), i, x, y);
      } else {
        var i := EncodeCharOrder(t[0], s[0]);
        BytesOfLess(EncodeChar(t[0]), EncodeChar(s[0]), i, y, x);
      }
    }
  }

  // ---- two orders of paths ----

  /** `paths.sort_unstable()`: the texts, byte by byte. */
  function TextLess(): (less: Less<Path>) {
    (p, q) => LexLess(ByteLess, Encode(PathText(p)), Encode(PathText(q)))
  }

  /** After some common parts `p` goes on below a part that `q` lengthens with a character before `/`. */
  predicate Crosses(p: Path, q: Path) {
    p != [] && q != [] &&
    if p[0] == q[0] then Crosses(p[1..], q[1..])
    else |p| > 1 && p[0] < q[0] && q[0][|p[0]|] < '/'
  }

  predicate FilePath(p: Path) {
    p != [] && Clean(p)
  }

  /** What follows the first part in the text of a path. */
  function After(p: Path): (s: string)
    requires p != []
  {
    if |p| == 1 then "" else ['/'] + Join(p[1..])
  }

  lemma JoinFirst(p: Path)
    requires p != []
    ensures Join(p) == p[0] + After(p)
  {
    Nil(p[0]);
  }

  ghost predicate Apart(a: string, b: string) {
    !(a <= b) && !(b <= a)
  }

  /** Parts that differ inside decide at the same character, alone or in the text. */
  lemma {:induction false} ApartParts(a: string, b: string, u: string, v: string)
    requires Apart(a, b)
    ensures LexLess(CharLess, a + u, b + v) <==> LexLess(CharLess, a, b)
  {
    TailOfAppend(a, u);
    TailOfAppend(b, v);
    if a[0] == b[0] {
      Uncons(a);
      Uncons(b);
      assert Apart(a[1..], b[1..]) by {
        assert a[1..] <= b[1..] ==> a <= b;
        assert b[1..] <= a[1..] ==> b <= a;
      }
      ApartParts(a[1..], b[1..], u, v);
    }
  }

  /** A part that goes on: the next character of the longer against what follows the shorter. */
  lemma LongerPart(a: string, b: string, u: string, v: string)
    requires a < b
    ensures LexLess(CharLess, a, b) && !LexLess(CharLess, b, a)
    ensures LexLess(CharLess, a + u, b + v) <==> u == "" || LexLess(CharLess, u, b[|a|..] + v)
    ensures LexLess(CharLess, b + v, a + u) <==> LexLess(CharLess, b[|a|..] + v, u)
  {
    var x := b[|a|..];
    assert StrictOrder(CharLess);
    assert b == a + x && a + x + v == a + (x + v);
    Nil(a);
    LexAfterPrefix(CharLess, a, "", x);
    LexAfterPrefix(CharLess, a, x, "");
    LexAfterPrefix(CharLess, a, u, x + v);
    LexAfterPrefix(CharLess, a, x + v, u);
  }

  lemma FirstPartsDiffer(p: Path, q: Path)
    requires FilePath(p) && FilePath(q) && p[0] != q[0]
    ensures LexLess(CharLess, Join(p), Join(q)) <==> (PathLess()(p, q) && !Crosses(p, q)) || Crosses(q, p)
  {
    var a, b := p[0], q[0];
    JoinFirst(p);
    JoinFirst(q);
    assert StrictOrder(CharLess);
    LexTotal(CharLess, a, b);
    if a < b {
      LongerPart(a, b, After(p), After(q));
      NextCharacter(a, b, p, q);
    } else if b < a {
      LongerPart(b, a, After(q), After(p));
      NextCharacter(b, a, q, p);
    } else {
      ApartParts(a, b, After(p), After(q));
    }
  }

  lemma NextCharacter(a: string, b: string, p: Path, q: Path)
    requires a < b && FilePath(p) && FilePath(q) && p[0] == a && q[0] == b
    ensures var x := b[|a|..] + After(q);
            && (|p| > 1 ==> (LexLess(CharLess, After(p), x) <==> '/' < b[|a|]))
            && (LexLess(CharLess, x, After(p)) <==> |p| > 1 && b[|a|] < '/')
  {
    var x := b[|a|..] + After(q);
    assert CleanPart(b) && b[|a|] in b;
    assert x[0] == b[|a|];
  }

  /** The build script's order is the script's except between paths that cross. */
  lemma {:induction false} TextOrderIff(p: Path, q: Path)
    requires FilePath(p) && FilePath(q)
    ensures LexLess(CharLess, Join(p), Join(q)) <==> (PathLess()(p, q) && !Crosses(p, q)) || Crosses(q, p)
  {
    if p[0] != q[0] {
      FirstPartsDiffer(p, q);
    } else {
      JoinFirst(p);
      JoinFirst(q);
      assert StrictOrder(CharLess);
      LexTotal(CharLess, p[0], p[0]);
      LexAfterPrefix(CharLess, p[0], After(p), After(q));
      assert PathLess()(p, q) <==> PathLess()(p[1..], q[1..]);
      assert |p| == 1 ==> p[1..] == [];
      assert |q| == 1 ==> q[1..] == [];
      if |p| > 1 && |q| > 1 {
        TextOrderIff(p[1..], q[1..]);
        LexAfterPrefix(CharLess, ['/'], Join(p[1..]), Join(q[1..]));
      }
    }
  }

  lemma TextLessIff(p: Path, q: Path)
    requires FilePath(p) && FilePath(q)
    ensures TextLess()(p, q) <==> (PathLess()(p, q) && !Crosses(p, q)) || Crosses(q, p)
  {
    EncodeKeepsOrder(PathText(p), PathText(q));
    TextOrderIff(p, q);
  }

  lemma {:induction false} CrossingIsLess(p: Path, q: Path)
    requires Crosses(p, q)
    ensures PathLess()(p, q) && !Crosses(q, p)
  {
    assert StrictOrder(CharLess);
    if p[0] == q[0] {
      CrossingIsLess(p[1..], q[1..]);
    } else {
      LongerPart(p[0], q[0], "", "");
    }
  }

  // ---- the two streams ----

  ghost predicate NoneCross(paths: seq<Path>) {
    forall p <- paths, q <- paths :: !Crosses(p, q)
  }

  /** Sorted by text and sorted by parts, a set of paths is in the same order if and only if no two of them
      cross. */
  lemma OrdersAgreeIff(byParts: seq<Path>, byText: seq<Path>)
    requires Increasing(PathLess(), byParts) && Increasing(TextLess(), byText) && Items(byParts) == Items(byText)
    requires forall p <- byParts :: FilePath(p)
    ensures byParts == byText <==> NoneCross(byParts)
  {
    assert forall p :: p in byParts <==> p in Items(byParts);
    assert forall p :: p in byText <==> p in Items(byText);
    PathLessIsStrictOrder();
    if NoneCross(byParts) {
      forall i, j | 0 <= i < j < |byText| ensures PathLess()(byText[i], byText[j]) {
        TextLessIff(byText[i], byText[j]);
      }
      EnumerationIsUnique(PathLess(), byParts, byText);
    } else {
      var p, q :| p in byParts && q in byParts && Crosses(p, q);
      CrossingPairIsReversed(byParts, p, q);
    }
  }

  lemma CrossingPairIsReversed(paths: seq<Path>, p: Path, q: Path)
    requires Increasing(PathLess(), paths)
    requires p in paths && q in paths && FilePath(p) && FilePath(q) && Crosses(p, q)
    ensures !Increasing(TextLess(), paths)
  {
    PathLessIsStrictOrder();
    CrossingIsLess(p, q);
    TextLessIff(p, q);
    var i :| 0 <= i < |paths| && paths[i] == p;
    var j :| 0 <= j < |paths| && paths[j] == q;
    assert !PathLess()(q, p);
    assert i < j && !TextLess()(paths[i], paths[j]);
  }

  /** The bytes the two implementations hash for the same files are the same if and only if no two paths
      cross. */
  lemma StreamsAgreeIff(files: map<Path, Bytes>, byParts: seq<Path>, byText: seq<Path>)
    requires Storable(files, FitsLength) && forall p <- files :: FilePath(p)
    requires Increasing(PathLess(), byParts) && Increasing(TextLess(), byText)
    requires Items(byParts) == files.Keys && Items(byText) == files.Keys
    ensures (forall p <- byParts :: p in files) && (forall p <- byText :: p in files)
    ensures Frames(LengthPrefixed, files, byParts) == Stream(LengthPrefixed, files)
    ensures Frames(LengthPrefixed, files, byParts) == Frames(LengthPrefixed, files, byText) <==> NoneCross(byParts)
  {
    assert forall p :: p in byParts <==> p in Items(byParts);
    assert forall p :: p in byText <==> p in Items(byText);
    PathLessIsStrictOrder();
    EnumerationIsUnique(PathLess(), byParts, Enumeration(PathLess(), files.Keys));
    OrdersAgreeIff(byParts, byText);
    LengthsAreDelimited();
    if Frames(LengthPrefixed, files, byParts) == Frames(LengthPrefixed, files, byText) {
      FramesInjective(LengthPrefixed, FitsLength, files, byParts, files, byText);
    }
  }

  /** A file beside a directory whose name it lengthens, as `assets.css` beside `assets/`, is such a pair. */
  lemma AssetsCross(file: string)
    requires CleanPart(file)
    ensures FilePath(["assets", file]) && FilePath(["assets.css"]) && Crosses(["assets", file], ["assets.css"])
  {
    assert CleanPart("assets") && CleanPart("assets.css");
    assert "assets" == "assets.css"[..6] && "assets.css"[6] == '.';
    assert "assets" < "assets.css";
  }

  /** A bundle with three files, as a build may make it. */
  function ThreeFiles(index: Bytes, style: Bytes, code: Bytes): (files: map<Path, Bytes>) {
    map[["index.html"] := index, ["assets.css"] := style, ["assets", "x.js"] := code]
  }

  lemma ThreeFilesAreStorable(index: Bytes, style: Bytes, code: Bytes)
    requires FitsLength(index) && FitsLength(style) && FitsLength(code)
    ensures var files := ThreeFiles(index, style, code);
            Storable(files, FitsLength) && forall p <- files :: FilePath(p)
  {
    assert CleanPart("index.html") && CleanPart("assets.css") && CleanPart("assets") && CleanPart("x.js");
    assert '\0' !in "index.html" && '\0' !in "assets.css" && '\0' !in "assets" && '\0' !in "x.js";
  }

  lemma CrossingBundlesDiffer(files: map<Path, Bytes>, byParts: seq<Path>, byText: seq<Path>, p: Path, q: Path)
    requires Storable(files, FitsLength) && forall x <- files :: FilePath(x)
    requires Increasing(PathLess(), byParts) && Increasing(TextLess(), byText)
    requires Items(byParts) == files.Keys == Items(byText) && p in files && q in files && Crosses(p, q)
    ensures (forall x <- byParts :: x in files) && (forall x <- byText :: x in files)
    ensures Frames(LengthPrefixed, files, byParts) != Frames(LengthPrefixed, files, byText)
  {
    StreamsAgreeIff(files, byParts, byText);
    assert p in Items(byParts) && q in Items(byParts);
  }

  /** The two implementations hash different bytes for it, whatever the contents. */
  lemma SomeBundlesDiffer(index: Bytes, style: Bytes, code: Bytes, byParts: seq<Path>, byText: seq<Path>)
    requires FitsLength(index) && FitsLength(style) && FitsLength(code)
    requires Increasing(PathLess(), byParts) && Increasing(TextLess(), byText)
    requires Items(byParts) == ThreeFiles(index, style, code).Keys == Items(byText)
    ensures var files := ThreeFiles(index, style, code);
            && (forall p <- byParts :: p in files) && (forall p <- byText :: p in files)
            && Frames(LengthPrefixed, files, byParts) != Frames(LengthPrefixed, files, byText)
  {
    var files := ThreeFiles(index, style, code);
    ThreeFilesAreStorable(index, style, code);
    assert CleanPart("x.js");
    AssetsCross("x.js");
    CrossingBundlesDiffer(files, byParts, byText, ["assets", "x.js"], ["assets.css"]);
  }
}
