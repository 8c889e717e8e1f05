/** The bytes fed to SHA-256: the dashboard bundle's digest and the tree digest of the scorecard. */
module Digest {
  import opened Options
  import opened Text
  import opened Utf8
  import opened Orders

  // ---- relative paths ----

  /** A relative `PurePosixPath`: its parts are not empty, not `.` and hold no slash. */
  type Path = seq<string>

  predicate CleanPart(part: string) {
    part != "" && part != "." && '/' !in part
  }

  predicate Clean(p: Path) {
    forall i :: 0 <= i < |p| ==> CleanPart(p[i])
  }

  predicate NulFree(p: Path) {
    forall i :: 0 <= i < |p| ==> '\0' !in p[i]
  }

  function Join(p: Path): (s: string)
    requires p != []
  {
    if |p| == 1 then p[0] else p[0] + ['/'] + Join(p[1..])
  }

  /** `str(path)`. */
  function PathText(p: Path): (s: string) {
    if p == [] then "." else Join(p)
  }

  /** The parts of a path are written one after the other with a slash between them. */
  lemma {:induction false} PathTextAppends(p: Path, q: Path)
    requires p != [] && q != []
    ensures PathText(p + q) == PathText(p) + "/" + PathText(q)
  {
    if |p| == 1 {
      assert p + q == [p[0]] + q && (p + q)[1..] == q;
    } else {
      PathTextAppends(p[1..], q);
      TailOfAppend(p, q);
    }
  }

  lemma DelimiterIsFirst<T(!new)>(a: seq<T>, d: T, x: seq<T>, s: seq<T>)
    requires d !in a && s == a + [d] + x
    ensures |a| < |s| && s[|a|] == d && (forall i :: 0 <= i < |a| ==> s[i] != d)
    ensures a == s[..|a|] && x == s[|a| + 1..]
  {
    forall i | 0 <= i < |a| ensures s[i] != d {
      assert s[i] == a[i];
    }
  }

  /** A delimiter that occurs in neither head splits two equal texts at the same place. */
  lemma SameHead<T(!new)>(a: seq<T>, b: seq<T>, d: T, x: seq<T>, y: seq<T>)
    requires d !in a && d !in b && a + [d] + x == b + [d] + y
    ensures a == b && x == y
  {
    var s := a + [d] + x;
    DelimiterIsFirst(a, d, x, s);
    DelimiterIsFirst(b, d, y, s);
  }

  lemma JoinSlash(p: Path)
    requires p != [] && Clean(p)
    ensures '/' in Join(p) <==> |p| > 1
    ensures Join(p) != "."
  {
    if |p| > 1 {
      assert Join(p)[|p[0]|] == '/';
    }
  }

  lemma {:induction false} JoinInjective(p: Path, q: Path)
    requires p != [] && q != [] && Clean(p) && Clean(q) && Join(p) == Join(q)
    ensures p == q
  {
    JoinSlash(p);
    JoinSlash(q);
    if |p| > 1 {
      SameHead(p[0], q[0], '/', Join(p[1..]), Join(q[1..]));
      JoinInjective(p[1..], q[1..]);
      Uncons(p);
      Uncons(q);
    } else {
      assert p == [p[0]] && q == [q[0]];
    }
  }

  lemma PathTextInjective(p: Path, q: Path)
    requires Clean(p) && Clean(q) && PathText(p) == PathText(q)
    ensures p == q
  {
    if p != [] {
      JoinSlash(p);
    }
    if q != [] {
      JoinSlash(q);
    }
    if p != [] && q != [] {
      JoinInjective(p, q);
    }
  }

  lemma {:induction false} JoinNulFree(p: Path)
    requires p != [] && NulFree(p)
    ensures '\0' !in Join(p)
  {
    if |p| > 1 {
      JoinNulFree(p[1..]);
    }
  }

  lemma {:induction false} EncodeNulFree(s: string)
    requires '\0' !in s
    ensures 0 !in Encode(s)
  {
    if s != "" {
      EncodeNulFree(s[1..]);
      assert s[0] in s;
    }
  }

  // ---- fixed-width little-endian numbers ----

  function Le(n: nat, width: nat): (bytes: seq<Byte>)
    ensures |bytes| == width
  {
    if width == 0 then [] else [n % 256] + Le(n / 256, width - 1)
  }

  function Value(bytes: seq<Byte>): (n: nat) {
    if bytes == [] then 0 else bytes[0] + 256 * Value(bytes[1..])
  }

  function Limit(width: nat): (n: nat) {
    if width == 0 then 1 else 256 * Limit(width - 1)
  }

  lemma {:induction false} LeRoundTrip(n: nat, width: nat)
    requires n < Limit(width)
    ensures Value(Le(n, width)) == n
  {
    if width > 0 {
      LeRoundTrip(n / 256, width - 1);
      Cons(n % 256, Le(n / 256, width - 1));
    }
  }

  /** The eight bytes of a number, lowest first. */
  lemma LeOfEight(n: nat)
    requires n < LENGTH_LIMIT
    ensures var b: seq<int> := Le(n, 8);
            n == b[0] + 0x100 * b[1] + 0x1_0000 * b[2] + 0x100_0000 * b[3] + 0x1_0000_0000 * b[4]
                 + 0x100_0000_0000 * b[5] + 0x1_0000_0000_0000 * b[6] + 0x100_0000_0000_0000 * b[7]
  {
    EightBytesSuffice();
    LeRoundTrip(n, 8);
    ValueOfEight(Le(n, 8), Le(n, 8));
  }

  lemma ValueOfFour(bytes: seq<Byte>, b: seq<int>)
    requires |b| >= 4 && b == bytes
    ensures Value(bytes) == b[0] + 0x100 * b[1] + 0x1_0000 * b[2] + 0x100_0000 * b[3]
                            + 0x1_0000_0000 * Value(bytes[4..])
  {
    assert bytes[1..][1..] == bytes[2..] && bytes[2..][1..] == bytes[3..] && bytes[3..][1..] == bytes[4..];
    assert Value(bytes[3..]) == b[3] + 256 * Value(bytes[4..]);
    assert Value(bytes[2..]) == b[2] + 256 * Value(bytes[3..]);
    assert Value(bytes[1..]) == b[1] + 256 * Value(bytes[2..]);
  }

  lemma ValueOfEight(bytes: seq<Byte>, b: seq<int>)
    requires |b| == 8 && b == bytes
    ensures Value(bytes) == b[0] + 0x100 * b[1] + 0x1_0000 * b[2] + 0x100_0000 * b[3] + 0x1_0000_0000 * b[4]
                            + 0x100_0000_0000 * b[5] + 0x1_0000_0000_0000 * b[6] + 0x100_0000_0000_0000 * b[7]
  {
    ValueOfFour(bytes, b);
    ValueOfFour(bytes[4..], b[4..]);
    assert bytes[4..][4..] == [];
  }

  // ---- frames ----

  type Wrap = seq<Byte> -> seq<Byte>

  type Bytes = seq<Byte>

  /** How a file's contents follow its path: the reader can tell where they end. */
  ghost predicate SelfDelimiting(wrap: Wrap, fits: Bytes -> bool) {
    forall x, y, a, b :: fits(x) && fits(y) && wrap(x) + a == wrap(y) + b ==> x == y && a == b
  }

  function PathBytes(p: Path): (bytes: Bytes) {
    Encode(PathText(p)) + [0]
  }

  /** The bytes for the listed paths, in that order. */
  function Frames(wrap: Wrap, files: map<Path, Bytes>, order: seq<Path>): (bytes: Bytes)
    requires forall p <- order :: p in files
  {
    if order == [] then [] else PathBytes(order[0]) + (wrap(files[order[0]]) + Frames(wrap, files, order[1..]))
  }

  /** What a directory can hold: clean paths without NUL, and contents whose length fits. */
  ghost predicate Storable(files: map<Path, Bytes>, fits: Bytes -> bool) {
    forall p <- files :: Clean(p) && NulFree(p) && fits(files[p])
  }

  lemma PathBytesDelimited(p: Path, q: Path, a: Bytes, b: Bytes)
    requires Clean(p) && Clean(q) && NulFree(p) && NulFree(q)
    requires PathBytes(p) + a == PathBytes(q) + b
    ensures p == q && a == b
  {
    if p != [] {
      JoinNulFree(p);
    }
    if q != [] {
      JoinNulFree(q);
    }
    EncodeNulFree(PathText(p));
    EncodeNulFree(PathText(q));
    SameHead(Encode(PathText(p)), Encode(PathText(q)), 0, a, b);
    EncodeInjective(PathText(p), PathText(q));
    PathTextInjective(p, q);
  }

  ghost predicate Agree(f: map<Path, Bytes>, g: map<Path, Bytes>, order: seq<Path>) {
    forall p <- order :: p in f && p in g && f[p] == g[p]
  }

  /** Equal streams list the same paths, in the same order, with the same contents. */
  lemma {:induction false} FramesInjective(wrap: Wrap, fits: Bytes -> bool,
                                           f: map<Path, Bytes>, p: seq<Path>, g: map<Path, Bytes>, q: seq<Path>)
    requires SelfDelimiting(wrap, fits) && Storable(f, fits) && Storable(g, fits)
    requires (forall x <- p :: x in f) && (forall x <- q :: x in g)
    requires Frames(wrap, f, p) == Frames(wrap, g, q)
    ensures p == q && Agree(f, g, p)
  {
    NoFrames(wrap, f, p);
    NoFrames(wrap, g, q);
    if p != [] {
      PathBytesDelimited(p[0], q[0], wrap(f[p[0]]) + Frames(wrap, f, p[1..]), wrap(g[q[0]]) + Frames(wrap, g, q[1..]));
      assert f[p[0]] == g[q[0]] && Frames(wrap, f, p[1..]) == Frames(wrap, g, q[1..]);
      FramesInjective(wrap, fits, f, p[1..], g, q[1..]);
      Uncons(p);
      Uncons(q);
    }
  }

  lemma NoFrames(wrap: Wrap, files: map<Path, Bytes>, order: seq<Path>)
    requires forall p <- order :: p in files
    ensures Frames(wrap, files, order) == [] <==> order == []
  {
  }

  lemma {:induction false} FramesDependOnContents(wrap: Wrap, f: map<Path, Bytes>, g: map<Path, Bytes>,
                                                  order: seq<Path>)
    requires Agree(f, g, order)
    ensures Frames(wrap, f, order) == Frames(wrap, g, order)
  {
    if order != [] {
      FramesDependOnContents(wrap, f, g, order[1..]);
    }
  }

  /** The stream of a set of files, in path order. */
  ghost function Stream(wrap: Wrap, files: map<Path, Bytes>): (bytes: Bytes) {
    PathLessIsStrictOrder();
    Frames(wrap, files, Enumeration(PathLess(), files.Keys))
  }

  /** The stream is canonical and injective: two sets of files give the same bytes exactly when they
      hold the same paths with the same contents. */
  lemma StreamIsInjective(wrap: Wrap, fits: Bytes -> bool, f: map<Path, Bytes>, g: map<Path, Bytes>)
    requires SelfDelimiting(wrap, fits) && Storable(f, fits) && Storable(g, fits)
    ensures Stream(wrap, f) == Stream(wrap, g) <==> f == g
  {
    PathLessIsStrictOrder();
    var p, q := Enumeration(PathLess(), f.Keys), Enumeration(PathLess(), g.Keys);
    if Stream(wrap, f) == Stream(wrap, g) {
      FramesInjective(wrap, fits, f, p, g, q);
      assert f.Keys == Items(p) == Items(q) == g.Keys;
      forall x | x in f ensures f[x] == g[x] {
        assert x in Items(p);
      }
    }
  }

  // ---- check-dashboard-bundle.py ----

  const LENGTH_LIMIT := 0x1_0000_0000_0000_0000

  predicate FitsLength(contents: Bytes) {
    |contents| < LENGTH_LIMIT
  }

  /** The eight-byte length and the contents. */
  function LengthPrefixed(contents: Bytes): (bytes: Bytes) {
    Le(|contents|, 8) + contents
  }

  lemma LengthsAreDelimited()
    ensures SelfDelimiting(LengthPrefixed, FitsLength)
  {
    forall x, y, a: Bytes, b: Bytes | FitsLength(x) && FitsLength(y) && LengthPrefixed(x) + a == LengthPrefixed(y) + b
      ensures x == y && a == b
    {
      LengthDelimits(x, y, a, b);
    }
  }

  lemma LengthDelimits(x: Bytes, y: Bytes, a: Bytes, b: Bytes)
    requires FitsLength(x) && FitsLength(y) && LengthPrefixed(x) + a == LengthPrefixed(y) + b
    ensures x == y && a == b
  {
    var s, t := LengthPrefixed(x) + a, LengthPrefixed(y) + b;
    var n, m := Le(|x|, 8), Le(|y|, 8);
    assert s[..8] == n && t[..8] == m;
    EightBytesSuffice();
    LeRoundTrip(|x|, 8);
    LeRoundTrip(|y|, 8);
    assert s[8..][..|x|] == x && t[8..][..|y|] == y;
    assert s[8..][|x|..] == a && t[8..][|y|..] == b;
  }

  lemma EightBytesSuffice()
    ensures Limit(8) == LENGTH_LIMIT
  {
    assert Limit(4) == 0x1_0000_0000;
    assert Limit(6) == 0x1_0000_0000_0000;
  }

  datatype Located = Local(path: Path) | Elsewhere | Unsafe

  datatype Refusal =
    | NotLocal(entry: string) | UnsafeReference(entry: string) | MissingFile(path: Path) | TooLong(path: Path)

  /** How a manifest entry is read as a path (URL splitting, unquoting, path normalisation). */
  type Locator = string -> Located

  /** The paths the entries name, or the first entry that names none. */
  function NamedPaths(locate: Locator, entries: seq<string>): (r: Result<set<Path>, Refusal>) {
    if entries == [] then Ok({})
    else
      match locate(entries[0])
      case Elsewhere => Refused(NotLocal(entries[0]))
      case Unsafe => Refused(UnsafeReference(entries[0]))
      case Local(path) =>
        var rest := NamedPaths(locate, entries[1..]);
        if rest.Ok? then Ok({path} + rest.value) else rest
  }

  /** `manifest_relative_paths`: the distinct paths in increasing order. */
  method ManifestRelativePaths(locate: Locator, entries: seq<string>) returns (r: Result<seq<Path>, Refusal>)
    ensures var named := NamedPaths(locate, entries);
            if named.Ok? then r.Ok? && Enumerates(PathLess(), r.value, named.value) else r == Refused(named.error)
  {
    var normalized: set<Path> := {};
    assert entries[0..] == entries;
    assert NamedPaths(locate, entries).Ok? ==>
             {} + NamedPaths(locate, entries).value == NamedPaths(locate, entries).value;
    for i := 0 to |entries|
      invariant Combined(normalized, NamedPaths(locate, entries[i..])) == NamedPaths(locate, entries)
    {
      SliceStep(entries, i);
      match locate(entries[i])
      case Elsewhere => return Refused(NotLocal(entries[i]));
      case Unsafe => return Refused(UnsafeReference(entries[i]));
      case Local(path) =>
        ghost var rest := NamedPaths(locate, entries[i + 1..]);
        assert rest.Ok? ==> normalized + ({path} + rest.value) == normalized + {path} + rest.value;
        normalized := normalized + {path};
    }
    PathLessIsStrictOrder();
    var sorted := Sort(PathLess(), normalized);
    assert normalized + {} == normalized;
    r := Ok(sorted);
  }

  ghost function Combined(done: set<Path>, rest: Result<set<Path>, Refusal>): (r: Result<set<Path>, Refusal>) {
    if rest.Ok? then Ok(done + rest.value) else rest
  }

  /** The first listed path that cannot be hashed. */
  function FirstBad(disk: map<Path, Bytes>, order: seq<Path>): (r: Option<Refusal>) {
    if order == [] then None
    else if order[0] !in disk then Some(MissingFile(order[0]))
    else if !FitsLength(disk[order[0]]) then Some(TooLong(order[0]))
    else FirstBad(disk, order[1..])
  }

  /** It is the first: every path before it can be hashed. */
  lemma {:induction false} FirstBadIsFirst(disk: map<Path, Bytes>, order: seq<Path>) returns (i: nat)
    requires FirstBad(disk, order).Some?
    ensures i < |order| && forall j :: 0 <= j < i ==> order[j] in disk && FitsLength(disk[order[j]])
    ensures FirstBad(disk, order).value == if order[i] in disk then TooLong(order[i]) else MissingFile(order[i])
    ensures order[i] in disk ==> !FitsLength(disk[order[i]])
  {
    if order[0] !in disk || !FitsLength(disk[order[0]]) {
      i := 0;
    } else {
      var k := FirstBadIsFirst(disk, order[1..]);
      i := k + 1;
      assert forall j :: 0 < j < i ==> order[j] == order[1..][j - 1];
    }
  }

  lemma {:induction false} FirstBadIff(disk: map<Path, Bytes>, order: seq<Path>)
    ensures FirstBad(disk, order).None? <==> forall p <- order :: p in disk && FitsLength(disk[p])
  {
    if order != [] {
      FirstBadIff(disk, order[1..]);
      Uncons(order);
    }
  }

  lemma {:induction false} FramesSnoc(wrap: Wrap, files: map<Path, Bytes>, order: seq<Path>, p: Path)
    requires p in files && forall x <- order :: x in files
    ensures Frames(wrap, files, order + [p]) == Frames(wrap, files, order) + PathBytes(p) + wrap(files[p])
  {
    if order == [] {
      assert order + [p] == [p] && [p][1..] == [];
      Nil(wrap(files[p]));
    } else {
      FramesSnoc(wrap, files, order[1..], p);
      assert (order + [p])[1..] == order[1..] + [p];
      var a, b, rest := PathBytes(order[0]), wrap(files[order[0]]), Frames(wrap, files, order[1..]);
      Regroup(a, b, rest, PathBytes(p), wrap(files[p]));
    }
  }

  /** One more file adds its path's text, a NUL byte, the length of its contents in eight bytes and the
      contents. */
  lemma BundleFrame(files: map<Path, Bytes>, order: seq<Path>, p: Path)
    requires p in files && forall x <- order :: x in files
    ensures Frames(LengthPrefixed, files, order + [p])
            == Frames(LengthPrefixed, files, order) + Encode(PathText(p)) + [0] + Le(|files[p]|, 8) + files[p]
  {
    FramesSnoc(LengthPrefixed, files, order, p);
    Frame(Frames(LengthPrefixed, files, order), Encode(PathText(p)), [0], Le(|files[p]|, 8), files[p]);
  }

  lemma Frame(a: Bytes, b: Bytes, c: Bytes, d: Bytes, e: Bytes)
    ensures a + (b + c) + (d + e) == a + b + c + d + e
  {
  }

  lemma Regroup(a: Bytes, b: Bytes, c: Bytes, d: Bytes, e: Bytes)
    ensures a + (b + (c + d + e)) == a + (b + c) + d + e
  {
  }

  lemma Extend(a: Bytes, b: Bytes, c: Bytes, d: Bytes)
    ensures a + b + c + d == a + (b + c + d)
  {
  }

  /** The loop of `bundle_digest`: the bytes for the paths in order, or the first that is bad. */
  method FeedFiles(prefix: Bytes, wrap: Wrap, disk: map<Path, Bytes>, order: seq<Path>)
    returns (r: Result<Bytes, Refusal>)
    ensures FirstBad(disk, order).Some? ==> r == Refused(FirstBad(disk, order).value)
    ensures FirstBad(disk, order).None? ==>
              (forall p <- order :: p in disk) && r == Ok(prefix + Frames(wrap, disk, order))
  {
    var bytes := prefix;
    Nil(prefix);
    assert order[..0] == [] && order[0..] == order;
    for i := 0 to |order|
      invariant FirstBad(disk, order[i..]) == FirstBad(disk, order)
      invariant forall p <- order[..i] :: p in disk
      invariant bytes == prefix + Frames(wrap, disk, order[..i])
    {
      SliceStep(order, i);
      if order[i] !in disk {
        return Refused(MissingFile(order[i]));
      }
      if !FitsLength(disk[order[i]]) {
        return Refused(TooLong(order[i]));
      }
      FramesSnoc(wrap, disk, order[..i], order[i]);
      assert order[..i] + [order[i]] == order[..i + 1];
      Extend(prefix, Frames(wrap, disk, order[..i]), PathBytes(order[i]), wrap(disk[order[i]]));
      bytes := bytes + PathBytes(order[i]) + wrap(disk[order[i]]);
    }
    assert order[..|order|] == order;
    r := Ok(bytes);
  }

  function Restricted(disk: map<Path, Bytes>, paths: set<Path>): (files: map<Path, Bytes>) {
    map p | p in disk && p in paths :: disk[p]
  }

  /** What the digest covers: the listed files and their contents, if all of them can be hashed. */
  ghost function Bundle(locate: Locator, entries: seq<string>, disk: map<Path, Bytes>): (b: Option<map<Path, Bytes>>) {
    var named := NamedPaths(locate, entries);
    if named.Ok? && forall p <- named.value :: p in disk && FitsLength(disk[p]) then Some(Restricted(disk, named.value))
    else None
  }

  lemma StreamOfListed(wrap: Wrap, disk: map<Path, Bytes>, keys: set<Path>, order: seq<Path>)
    requires Enumerates(PathLess(), order, keys) && keys <= disk.Keys
    ensures (forall p <- order :: p in disk) && Frames(wrap, disk, order) == Stream(wrap, Restricted(disk, keys))
  {
    var files := Restricted(disk, keys);
    assert files.Keys == keys;
    PathLessIsStrictOrder();
    EnumerationIsUnique(PathLess(), order, Enumeration(PathLess(), keys));
    forall p | p in order ensures p in disk && p in files && disk[p] == files[p] {
      assert p in Items(order);
    }
    FramesDependOnContents(wrap, disk, files, order);
  }

  /** `bundle_digest` up to the hash: the prefix and, in path order, every listed file. It refuses
      exactly when an entry is not a local path or a listed file cannot be hashed. */
  method BundlePreimage(prefix: Bytes, locate: Locator, entries: seq<string>, disk: map<Path, Bytes>)
    returns (r: Result<Bytes, Refusal>)
    ensures var bundle := Bundle(locate, entries, disk);
            if bundle.Some? then r == Ok(prefix + Stream(LengthPrefixed, bundle.value)) else r.Refused?
    ensures NamedPaths(locate, entries).Refused? ==> r == Refused(NamedPaths(locate, entries).error)
  {
    var paths := ManifestRelativePaths(locate, entries);
    if paths.Refused? {
      return Refused(paths.error);
    }
    r := FeedFiles(prefix, LengthPrefixed, disk, paths.value);
    FirstBadIff(disk, paths.value);
    ghost var keys := NamedPaths(locate, entries).value;
    assert forall p :: p in keys <==> p in Items(paths.value);
    if forall p <- keys :: p in disk && FitsLength(disk[p]) {
      StreamOfListed(LengthPrefixed, disk, keys, paths.value);
    }
  }

  const BUNDLE_DIGEST_PREFIX: Bytes := Encode("tracedecay-dashboard-bundle-v1") + [0]

  /** `bundle_digest`. */
  method BundleDigest(hash: Hash, locate: Locator, entries: seq<string>, disk: map<Path, Bytes>)
    returns (r: Result<Bytes, Refusal>)
    ensures var bundle := Bundle(locate, entries, disk);
            if bundle.Some? then
              r == Ok(hash(Encode("tracedecay-dashboard-bundle-v1") + [0] + Stream(LengthPrefixed, bundle.value)))
            else r.Refused?
  {
    var bytes := BundlePreimage(BUNDLE_DIGEST_PREFIX, locate, entries, disk);
    r := if bytes.Ok? then Ok(hash(bytes.value)) else Refused(bytes.error);
  }

  /** Two bundles feed the hash the same bytes exactly when they list the same paths with the same
      contents: the order and repetition of the manifest's entries do not matter. */
  lemma BundleDigestIsInjective(prefix: Bytes, locate: Locator, entries: seq<string>, disk: map<Path, Bytes>,
                                entries': seq<string>, disk': map<Path, Bytes>)
    requires Bundle(locate, entries, disk).Some? && Bundle(locate, entries', disk').Some?
    requires (forall p <- disk :: Clean(p) && NulFree(p)) && (forall p <- disk' :: Clean(p) && NulFree(p))
    ensures var (b, b') := (Bundle(locate, entries, disk).value, Bundle(locate, entries', disk').value);
            prefix + Stream(LengthPrefixed, b) == prefix + Stream(LengthPrefixed, b') <==> b == b'
  {
    var b, b' := Bundle(locate, entries, disk).value, Bundle(locate, entries', disk').value;
    LengthsAreDelimited();
    StreamIsInjective(LengthPrefixed, FitsLength, b, b');
    var s, t := Stream(LengthPrefixed, b), Stream(LengthPrefixed, b');
    assert s == (prefix + s)[|prefix|..] && t == (prefix + t)[|prefix|..];
  }

  /** A refusal names the first entry that is not a local path, and says in which way it is not. */
  lemma {:induction false} FirstEntryRefused(locate: Locator, entries: seq<string>) returns (i: nat)
    requires NamedPaths(locate, entries).Refused?
    ensures i < |entries| && !locate(entries[i]).Local? && forall j :: 0 <= j < i ==> locate(entries[j]).Local?
    ensures NamedPaths(locate, entries).error
            == if locate(entries[i]).Elsewhere? then NotLocal(entries[i]) else UnsafeReference(entries[i])
  {
    if !locate(entries[0]).Local? {
      i := 0;
    } else {
      var k := FirstEntryRefused(locate, entries[1..]);
      i := k + 1;
      assert forall j :: 0 < j < i ==> entries[j] == entries[1..][j - 1];
    }
  }

  lemma {:induction false} NamedPathsAreTheEntries(locate: Locator, entries: seq<string>)
    ensures NamedPaths(locate, entries).Ok? <==> forall e <- entries :: locate(e).Local?
    ensures NamedPaths(locate, entries).Ok? ==>
              forall p :: p in NamedPaths(locate, entries).value <==> exists e <- entries :: locate(e) == Local(p)
  {
    if entries != [] {
      NamedPathsAreTheEntries(locate, entries[1..]);
      Uncons(entries);
    }
  }

  // ---- sha256_tree of efficiency-scorecard.py ----

  type Hash = Bytes -> Bytes

  predicate IsDigest(d: Bytes) {
    |d| == 32
  }

  lemma DigestsAreDelimited()
    ensures SelfDelimiting((d: Bytes) => d, IsDigest)
  {
    forall x: Bytes, y: Bytes, a: Bytes, b: Bytes | IsDigest(x) && IsDigest(y) && x + a == y + b
      ensures x == y && a == b
    {
      assert x == (x + a)[..32] && y == (y + b)[..32];
      assert a == (x + a)[32..] && b == (y + b)[32..];
    }
  }

  /** The files of a tree, each with its digest; a directory has no contents. */
  function TreeDigests(hash: Hash, tree: map<Path, Option<Bytes>>): (files: map<Path, Bytes>) {
    map p | p in tree && tree[p].Some? :: hash(tree[p].value)
  }

  function FilesIn(tree: map<Path, Option<Bytes>>, order: seq<Path>): (files: seq<Path>) {
    if order == [] then []
    else (if order[0] in tree && tree[order[0]].Some? then [order[0]] else []) + FilesIn(tree, order[1..])
  }

  lemma {:induction false} FilesInOrder(tree: map<Path, Option<Bytes>>, order: seq<Path>)
    requires Increasing(PathLess(), order)
    ensures Increasing(PathLess(), FilesIn(tree, order))
    ensures forall p :: p in FilesIn(tree, order) <==> p in order && p in tree && tree[p].Some?
  {
    if order != [] {
      FilesInOrder(tree, order[1..]);
      Uncons(order);
      forall p | p in order[1..] ensures PathLess()(order[0], p) {
      }
    }
  }

  /** `sha256_tree` up to the hash. */
  method TreePreimage(hash: Hash, tree: map<Path, Option<Bytes>>) returns (bytes: Bytes)
    ensures bytes == Stream((d: Bytes) => d, TreeDigests(hash, tree))
  {
    PathLessIsStrictOrder();
    var order := Sort(PathLess(), tree.Keys);
    ghost var files := TreeDigests(hash, tree);
    ghost var listed := FilesIn(tree, order);
    FilesInOrder(tree, order);
    assert Items(listed) == files.Keys by {
      assert forall p :: p in order <==> p in Items(order);
    }
    EnumerationIsUnique(PathLess(), listed, Enumeration(PathLess(), files.Keys));
    bytes := TreeBytes(hash, tree, order, (d: Bytes) => d);
  }

  ghost function TreeFrames(wrap: Wrap, hash: Hash, tree: map<Path, Option<Bytes>>, order: seq<Path>): (bytes: Bytes) {
    FilesHaveDigests(hash, tree, order);
    Frames(wrap, TreeDigests(hash, tree), FilesIn(tree, order))
  }

  lemma TreeFramesStep(wrap: Wrap, hash: Hash, tree: map<Path, Option<Bytes>>, order: seq<Path>)
    requires order != [] && order[0] in tree && forall d :: wrap(d) == d
    ensures var rest := TreeFrames(wrap, hash, tree, order[1..]);
            TreeFrames(wrap, hash, tree, order) ==
            if tree[order[0]].Some? then PathBytes(order[0]) + (hash(tree[order[0]].value) + rest) else rest
  {
    var rest := FilesIn(tree, order[1..]);
    FilesHaveDigests(hash, tree, order[1..]);
    FilesHaveDigests(hash, tree, order);
    if tree[order[0]].Some? {
      assert FilesIn(tree, order) == [order[0]] + rest;
      Cons(order[0], rest);
    } else {
      Nil(rest);
      assert FilesIn(tree, order) == rest;
    }
  }

  method TreeBytes(hash: Hash, tree: map<Path, Option<Bytes>>, order: seq<Path>, ghost wrap: Wrap)
    returns (bytes: Bytes)
    requires (forall p <- order :: p in tree) && (forall d :: wrap(d) == d)
    ensures bytes == TreeFrames(wrap, hash, tree, order)
  {
    bytes := [];
    assert order[0..] == order;
    Nil(TreeFrames(wrap, hash, tree, order));
    for i := 0 to |order|
      invariant bytes + TreeFrames(wrap, hash, tree, order[i..]) == TreeFrames(wrap, hash, tree, order)
    {
      SliceStep(order, i);
      TreeFramesStep(wrap, hash, tree, order[i..]);
      var entry := tree[order[i]];
      if entry.None? {
        continue;
      }
      Extend'(bytes, PathBytes(order[i]), hash(entry.value), TreeFrames(wrap, hash, tree, order[i + 1..]));
      bytes := bytes + PathBytes(order[i]) + hash(entry.value);
    }
    Nil(bytes);
  }

  lemma Extend'(a: Bytes, b: Bytes, c: Bytes, d: Bytes)
    ensures a + (b + (c + d)) == a + b + c + d
  {
  }

  lemma {:induction false} FilesHaveDigests(hash: Hash, tree: map<Path, Option<Bytes>>, order: seq<Path>)
    ensures forall p <- FilesIn(tree, order) :: p in TreeDigests(hash, tree)
  {
    if order != [] {
      FilesHaveDigests(hash, tree, order[1..]);
    }
  }

  /** Two trees feed the hash the same bytes exactly when they hold the same files with the same
      digests. */
  lemma TreeDigestIsInjective(hash: Hash, tree: map<Path, Option<Bytes>>, tree': map<Path, Option<Bytes>>)
    requires forall b :: IsDigest(hash(b))
    requires (forall p <- tree :: Clean(p) && NulFree(p)) && (forall p <- tree' :: Clean(p) && NulFree(p))
    ensures Stream((d: Bytes) => d, TreeDigests(hash, tree)) == Stream((d: Bytes) => d, TreeDigests(hash, tree'))
            <==> TreeDigests(hash, tree) == TreeDigests(hash, tree')
  {
    DigestsAreDelimited();
    StreamIsInjective((d: Bytes) => d, IsDigest, TreeDigests(hash, tree), TreeDigests(hash, tree'));
  }
}
