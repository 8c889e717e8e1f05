/** The two host copies of the dev skills: `check` and `sync`. */
module Mirror {
  import opened Options
  import opened Text
  import opened Utf8
  import opened Orders

  type Path = seq<string>

  /** A regular file: its bytes, its three executable bits and its other mode bits. */
  datatype File = File(data: seq<Byte>, exec: nat, other: nat)

  type Files = map<Path, File>

  /** What the copies share of a file: its bytes and executable bits. */
  datatype Shared = Shared(data: seq<Byte>, exec: nat)

  type Privacy = Path -> bool

  predicate EndsWith(s: string, suffix: string) {
    |suffix| <= |s| && s[|s| - |suffix|..] == suffix
  }

  /** `is_host_private`. */
  predicate IsHostPrivate(p: Path) {
    || (|p| >= 2 && p[|p| - 2..] == ["agents", "openai.yaml"])
    || (p != [] && EndsWith(p[|p| - 1], ".test.sh"))
  }

  /** The rule spelled out: `agents/openai.yaml` and any name that ends in `.test.sh`, in any directory,
      and nothing else. */
  lemma HostPrivateIff(p: Path)
    ensures IsHostPrivate(p) <==>
            || (exists dir: Path :: p == dir + ["agents", "openai.yaml"])
            || (exists dir: Path, stem: string :: p == dir + [stem + ".test.sh"])
  {
    if |p| >= 2 && p[|p| - 2..] == ["agents", "openai.yaml"] {
      assert p == p[..|p| - 2] + ["agents", "openai.yaml"];
    }
    if p != [] && EndsWith(p[|p| - 1], ".test.sh") {
      var name := p[|p| - 1];
      assert name == name[..|name| - 8] + ".test.sh";
      assert p == p[..|p| - 1] + [name[..|name| - 8] + ".test.sh"];
    }
    forall dir: Path | p == dir + ["agents", "openai.yaml"] ensures IsHostPrivate(p) {
      assert p[|p| - 2..] == ["agents", "openai.yaml"];
    }
    forall dir: Path, stem: string | p == dir + [stem + ".test.sh"] ensures IsHostPrivate(p) {
      var name := stem + ".test.sh";
      assert p[|p| - 1] == name && name[|name| - 8..] == ".test.sh";
    }
  }

  /** `shared_files`. */
  function SharedFiles(isPrivate: Privacy, files: Files): (shared: map<Path, Shared>) {
    map p | p in files && !isPrivate(p) :: Shared(files[p].data, files[p].exec)
  }

  /** A directory tree: what lies above a file or directory is a directory, and nothing is both. */
  ghost predicate WellFormed(files: Files, dirs: set<Path>) {
    && (forall p <- files :: p !in dirs)
    && (forall p, q: Path :: (p in files || p in dirs) && q < p ==> q in dirs)
  }

  // ---- check ----

  datatype Drift = OnlyRight(path: Path) | OnlyLeft(path: Path) | BytesDiffer(path: Path) | ModeDiffers(path: Path)

  function DriftAt(left: map<Path, Shared>, right: map<Path, Shared>, p: Path): (d: Option<Drift>) {
    if p !in left then (if p in right then Some(OnlyRight(p)) else None)
    else if p !in right then Some(OnlyLeft(p))
    else if left[p].data != right[p].data then Some(BytesDiffer(p))
    else if left[p].exec != right[p].exec then Some(ModeDiffers(p))
    else None
  }

  function Drifts(left: map<Path, Shared>, right: map<Path, Shared>, order: seq<Path>): (errors: seq<Drift>) {
    if order == [] then []
    else
      var d := DriftAt(left, right, order[0]);
      (if d.Some? then [d.value] else []) + Drifts(left, right, order[1..])
  }

  lemma {:induction false} DriftsOf(left: map<Path, Shared>, right: map<Path, Shared>, order: seq<Path>, d: Drift)
    ensures d in Drifts(left, right, order) <==>
            exists k :: 0 <= k < |order| && DriftAt(left, right, order[k]) == Some(d)
  {
    if order != [] {
      DriftsOf(left, right, order[1..], d);
      if d in Drifts(left, right, order[1..]) {
        var k :| 0 <= k < |order[1..]| && DriftAt(left, right, order[1..][k]) == Some(d);
        assert order[k + 1] == order[1..][k];
      }
      forall k | 0 < k < |order| && DriftAt(left, right, order[k]) == Some(d)
        ensures d in Drifts(left, right, order[1..])
      {
        assert order[1..][k - 1] == order[k];
      }
    }
  }

  method CompareShared(left: map<Path, Shared>, right: map<Path, Shared>, order: seq<Path>) returns (errors: seq<Drift>)
    ensures errors == Drifts(left, right, order)
  {
    errors := [];
    assert order[0..] == order;
    for i := 0 to |order|
      invariant errors + Drifts(left, right, order[i..]) == Drifts(left, right, order)
    {
      SliceStep(order, i);
      var drift := DriftAt(left, right, order[i]);
      if drift.Some? {
        Assoc(errors, [drift.value], Drifts(left, right, order[i + 1..]));
        errors := errors + [drift.value];
      } else {
        Nil(Drifts(left, right, order[i + 1..]));
      }
    }
    Nil(errors);
  }

  /** The drift is there to report. */
  predicate Drifted(isPrivate: Privacy, left: Files, right: Files, d: Drift) {
    && !isPrivate(d.path)
    && match d
       case OnlyRight(p) => p !in left && p in right
       case OnlyLeft(p) => p in left && p !in right
       case BytesDiffer(p) => p in left && p in right && left[p].data != right[p].data
       case ModeDiffers(p) =>
         p in left && p in right && left[p].data == right[p].data && left[p].exec != right[p].exec
  }

  lemma DriftedIff(isPrivate: Privacy, leftFiles: Files, rightFiles: Files, d: Drift)
    ensures var left, right := SharedFiles(isPrivate, leftFiles), SharedFiles(isPrivate, rightFiles);
            (exists p :: DriftAt(left, right, p) == Some(d)) <==> Drifted(isPrivate, leftFiles, rightFiles, d)
  {
    var left, right := SharedFiles(isPrivate, leftFiles), SharedFiles(isPrivate, rightFiles);
    assert DriftAt(left, right, d.path) == Some(d) <==> Drifted(isPrivate, leftFiles, rightFiles, d);
    forall p | DriftAt(left, right, p) == Some(d) ensures p == d.path {
    }
  }

  /** Each path is reported once, in path order. */
  predicate InPathOrder(errors: seq<Drift>) {
    forall i, j :: 0 <= i < j < |errors| ==> PathLess()(errors[i].path, errors[j].path)
  }

  lemma PrependInOrder(d: Drift, rest: seq<Drift>)
    requires InPathOrder(rest) && forall e <- rest :: PathLess()(d.path, e.path)
    ensures InPathOrder([d] + rest)
  {
    forall i, j | 0 <= i < j < |[d] + rest| ensures PathLess()(([d] + rest)[i].path, ([d] + rest)[j].path) {
      assert rest[j - 1] in rest;
    }
  }

  lemma DriftIsListed(left: map<Path, Shared>, right: map<Path, Shared>, order: seq<Path>, d: Drift)
    requires Increasing(PathLess(), order) && order != [] && d in Drifts(left, right, order[1..])
    ensures PathLess()(order[0], d.path)
  {
    DriftsOf(left, right, order[1..], d);
    var k :| 0 <= k < |order[1..]| && DriftAt(left, right, order[1..][k]) == Some(d);
    assert order[k + 1] == order[1..][k] == d.path;
  }

  lemma {:induction false} DriftsInOrder(left: map<Path, Shared>, right: map<Path, Shared>, order: seq<Path>)
    requires Increasing(PathLess(), order)
    ensures InPathOrder(Drifts(left, right, order))
  {
    if order != [] {
      DriftsInOrder(left, right, order[1..]);
      var d, rest := DriftAt(left, right, order[0]), Drifts(left, right, order[1..]);
      Nil(rest);
      if d.Some? {
        forall e | e in rest ensures PathLess()(d.value.path, e.path) {
          DriftIsListed(left, right, order, e);
        }
        PrependInOrder(d.value, rest);
      }
    }
  }

  /** `check`: every drift between the shared files, each path once and in path order; none exactly
      when they agree. */
  method Check(isPrivate: Privacy, leftFiles: Files, rightFiles: Files) returns (errors: seq<Drift>)
    ensures forall d :: d in errors <==> Drifted(isPrivate, leftFiles, rightFiles, d)
    ensures InPathOrder(errors)
    ensures errors == [] <==> SharedFiles(isPrivate, leftFiles) == SharedFiles(isPrivate, rightFiles)
  {
    var left, right := SharedFiles(isPrivate, leftFiles), SharedFiles(isPrivate, rightFiles);
    PathLessIsStrictOrder();
    var order := Sort(PathLess(), left.Keys + right.Keys);
    errors := CompareShared(left, right, order);
    DriftsAreAll(left, right, order, errors);
    DriftsInOrder(left, right, order);
    forall d ensures d in errors <==> Drifted(isPrivate, leftFiles, rightFiles, d) {
      DriftedIff(isPrivate, leftFiles, rightFiles, d);
    }
  }

  lemma DriftsAreAll(left: map<Path, Shared>, right: map<Path, Shared>, order: seq<Path>, errors: seq<Drift>)
    requires Items(order) == left.Keys + right.Keys
    requires errors == Drifts(left, right, order)
    ensures forall d :: d in errors <==> exists p :: DriftAt(left, right, p) == Some(d)
    ensures errors == [] <==> left == right
  {
    forall d ensures d in errors <==> exists k :: 0 <= k < |order| && DriftAt(left, right, order[k]) == Some(d) {
      DriftsOf(left, right, order, d);
    }
    forall p | DriftAt(left, right, p).Some? ensures DriftAt(left, right, p).value in errors {
      assert p in Items(order);
      var k :| 0 <= k < |order| && order[k] == p;
    }
    if errors == [] {
      forall p ensures p in left <==> p in right {
        assert DriftAt(left, right, p).None?;
      }
      forall p | p in left ensures left[p] == right[p] {
        assert DriftAt(left, right, p).None?;
      }
    } else {
      assert errors[0] in errors;
    }
  }

  // ---- sync ----

  datatype Action = Write(path: Path) | Chmod(path: Path) | Delete(path: Path)

  /** A shared source file cannot be put where the destination has a directory, or below a file. */
  ghost predicate Blocked(files: Files, dirs: set<Path>, p: Path) {
    p in dirs || exists q :: q in files && q < p
  }

  ghost predicate Conflicts(isPrivate: Privacy, source: Files, files: Files, dirs: set<Path>) {
    exists p :: p in source && !isPrivate(p) && Blocked(files, dirs, p)
  }

  /** The copy of a source file: other mode bits stay, or are those of a new file. */
  function Mirrored(source: Files, files: Files, p: Path, newMode: nat): (f: File)
    requires p in source
  {
    File(source[p].data, source[p].exec, if p in files then files[p].other else newMode)
  }

  /** The destination with the paths in `done` copied. */
  function Partly(source: Files, files: Files, done: set<Path>, newMode: nat): (next: Files)
    requires done <= source.Keys
  {
    map p | p in files.Keys + done :: if p in done then Mirrored(source, files, p, newMode) else files[p]
  }

  function SharedKeys(isPrivate: Privacy, files: Files): (paths: set<Path>) {
    set p | p in files && !isPrivate(p)
  }

  /** The destination after a whole sync: the source's shared files and its own private ones. */
  function Synced(isPrivate: Privacy, source: Files, files: Files, newMode: nat): (next: Files) {
    map p | p in files.Keys + source.Keys && (if isPrivate(p) then p in files else p in source) ::
      if isPrivate(p) then files[p] else Mirrored(source, files, p, newMode)
  }

  /** After a sync the shared files agree. */
  lemma SyncedAgrees(isPrivate: Privacy, source: Files, files: Files, newMode: nat)
    ensures SharedFiles(isPrivate, Synced(isPrivate, source, files, newMode)) == SharedFiles(isPrivate, source)
  {
  }

  /** Private files, and the other mode bits of files that were there, are as before. */
  lemma SyncedKeepsTheRest(isPrivate: Privacy, source: Files, files: Files, newMode: nat, p: Path)
    ensures var next := Synced(isPrivate, source, files, newMode);
            && (isPrivate(p) ==> (p in next <==> p in files))
            && (isPrivate(p) && p in files ==> next[p] == files[p])
            && (p in files && p in next ==> next[p].other == files[p].other)
            && (p !in files && p in next ==> next[p].other == newMode)
  {
  }

  /** Syncing back onto the source would change nothing. */
  lemma SyncBackDoesNothing(isPrivate: Privacy, source: Files, files: Files, newMode: nat, backMode: nat)
    ensures Synced(isPrivate, Synced(isPrivate, source, files, newMode), source, backMode) == source
  {
  }

  /** With the script's own rule, no sync touches a host's `agents/openai.yaml` or `*.test.sh`, in any
      directory. */
  lemma HostFilesStay(source: Files, files: Files, newMode: nat, dir: Path, stem: string, p: Path)
    requires p == dir + ["agents", "openai.yaml"] || p == dir + [stem + ".test.sh"]
    ensures var next := Synced(IsHostPrivate, source, files, newMode);
            (p in next <==> p in files) && (p in files ==> next[p] == files[p])
  {
    HostPrivateIff(p);
    SyncedKeepsTheRest(IsHostPrivate, source, files, newMode, p);
  }

  // ---- actions ----

  function ItemActions(p: Path, source: Shared, current: Option<Shared>): (actions: seq<Action>) {
    if current == Some(source) then []
    else
      (if current.None? || current.value.data != source.data then [Write(p)] else [])
      + (if (if current.None? then 0 else current.value.exec) != source.exec then [Chmod(p)] else [])
  }

  function Lookup(m: map<Path, Shared>, p: Path): (r: Option<Shared>) {
    if p in m then Some(m[p]) else None
  }

  function Copies(source: map<Path, Shared>, current: map<Path, Shared>, order: seq<Path>): (actions: seq<Action>)
    requires forall p <- order :: p in source
  {
    if order == [] then []
    else ItemActions(order[0], source[order[0]], Lookup(current, order[0])) + Copies(source, current, order[1..])
  }

  function Deletes(order: seq<Path>): (actions: seq<Action>) {
    if order == [] then [] else [Delete(order[0])] + Deletes(order[1..])
  }

  /** The actions of a sync: writes and mode changes in path order, then deletions. */
  ghost function SyncActions(source: map<Path, Shared>, current: map<Path, Shared>): (actions: seq<Action>) {
    PathLessIsStrictOrder();
    var order := Enumeration(PathLess(), source.Keys);
    assert forall p <- order :: p in Items(order);
    Copies(source, current, order) + Deletes(Enumeration(PathLess(), current.Keys - source.Keys))
  }

  lemma ItemNeedsNothingIff(p: Path, source: Shared, current: Option<Shared>)
    ensures ItemActions(p, source, current) == [] <==> current == Some(source)
  {
  }

  lemma {:induction false} NoCopiesIff(source: map<Path, Shared>, current: map<Path, Shared>, order: seq<Path>)
    requires forall p <- order :: p in source
    ensures Copies(source, current, order) == [] <==> forall p <- order :: Lookup(current, p) == Some(source[p])
  {
    if order != [] {
      NoCopiesIff(source, current, order[1..]);
      ItemNeedsNothingIff(order[0], source[order[0]], Lookup(current, order[0]));
      Uncons(order);
    }
  }

  lemma NothingLeft<T>(a: set<T>, b: set<T>)
    ensures a - b == {} <==> a <= b
  {
    forall x | x in a && x !in b ensures a - b != {} {
      assert x in a - b;
    }
  }

  lemma SameMap(source: map<Path, Shared>, current: map<Path, Shared>)
    requires current.Keys <= source.Keys
    requires forall p <- source :: Lookup(current, p) == Some(source[p])
    ensures source == current
  {
    forall p | p in source ensures p in current && current[p] == source[p] {
      assert Lookup(current, p) == Some(source[p]);
    }
  }

  lemma {:induction false} NoDeletesIff(order: seq<Path>)
    ensures Deletes(order) == [] <==> order == []
  {
  }

  /** A sync has nothing to do exactly when the shared files agree. */
  lemma NoActionsIff(source: map<Path, Shared>, current: map<Path, Shared>)
    ensures SyncActions(source, current) == [] <==> source == current
  {
    PathLessIsStrictOrder();
    var order := Enumeration(PathLess(), source.Keys);
    var extra := Enumeration(PathLess(), current.Keys - source.Keys);
    assert forall p :: p in order <==> p in Items(order);
    NoCopiesIff(source, current, order);
    NoDeletesIff(extra);
    HasItems(extra);
    NothingLeft(current.Keys, source.Keys);
    assert SyncActions(source, current) == Copies(source, current, order) + Deletes(extra);
    if SyncActions(source, current) == [] {
      SameMap(source, current);
    }
  }

  /** What is reported, and when: a write for bytes that are missing or differ, a mode change for
      executable bits that differ, and a deletion of what the source does not have. */
  predicate Due(source: map<Path, Shared>, current: map<Path, Shared>, a: Action) {
    match a
    case Write(p) => p in source && (p in current ==> current[p].data != source[p].data)
    case Chmod(p) => p in source && source[p].exec != if p in current then current[p].exec else 0
    case Delete(p) => p in current && p !in source
  }

  lemma {:induction false} CopiesIff(source: map<Path, Shared>, current: map<Path, Shared>, order: seq<Path>, a: Action)
    requires forall p <- order :: p in source
    ensures a in Copies(source, current, order) <==> !a.Delete? && a.path in order && Due(source, current, a)
  {
    if order != [] {
      CopiesIff(source, current, order[1..], a);
      Uncons(order);
      ItemActionsIff(source, current, order[0], a);
    }
  }

  lemma ItemActionsIff(source: map<Path, Shared>, current: map<Path, Shared>, p: Path, a: Action)
    requires p in source
    ensures a in ItemActions(p, source[p], Lookup(current, p)) <==> !a.Delete? && a.path == p && Due(source, current, a)
  {
  }

  lemma {:induction false} DeletesIff(order: seq<Path>, a: Action)
    ensures a in Deletes(order) <==> a.Delete? && a.path in order
  {
    if order != [] {
      DeletesIff(order[1..], a);
      Uncons(order);
    }
  }

  lemma ActionsIff(source: map<Path, Shared>, current: map<Path, Shared>, a: Action)
    ensures a in SyncActions(source, current) <==> Due(source, current, a)
  {
    PathLessIsStrictOrder();
    var order := Enumeration(PathLess(), source.Keys);
    var extra := Enumeration(PathLess(), current.Keys - source.Keys);
    assert forall p :: p in order <==> p in Items(order);
    assert forall p :: p in extra <==> p in Items(extra);
    CopiesIff(source, current, order, a);
    DeletesIff(extra, a);
    assert SyncActions(source, current) == Copies(source, current, order) + Deletes(extra);
  }

  /** Writes and mode changes come before deletions, each in path order, a file's write before its mode
      change. */
  predicate Precedes(a: Action, b: Action) {
    if a.Delete? != b.Delete? then b.Delete?
    else PathLess()(a.path, b.path) || (a.path == b.path && a.Write? && b.Chmod?)
  }

  lemma OrderedConcat(a: seq<Action>, b: seq<Action>)
    requires Increasing(Precedes, a) && Increasing(Precedes, b)
    requires forall x, y :: x in a && y in b ==> Precedes(x, y)
    ensures Increasing(Precedes, a + b)
  {
    forall i, j | 0 <= i < j < |a + b| ensures Precedes((a + b)[i], (a + b)[j]) {
      if i < |a| <= j {
        assert a[i] in a && b[j - |a|] in b;
      }
    }
  }

  lemma {:induction false} CopiesInOrder(source: map<Path, Shared>, current: map<Path, Shared>, order: seq<Path>)
    requires Increasing(PathLess(), order) && forall p <- order :: p in source
    ensures Increasing(Precedes, Copies(source, current, order))
  {
    if order != [] {
      CopiesInOrder(source, current, order[1..]);
      var first := ItemActions(order[0], source[order[0]], Lookup(current, order[0]));
      var rest := Copies(source, current, order[1..]);
      forall x, y | x in first && y in rest ensures Precedes(x, y) {
        ItemActionsIff(source, current, order[0], x);
        CopiesIff(source, current, order[1..], y);
        var k :| 0 <= k < |order[1..]| && order[1..][k] == y.path;
        assert order[k + 1] == y.path;
      }
      OrderedConcat(first, rest);
    }
  }

  lemma {:induction false} DeletesInOrder(order: seq<Path>)
    requires Increasing(PathLess(), order)
    ensures |Deletes(order)| == |order| && forall i :: 0 <= i < |order| ==> Deletes(order)[i] == Delete(order[i])
    ensures Increasing(Precedes, Deletes(order))
  {
    if order != [] {
      DeletesInOrder(order[1..]);
    }
  }

  /** The report of a sync is that, in that order. */
  lemma ActionsInOrder(source: map<Path, Shared>, current: map<Path, Shared>)
    ensures Increasing(Precedes, SyncActions(source, current))
  {
    PathLessIsStrictOrder();
    var order := Enumeration(PathLess(), source.Keys);
    var extra := Enumeration(PathLess(), current.Keys - source.Keys);
    assert forall p :: p in order <==> p in Items(order);
    var copies, deletes := Copies(source, current, order), Deletes(extra);
    CopiesInOrder(source, current, order);
    DeletesInOrder(extra);
    forall x, y | x in copies && y in deletes ensures Precedes(x, y) {
      CopiesIff(source, current, order, x);
      DeletesIff(extra, y);
    }
    OrderedConcat(copies, deletes);
    assert SyncActions(source, current) == copies + deletes;
  }

  /** A second sync performs no action and changes nothing. */
  lemma SecondSyncDoesNothing(isPrivate: Privacy, source: Files, files: Files, dirs: set<Path>, newMode: nat)
    requires WellFormed(files, dirs) && SharedFiles(isPrivate, files) == SharedFiles(isPrivate, source)
    ensures !Conflicts(isPrivate, source, files, dirs)
    ensures SyncActions(SharedFiles(isPrivate, source), SharedFiles(isPrivate, files)) == []
    ensures Synced(isPrivate, source, files, newMode) == files
  {
    var shared := SharedFiles(isPrivate, source);
    forall p | p in source && !isPrivate(p) ensures !Blocked(files, dirs, p) {
      assert p in shared;
      assert p in SharedFiles(isPrivate, files);
    }
    NoActionsIff(shared, SharedFiles(isPrivate, files));
    var next := Synced(isPrivate, source, files, newMode);
    forall p ensures p in next <==> p in files {
      assert p in shared <==> p in SharedFiles(isPrivate, files);
    }
    forall p | p in files ensures next[p] == files[p] {
      if !isPrivate(p) {
        assert shared[p] == SharedFiles(isPrivate, files)[p];
      }
    }
  }

  // ---- the copying loop ----

  function Parents(p: Path): (dirs: set<Path>) {
    set i | 0 <= i < |p| :: p[..i]
  }

  lemma ParentsArePrefixes(p: Path, q: Path)
    ensures q in Parents(p) <==> q < p
  {
    if q < p {
      assert q == p[..|q|];
    }
  }

  /** No listed path lies above another: they are the files of one tree. */
  ghost predicate Antichain(order: seq<Path>) {
    forall p, q :: p in order && q in order ==> !(p < q)
  }

  lemma PartlyStep(source: Files, files: Files, done: set<Path>, p: Path, newMode: nat)
    requires done <= source.Keys && p in source
    ensures Partly(source, files, done + {p}, newMode)
            == Partly(source, files, done, newMode)[p := Mirrored(source, files, p, newMode)]
  {
  }

  lemma CopyKeepsBlocked(files: Files, dirs: set<Path>, p: Path, f: File, q: Path)
    requires !(p < q) && !(q < p)
    ensures Blocked(files[p := f], dirs + Parents(p), q) <==> Blocked(files, dirs, q)
  {
    ParentsArePrefixes(p, q);
    forall r | r in files[p := f] && r < q ensures r in files {
    }
    forall r | r in files && r < q ensures r in files[p := f] {
    }
  }

  lemma CopyKeepsWellFormed(files: Files, dirs: set<Path>, p: Path, f: File)
    requires WellFormed(files, dirs) && !Blocked(files, dirs, p)
    ensures WellFormed(files[p := f], dirs + Parents(p))
  {
    var more, next := dirs + Parents(p), files[p := f];
    forall q | q in next ensures q !in more {
      ParentsArePrefixes(p, q);
      assert q == p || q in files;
    }
    forall r, q: Path | (r in next || r in more) && q < r ensures q in more {
      BelowIsDirectory(files, dirs, p, r, q);
    }
  }

  lemma BelowIsDirectory(files: Files, dirs: set<Path>, p: Path, r: Path, q: Path)
    requires WellFormed(files, dirs) && q < r && (r in files || r in dirs || r == p || r in Parents(p))
    ensures q in dirs + Parents(p)
  {
    ParentsArePrefixes(p, r);
    ParentsArePrefixes(p, q);
    if r in Parents(p) {
      PrefixTrans(q, r, p);
    }
  }

  lemma PrefixTrans(a: Path, b: Path, c: Path)
    requires a < b && b < c
    ensures a < c
  {
    assert b == c[..|b|] && a == b[..|a|];
    assert a == c[..|a|];
  }

  lemma PresentIsNotBlocked(files: Files, dirs: set<Path>, p: Path)
    requires WellFormed(files, dirs) && p in files
    ensures !Blocked(files, dirs, p)
  {
  }

  lemma Overwritten(files: Files, p: Path, f: File, g: File)
    ensures files[p := f][p := g] == files[p := g]
  {
  }

  /** A copying job: what is copied, in which order, and the destination it starts from. */
  datatype Job = Job(sourceFiles: Files, files: Files, dirs: set<Path>, order: seq<Path>, newMode: nat) {
    ghost predicate Sound() {
      && WellFormed(files, dirs) && Antichain(order) && Distinct(order)
      && forall p <- order :: p in sourceFiles
    }
  }

  function View(files: Files, p: Path): (r: Option<Shared>) {
    if p in files then Some(Shared(files[p].data, files[p].exec)) else None
  }

  ghost predicate Views(source: map<Path, Shared>, files: Files, order: seq<Path>) {
    forall p <- order :: p in source && p in files && source[p] == Shared(files[p].data, files[p].exec)
  }

  ghost predicate Untouched(order: seq<Path>, was: Files, files: Files) {
    && (forall p :: p !in order ==> (p in files <==> p in was))
    && (forall p :: p !in order && p in files && p in was ==> files[p] == was[p])
  }

  lemma DoneFits(job: Job, i: nat)
    requires job.Sound() && i <= |job.order|
    ensures Items(job.order[..i]) <= job.sourceFiles.Keys
  {
  }

  ghost function FilesAt(job: Job, i: nat): (files: Files)
    requires job.Sound() && i <= |job.order|
  {
    DoneFits(job, i);
    Partly(job.sourceFiles, job.files, Items(job.order[..i]), job.newMode)
  }

  ghost predicate SameBlocks(job: Job, files: Files, dirs: set<Path>) {
    forall p <- job.order :: Blocked(files, dirs, p) <==> p !in files && Blocked(job.files, job.dirs, p)
  }

  /** The state after the first `i` files: those are copied, none of them was blocked, and the rest
      are blocked exactly if they were. */
  ghost predicate Reached(job: Job, i: nat, files: Files, dirs: set<Path>) {
    && job.Sound() && i <= |job.order| && WellFormed(files, dirs)
    && files == FilesAt(job, i) && SameBlocks(job, files, dirs)
    && forall k :: 0 <= k < i ==> !Blocked(job.files, job.dirs, job.order[k])
  }

  lemma ReachedStart(job: Job)
    requires job.Sound()
    ensures Reached(job, 0, job.files, job.dirs)
  {
    assert Items(job.order[..0]) == {};
    assert FilesAt(job, 0) == job.files;
    forall p | p in job.order && p in job.files ensures !Blocked(job.files, job.dirs, p) {
      PresentIsNotBlocked(job.files, job.dirs, p);
    }
  }

  lemma DoneStep(order: seq<Path>, i: nat)
    requires i < |order|
    ensures Items(order[..i + 1]) == Items(order[..i]) + {order[i]}
  {
    assert order[..i + 1] == order[..i] + [order[i]];
  }

  lemma FilesStep(job: Job, i: nat)
    requires job.Sound() && i < |job.order|
    ensures var p := job.order[i];
            FilesAt(job, i + 1) == FilesAt(job, i)[p := Mirrored(job.sourceFiles, job.files, p, job.newMode)]
  {
    DoneStep(job.order, i);
    DoneFits(job, i);
    PartlyStep(job.sourceFiles, job.files, Items(job.order[..i]), job.order[i], job.newMode);
  }

  /** The next file is as it was at the start. */
  lemma ReachedIsOpen(job: Job, i: nat, files: Files, dirs: set<Path>)
    requires Reached(job, i, files, dirs) && i < |job.order|
    ensures var p := job.order[i];
            && (p in files <==> p in job.files) && (p in files ==> files[p] == job.files[p])
            && (Blocked(files, dirs, p) <==> Blocked(job.files, job.dirs, p))
    ensures Untouched(job.order, job.files, files)
  {
    var p := job.order[i];
    DoneFits(job, i);
    assert p !in Items(job.order[..i]);
    if p in job.files {
      PresentIsNotBlocked(job.files, job.dirs, p);
    }
  }

  lemma ReachedSkip(job: Job, i: nat, files: Files, dirs: set<Path>)
    requires Reached(job, i, files, dirs) && i < |job.order|
    requires View(job.files, job.order[i]) == View(job.sourceFiles, job.order[i])
    ensures Reached(job, i + 1, files, dirs)
  {
    var p := job.order[i];
    FilesStep(job, i);
    ReachedIsOpen(job, i, files, dirs);
    PresentIsNotBlocked(job.files, job.dirs, p);
    assert files[p := Mirrored(job.sourceFiles, job.files, p, job.newMode)] == files;
  }

  lemma ReachedStep(job: Job, i: nat, files: Files, dirs: set<Path>)
    requires Reached(job, i, files, dirs) && i < |job.order| && !Blocked(files, dirs, job.order[i])
    ensures var p := job.order[i];
            Reached(job, i + 1, files[p := Mirrored(job.sourceFiles, job.files, p, job.newMode)], dirs + Parents(p))
  {
    var p := job.order[i];
    var f := Mirrored(job.sourceFiles, job.files, p, job.newMode);
    FilesStep(job, i);
    ReachedIsOpen(job, i, files, dirs);
    CopyKeepsWellFormed(files, dirs, p, f);
    forall q | q in job.order
      ensures Blocked(files[p := f], dirs + Parents(p), q) <==> q !in files[p := f] && Blocked(job.files, job.dirs, q)
    {
      if q != p {
        CopyKeepsBlocked(files, dirs, p, f, q);
      } else {
        PresentIsNotBlocked(files[p := f], dirs + Parents(p), p);
      }
    }
  }

  lemma ReachedEnd(job: Job, files: Files, dirs: set<Path>)
    requires Reached(job, |job.order|, files, dirs)
    ensures forall p <- job.order :: !Blocked(job.files, job.dirs, p)
    ensures files == FilesAt(job, |job.order|) && Untouched(job.order, job.files, files)
  {
    DoneFits(job, |job.order|);
    assert job.order[..|job.order|] == job.order;
  }

  class SkillTree {
    var files: Files
    var dirs: set<Path>

    /** `target.parent.mkdir(parents=True, exist_ok=True)`: fails if a file is in the way. */
    method MakeParents(p: Path) returns (ok: bool)
      modifies this`dirs
      ensures ok <==> !exists q :: q in files && q < p
      ensures dirs == if ok then old(dirs) + Parents(p) else old(dirs)
    {
      for i := 0 to |p|
        invariant forall k :: 0 <= k < i ==> p[..k] !in files
        invariant dirs == old(dirs)
      {
        if p[..i] in files {
          assert p[..i] < p;
          return false;
        }
      }
      forall q: Path | q < p ensures q !in files {
        assert q == p[..|q|];
      }
      dirs := dirs + Parents(p);
      ok := true;
    }

    /** `write_bytes` below an existing directory: fails on a directory; a new file has no executable
        bit. */
    method WriteBytes(p: Path, data: seq<Byte>, newMode: nat) returns (ok: bool)
      modifies this`files
      ensures ok <==> p !in dirs
      ensures var was := if p in old(files) then old(files)[p] else File(data, 0, newMode);
              files == if ok then old(files)[p := was.(data := data)] else old(files)
    {
      ok := p !in dirs;
      if ok {
        files := files[p := if p in files then files[p].(data := data) else File(data, 0, newMode)];
      }
    }

    /** `chmod((mode & ~0o111) | bits)`. */
    method SetExecutable(p: Path, bits: nat)
      requires p in files
      modifies this`files
      ensures files == old(files)[p := old(files)[p].(exec := bits)]
    {
      files := files[p := files[p].(exec := bits)];
    }

    /** Bring one shared file over. */
    method CopyFile(p: Path, source: Shared, current: Option<Shared>, newMode: nat) returns (r: Option<seq<Action>>)
      requires WellFormed(files, dirs) && current != Some(source)
      requires current == if p in files then Some(Shared(files[p].data, files[p].exec)) else None
      modifies this
      ensures r.Some? <==> !Blocked(old(files), old(dirs), p)
      ensures r.Some? ==>
                && r.value == ItemActions(p, source, current)
                && files == old(files)[p := File(source.data, source.exec,
                                                 if p in old(files) then old(files)[p].other else newMode)]
                && dirs == old(dirs) + Parents(p)
      ensures r.None? ==> files == old(files)
    {
      var ok := MakeParents(p);
      if !ok {
        return None;
      }
      ParentsArePrefixes(p, p);
      var actions := [];
      if current.None? || current.value.data != source.data {
        ok := WriteBytes(p, source.data, newMode);
        if !ok {
          return None;
        }
        actions := [Write(p)];
      } else {
        PresentIsNotBlocked(old(files), old(dirs), p);
      }
      Overwritten(old(files), p, files[p], files[p].(exec := source.exec));
      SetExecutable(p, source.exec);
      if (if current.None? then 0 else current.value.exec) != source.exec {
        actions := actions + [Chmod(p)];
      }
      r := Some(actions);
    }

    /** The loop over the shared source files. On a refusal nothing but listed files has changed. */
    method CopyShared(source: map<Path, Shared>, ghost job: Job, order: seq<Path>, current: map<Path, Shared>,
                      newMode: nat)
      returns (r: Result<seq<Action>, Path>)
      requires job == Job(job.sourceFiles, files, dirs, order, newMode) && job.Sound()
      requires Views(source, job.sourceFiles, order) && (forall p <- order :: Lookup(current, p) == View(files, p))
      modifies this
      ensures r.Ok? <==> forall p <- order :: !Blocked(old(files), old(dirs), p)
      ensures r.Refused? ==> r.error in order && Blocked(old(files), old(dirs), r.error)
      ensures r.Ok? ==> Reached(job, |order|, files, dirs) && r.value == Copies(source, current, order)
      ensures Untouched(order, old(files), files)
    {
      var actions := [];
      Nil(Copies(source, current, order));
      assert order[0..] == order;
      ReachedStart(job);
      for i := 0 to |order|
        invariant Reached(job, i, files, dirs)
        invariant actions + Copies(source, current, order[i..]) == Copies(source, current, order)
      {
        var p := order[i];
        SliceStep(order, i);
        ReachedIsOpen(job, i, files, dirs);
        var was := Lookup(current, p);
        if was == Some(source[p]) {
          ReachedSkip(job, i, files, dirs);
          Nil(Copies(source, current, order[i + 1..]));
          continue;
        }
        ghost var filesBefore, dirsBefore := files, dirs;
        var copied := CopyFile(p, source[p], was, newMode);
        if copied.None? {
          return Refused(p);
        }
        ReachedStep(job, i, filesBefore, dirsBefore);
        Assoc(actions, copied.value, Copies(source, current, order[i + 1..]));
        actions := actions + copied.value;
      }
      ReachedEnd(job, files, dirs);
      Nil(actions);
      r := Ok(actions);
    }

    /** The loop over the files the source no longer has. */
    method DeleteAll(order: seq<Path>) returns (actions: seq<Action>)
      requires Distinct(order) && forall p <- order :: p in files
      modifies this`files
      ensures files == old(files) - Items(order) && actions == Deletes(order)
    {
      actions := [];
      assert order[0..] == order && Items(order[..0]) == {};
      for i := 0 to |order|
        invariant files == old(files) - Items(order[..i])
        invariant actions + Deletes(order[i..]) == Deletes(order)
      {
        SliceStep(order, i);
        assert Items(order[..i + 1]) == Items(order[..i]) + {order[i]} by {
          assert order[..i + 1] == order[..i] + [order[i]];
        }
        Assoc(actions, [Delete(order[i])], Deletes(order[i + 1..]));
        files := files - {order[i]};
        actions := actions + [Delete(order[i])];
      }
      assert order[..|order|] == order;
      Nil(actions);
    }
  }

  lemma TreeFilesAreAntichain(files: Files, dirs: set<Path>, order: seq<Path>)
    requires WellFormed(files, dirs) && forall p <- order :: p in files
    ensures Antichain(order)
  {
  }

  lemma IncreasingIsDistinct(order: seq<Path>)
    requires Increasing(PathLess(), order)
    ensures Distinct(order)
  {
    PathLessIsStrictOrder();
  }

  lemma PartlyIsSynced(isPrivate: Privacy, source: Files, files: Files, newMode: nat)
    ensures var shared, mine := SharedKeys(isPrivate, source), SharedKeys(isPrivate, files);
            Partly(source, files, shared, newMode) - (mine - shared) == Synced(isPrivate, source, files, newMode)
  {
  }

  lemma FewerFilesStayWellFormed(files: Files, dirs: set<Path>, gone: set<Path>)
    requires WellFormed(files, dirs)
    ensures WellFormed(files - gone, dirs)
  {
  }

  lemma SharedAre(isPrivate: Privacy, files: Files, order: seq<Path>)
    requires Items(order) == SharedFiles(isPrivate, files).Keys
    ensures SharedFiles(isPrivate, files).Keys == SharedKeys(isPrivate, files)
    ensures forall p :: p in order <==> p in files && !isPrivate(p)
    ensures Views(SharedFiles(isPrivate, files), files, order)
  {
    assert forall p :: p in order <==> p in Items(order);
  }

  /** `sync` onto one destination. It succeeds exactly when nothing at the destination is in the way of
      a shared source file; then the destination is the synced tree. Otherwise no file outside the
      source's shared paths has changed. */
  method Sync(isPrivate: Privacy, source: SkillTree, destination: SkillTree, newMode: nat)
    returns (r: Result<seq<Action>, Path>)
    requires source != destination
    requires WellFormed(source.files, source.dirs) && WellFormed(destination.files, destination.dirs)
    modifies destination
    ensures r.Refused? <==> Conflicts(isPrivate, source.files, old(destination.files), old(destination.dirs))
    ensures r.Ok? ==>
              && destination.files == Synced(isPrivate, source.files, old(destination.files), newMode)
              && WellFormed(destination.files, destination.dirs)
              && r.value == SyncActions(SharedFiles(isPrivate, source.files),
                                        SharedFiles(isPrivate, old(destination.files)))
    ensures r.Refused? ==>
              forall p :: p !in source.files || isPrivate(p) ==>
                (p in destination.files <==> p in old(destination.files)) &&
                (p in destination.files ==> destination.files[p] == old(destination.files)[p])
  {
    var shared := SharedFiles(isPrivate, source.files);
    var current := SharedFiles(isPrivate, destination.files);
    var order := SortedPaths(shared.Keys);
    SharedAre(isPrivate, source.files, order);
    TreeFilesAreAntichain(source.files, source.dirs, order);
    ghost var job := Job(source.files, destination.files, destination.dirs, order, newMode);
    r := destination.CopyShared(shared, job, order, current, newMode);
    if r.Refused? {
      return;
    }
    ReachedAll(job, isPrivate, destination.files, destination.dirs);
    var extra := SortedPaths(current.Keys - shared.Keys);
    FewerFilesStayWellFormed(destination.files, destination.dirs, Items(extra));
    PartlyIsSynced(isPrivate, source.files, old(destination.files), newMode);
    assert forall p :: p in extra <==> p in Items(extra);
    var deleted := destination.DeleteAll(extra);
    r := Ok(r.value + deleted);
  }

  method SortedPaths(paths: set<Path>) returns (order: seq<Path>)
    ensures StrictOrder(PathLess()) && order == Enumeration(PathLess(), paths)
    ensures Items(order) == paths && Distinct(order)
  {
    PathLessIsStrictOrder();
    order := Sort(PathLess(), paths);
    EnumerationIsUnique(PathLess(), order, Enumeration(PathLess(), paths));
    IncreasingIsDistinct(order);
  }

  lemma ReachedAll(job: Job, isPrivate: Privacy, files: Files, dirs: set<Path>)
    requires Reached(job, |job.order|, files, dirs)
    requires forall p :: p in job.order <==> p in job.sourceFiles && !isPrivate(p)
    ensures files == Partly(job.sourceFiles, job.files, SharedKeys(isPrivate, job.sourceFiles), job.newMode)
    ensures WellFormed(files, dirs)
  {
    ReachedEnd(job, files, dirs);
    DoneFits(job, |job.order|);
    assert job.order[..|job.order|] == job.order;
    assert Items(job.order) == SharedKeys(isPrivate, job.sourceFiles);
  }

  lemma PrefixOfTwo(name: string, inner: string, p: Path, q: Path)
    requires p in {[], [name], [name, inner]} && q < p
    ensures q == [] || q == [name]
  {
    if |q| == 1 {
      assert q[0] == name;
    }
  }

  lemma DeepTree(name: string, inner: string, files: Files, dirs: set<Path>)
    requires files.Keys == {[name, inner]} && dirs == {[], [name]}
    ensures WellFormed(files, dirs)
  {
    forall p, q: Path | (p in files || p in dirs) && q < p ensures q in dirs {
      PrefixOfTwo(name, inner, p, q);
    }
  }

  /** Not every pair of trees can be synced: a source file where the destination has a directory, and
      a source file below what is still a file at the destination, stop it. */
  lemma SomeTreesCannotBeSynced(isPrivate: Privacy, name: string, inner: string, f: File)
    requires !isPrivate([name]) && !isPrivate([name, inner])
    ensures var root: set<Path> := {[]};
            && WellFormed(map[[name] := f], root) && WellFormed(map[[name, inner] := f], root + {[name]})
            && Conflicts(isPrivate, map[[name] := f], map[[name, inner] := f], root + {[name]})
            && Conflicts(isPrivate, map[[name, inner] := f], map[[name] := f], root)
  {
    var flat: Files, deep: Files := map[[name] := f], map[[name, inner] := f];
    assert [name] < [name, inner];
    assert [name] in flat && [name, inner] in deep;
    var root: set<Path> := {[]};
    DeepTree(name, inner, deep, root + {[name]});
    assert Blocked(deep, root + {[name]}, [name]);
    assert Blocked(flat, root, [name, inner]);
  }

  /** The `sync` command checks after it has synced; what it checks then always agrees, and a second
      run of the command would do nothing. */
  method SyncAndCheck(isPrivate: Privacy, source: SkillTree, destination: SkillTree, newMode: nat)
    returns (r: Result<seq<Action>, Path>, errors: seq<Drift>)
    requires source != destination
    requires WellFormed(source.files, source.dirs) && WellFormed(destination.files, destination.dirs)
    modifies destination
    ensures r.Refused? <==> Conflicts(isPrivate, source.files, old(destination.files), old(destination.dirs))
    ensures r.Ok? ==>
              && errors == []
              && !Conflicts(isPrivate, source.files, destination.files, destination.dirs)
              && SyncActions(SharedFiles(isPrivate, source.files), SharedFiles(isPrivate, destination.files)) == []
              && Synced(isPrivate, source.files, destination.files, newMode) == destination.files
  {
    errors := [];
    r := Sync(isPrivate, source, destination, newMode);
    if r.Ok? {
      errors := Check(isPrivate, source.files, destination.files);
      SyncedAgrees(isPrivate, source.files, old(destination.files), newMode);
      SecondSyncDoesNothing(isPrivate, source.files, destination.files, destination.dirs, newMode);
    }
  }
}
