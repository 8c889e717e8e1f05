/** The immutable assets of a release: their names, and the check that a set of files covers the
    targets exactly or by whole targets. */
module ReleaseAssets {
  import opened Options
  import opened Text

  datatype Profile = Stable | Beta

  datatype Ncm = Supported(worker: string) | NativeOnly | OtherStatus(status: string)

  /** A release target as the manifest admits it. */
  datatype Target = Target(name: string, runner: string, triple: string, archive: string, ncm: Ncm)

  datatype Refusal =
    | NoTargets
    | MissingField(index: nat)
    | UnsupportedArchive(archive: string)
    | DuplicateTarget(name: string)
    | UnsupportedStatus(status: string)
    | CoverageMismatch(missing: set<string>, extra: set<string>)
    | UnexpectedArtifacts(extra: set<string>)
    | HalfBuilt(name: string)
    | NothingToPublish
    | UnexpectedAssets(extra: set<string>)
    | PrematureMetadata(files: set<string>)

  // ---- target_matrix ----

  predicate HasFields(t: Target) {
    && t.name != "" && t.runner != "" && t.triple != ""
    && t.archive != "" && (t.ncm.OtherStatus? ==> t.ncm.status != "")
  }

  predicate KnownArchive(t: Target) {
    t.archive == "tar.gz" || t.archive == "zip"
  }

  ghost predicate DistinctNames(targets: seq<Target>) {
    forall i, j :: 0 <= i < j < |targets| ==> targets[i].name != targets[j].name
  }

  /** The part of `target_matrix` before the worker policy: accepted exactly when there is a target
      and all of them are complete, use a known archive and have distinct names. */
  method TargetMatrix(targets: seq<Target>) returns (r: Result<seq<Target>, Refusal>)
    ensures r.Ok? <==>
            && targets != [] && DistinctNames(targets)
            && (forall t <- targets :: "" !in {t.name, t.runner, t.triple, t.archive} && t.ncm != OtherStatus(""))
            && (forall t <- targets :: t.archive in {"tar.gz", "zip"})
    ensures r.Ok? ==> r.value == targets
    ensures r.Refused? ==>
              match r.error
              case NoTargets => targets == []
              case MissingField(i) => i < |targets| && !HasFields(targets[i])
              case UnsupportedArchive(archive) =>
                archive !in {"tar.gz", "zip"} && exists t <- targets :: t.archive == archive
              case DuplicateTarget(name) =>
                exists i, j :: 0 <= i < j < |targets| && targets[i].name == targets[j].name == name
              case _ => false
  {
    if targets == [] {
      return Refused(NoTargets);
    }
    var names: set<string> := {};
    for i := 0 to |targets|
      invariant forall k :: 0 <= k < i ==> HasFields(targets[k]) && KnownArchive(targets[k])
      invariant DistinctNames(targets[..i])
      invariant forall name :: name in names <==> exists k :: 0 <= k < i && targets[k].name == name
    {
      if !HasFields(targets[i]) {
        return Refused(MissingField(i));
      }
      if !KnownArchive(targets[i]) {
        return Refused(UnsupportedArchive(targets[i].archive));
      }
      if targets[i].name in names {
        return Refused(DuplicateTarget(targets[i].name));
      }
      names := names + {targets[i].name};
    }
    assert targets[..|targets|] == targets;
    return Ok(targets);
  }

  // ---- target_assets ----

  function Prefix(profile: Profile): (s: string) {
    if profile.Beta? then "tracedecay-beta" else "tracedecay"
  }

  function Stem(prefix: string, tag: string, name: string): (s: string) {
    prefix + "-" + tag + "-" + name
  }

  function Binary(t: Target, tag: string, profile: Profile): (s: string) {
    Stem(Prefix(profile), tag, t.name) + "." + t.archive
  }

  function Mcpb(t: Target, tag: string, profile: Profile): (s: string) {
    Stem(Prefix(profile), tag, t.name) + ".mcpb"
  }

  function WorkerPrefix(worker: string, profile: Profile): (s: string) {
    if profile.Beta? then worker + "-beta" else worker
  }

  function Worker(worker: string, t: Target, tag: string, profile: Profile): (s: string) {
    Stem(WorkerPrefix(worker, profile), tag, t.name) + ".tar.gz"
  }

  function Checksum(worker: string, t: Target, tag: string, profile: Profile): (s: string) {
    Worker(worker, t, tag, profile) + ".sha256"
  }

  /** The complete inventory of a target. */
  function TargetAssets(t: Target, tag: string, profile: Profile): (r: Result<seq<string>, Refusal>) {
    match t.ncm
    case Supported(worker) =>
      Ok([Binary(t, tag, profile), Mcpb(t, tag, profile), Worker(worker, t, tag, profile),
          Checksum(worker, t, tag, profile)])
    case NativeOnly => Ok([Binary(t, tag, profile), Mcpb(t, tag, profile)])
    case OtherStatus(status) => Refused(UnsupportedStatus(status))
  }

  /** The inventory spelled out: an archive and a bundle for every target, and a worker archive with
      its checksum for exactly those that support the worker. */
  lemma InventoryIs(t: Target, tag: string, profile: Profile)
    ensures var r := TargetAssets(t, tag, profile);
            var stem := (if profile.Beta? then "tracedecay-beta-" else "tracedecay-") + tag + "-" + t.name;
            match t.ncm
            case Supported(worker) =>
              var archive := worker + (if profile.Beta? then "-beta-" else "-") + tag + "-" + t.name + ".tar.gz";
              r == Ok([stem + "." + t.archive, stem + ".mcpb", archive, archive + ".sha256"])
            case NativeOnly => r == Ok([stem + "." + t.archive, stem + ".mcpb"])
            case OtherStatus(status) => r == Refused(UnsupportedStatus(status))
  {
    assert Prefix(profile) + "-" == if profile.Beta? then "tracedecay-beta-" else "tracedecay-";
    if t.ncm.Supported? {
      assert WorkerPrefix(t.ncm.worker, profile) + "-" == t.ncm.worker + if profile.Beta? then "-beta-" else "-";
    }
  }

  const NCM_WORKER := "tracedecay-ncm-worker"

  /** What an admitted manifest guarantees: known archives, a known status, and one worker name. */
  predicate Admitted(t: Target) {
    KnownArchive(t) && !t.ncm.OtherStatus? && (t.ncm.Supported? ==> t.ncm.worker == NCM_WORKER)
  }

  const WORKER_INFIX := "ncm-worker-"

  /** A stable tag that can make an archive name equal a worker name: one that opens `ncm-worker-`
      followed by itself. No `v…` tag does. */
  predicate AmbiguousTag(tag: string, profile: Profile) {
    profile.Stable? && tag + "-" <= WORKER_INFIX + tag + "-"
  }

  lemma VersionTagIsPlain(tag: string, profile: Profile)
    requires tag != "" && tag[0] == 'v'
    ensures !AmbiguousTag(tag, profile)
  {
    assert (tag + "-")[0] == 'v' && (WORKER_INFIX + tag + "-")[0] == 'n';
  }

  function Assets(t: Target, tag: string, profile: Profile): (names: seq<string>)
    requires Admitted(t)
    ensures TargetAssets(t, tag, profile) == Ok(names)
  {
    TargetAssets(t, tag, profile).value
  }

  lemma CancelSuffix(a: string, b: string, s: string)
    requires a + s == b + s
    ensures a == b
  {
    assert |a| == |b|;
    assert a == (a + s)[..|a|] && b == (b + s)[..|b|];
  }

  lemma CancelPrefix(p: string, a: string, b: string)
    requires p + a == p + b
    ensures a == b
  {
    assert a == (p + a)[|p|..] && b == (p + b)[|p|..];
  }

  lemma SameStem(prefix: string, tag: string, a: string, b: string)
    requires Stem(prefix, tag, a) == Stem(prefix, tag, b)
    ensures a == b
  {
    CancelPrefix(prefix + "-" + tag + "-", a, b);
  }

  /** The last character of each kind of asset. */
  lemma AssetEndings(t: Target, tag: string, profile: Profile, worker: string)
    ensures Last(Mcpb(t, tag, profile)) == 'b'
    ensures Last(Worker(worker, t, tag, profile)) == 'z'
    ensures Last(Checksum(worker, t, tag, profile)) == '6'
    ensures KnownArchive(t) ==> Last(Binary(t, tag, profile)) == if t.archive == "tar.gz" then 'z' else 'p'
  {
    LastOf(Stem(Prefix(profile), tag, t.name), ".mcpb");
    LastOf(Stem(WorkerPrefix(worker, profile), tag, t.name), ".tar.gz");
    LastOf(Worker(worker, t, tag, profile), ".sha256");
    if KnownArchive(t) {
      LastOf(Stem(Prefix(profile), tag, t.name) + ".", t.archive);
    }
  }

  lemma LastOf(a: string, b: string)
    requires b != ""
    ensures Last(a + b) == Last(b)
  {
  }

  lemma SameBinary(t: Target, u: Target, tag: string, profile: Profile)
    requires KnownArchive(t) && KnownArchive(u) && Binary(t, tag, profile) == Binary(u, tag, profile)
    ensures t.name == u.name
  {
    AssetEndings(t, tag, profile, "");
    AssetEndings(u, tag, profile, "");
    CancelSuffix(Stem(Prefix(profile), tag, t.name) + ".", Stem(Prefix(profile), tag, u.name) + ".", t.archive);
    CancelSuffix(Stem(Prefix(profile), tag, t.name), Stem(Prefix(profile), tag, u.name), ".");
    SameStem(Prefix(profile), tag, t.name, u.name);
  }

  lemma SameMcpb(t: Target, u: Target, tag: string, profile: Profile)
    requires Mcpb(t, tag, profile) == Mcpb(u, tag, profile)
    ensures t.name == u.name
  {
    CancelSuffix(Stem(Prefix(profile), tag, t.name), Stem(Prefix(profile), tag, u.name), ".mcpb");
    SameStem(Prefix(profile), tag, t.name, u.name);
  }

  lemma SameWorker(worker: string, t: Target, u: Target, tag: string, profile: Profile)
    requires Worker(worker, t, tag, profile) == Worker(worker, u, tag, profile)
             || Checksum(worker, t, tag, profile) == Checksum(worker, u, tag, profile)
    ensures t.name == u.name
  {
    if Checksum(worker, t, tag, profile) == Checksum(worker, u, tag, profile) {
      CancelSuffix(Worker(worker, t, tag, profile), Worker(worker, u, tag, profile), ".sha256");
    }
    CancelSuffix(Stem(WorkerPrefix(worker, profile), tag, t.name), Stem(WorkerPrefix(worker, profile), tag, u.name),
                 ".tar.gz");
    SameStem(WorkerPrefix(worker, profile), tag, t.name, u.name);
  }

  /** A beta worker has an `n` where a beta archive has a `b`. */
  lemma BetaWorkerIsNoBinary(t: Target, u: Target, tag: string)
    ensures Binary(t, tag, Beta) != Worker(NCM_WORKER, u, tag, Beta)
  {
    var binary, worker := Binary(t, tag, Beta), Worker(NCM_WORKER, u, tag, Beta);
    assert binary[..12] == "tracedecay-beta"[..12];
    assert worker[..12] == "tracedecay-ncm-worker"[..12];
    assert binary[11] == binary[..12][11] && worker[11] == worker[..12][11];
  }

  lemma StableNames(t: Target, u: Target, tag: string)
    requires t.archive == "tar.gz"
    ensures Binary(t, tag, Stable) == "tracedecay-" + (tag + "-" + t.name) + ".tar.gz"
    ensures Worker(NCM_WORKER, u, tag, Stable) == "tracedecay-" + (WORKER_INFIX + tag + "-" + u.name) + ".tar.gz"
  {
    assert NCM_WORKER + "-" == "tracedecay-" + WORKER_INFIX;
    assert "." + "tar.gz" == ".tar.gz";
    assert Stem(NCM_WORKER, tag, u.name) == "tracedecay-" + (WORKER_INFIX + tag + "-" + u.name);
  }

  /** An archive and a worker share a name only under an ambiguous tag. */
  lemma WorkerIsNoBinary(t: Target, u: Target, tag: string, profile: Profile)
    requires KnownArchive(t) && !AmbiguousTag(tag, profile)
    ensures Binary(t, tag, profile) != Worker(NCM_WORKER, u, tag, profile)
  {
    if profile.Beta? {
      BetaWorkerIsNoBinary(t, u, tag);
    } else if Binary(t, tag, profile) == Worker(NCM_WORKER, u, tag, profile) {
      AssetEndings(t, tag, profile, "");
      AssetEndings(u, tag, profile, NCM_WORKER);
      StableNames(t, u, tag);
      var a, b := tag + "-" + t.name, WORKER_INFIX + tag + "-" + u.name;
      CancelSuffix("tracedecay-" + a, "tracedecay-" + b, ".tar.gz");
      CancelPrefix("tracedecay-", a, b);
      SharedNameIsAmbiguous(tag, t.name, u.name);
      assert false;
    }
  }

  lemma SharedNameIsAmbiguous(tag: string, a: string, b: string)
    requires tag + "-" + a == WORKER_INFIX + tag + "-" + b
    ensures tag + "-" <= WORKER_INFIX + tag + "-"
  {
    var short, long := tag + "-", WORKER_INFIX + tag + "-";
    assert short == (short + a)[..|short|] && long[..|short|] == (long + b)[..|short|];
  }

  /** Under an ambiguous tag two differently named targets do collide. */
  lemma AmbiguousTagCollides(tag: string) returns (t: Target, u: Target)
    requires AmbiguousTag(tag, Stable)
    ensures t.name != u.name && Admitted(t) && Admitted(u) && HasFields(t) && HasFields(u)
    ensures u.ncm.Supported? && Assets(t, tag, Stable)[0] == Assets(u, tag, Stable)[2]
  {
    var long := WORKER_INFIX + tag + "-";
    var rest := long[|tag| + 1..];
    t := Target(rest + "x", "r", "t", "tar.gz", NativeOnly);
    u := Target("x", "r", "t", "tar.gz", Supported(NCM_WORKER));
    assert tag + "-" + t.name == long + "x" by {
      assert long == (tag + "-") + rest;
    }
    assert |rest| == |WORKER_INFIX|;
    StableNames(t, u, tag);
  }

  /** The last character tells archives and workers, packages and checksums apart. */
  lemma KindOfAsset(t: Target, tag: string, profile: Profile, i: nat)
    requires Admitted(t) && i < |Assets(t, tag, profile)|
    ensures var name := Assets(t, tag, profile)[i];
            name != "" && (i == 1 <==> Last(name) == 'b') && (i == 3 <==> Last(name) == '6')
  {
    AssetEndings(t, tag, profile, NCM_WORKER);
  }

  lemma SameKind(t: Target, u: Target, tag: string, profile: Profile, i: nat, j: nat)
    requires Admitted(t) && Admitted(u) && !AmbiguousTag(tag, profile)
    requires i < |Assets(t, tag, profile)| && j < |Assets(u, tag, profile)|
    requires Assets(t, tag, profile)[i] == Assets(u, tag, profile)[j]
    ensures i == j
  {
    KindOfAsset(t, tag, profile, i);
    KindOfAsset(u, tag, profile, j);
    WorkerIsNoBinary(t, u, tag, profile);
    WorkerIsNoBinary(u, t, tag, profile);
  }

  /** Asset names are pairwise different, within a target and across targets: a name tells its
      target and its kind. */
  lemma AssetNamesAreDistinct(t: Target, u: Target, tag: string, profile: Profile, i: nat, j: nat)
    requires Admitted(t) && Admitted(u) && !AmbiguousTag(tag, profile)
    requires i < |Assets(t, tag, profile)| && j < |Assets(u, tag, profile)|
    requires Assets(t, tag, profile)[i] == Assets(u, tag, profile)[j]
    ensures i == j && t.name == u.name
  {
    SameKind(t, u, tag, profile, i, j);
    if i == 0 {
      SameBinary(t, u, tag, profile);
    } else if i == 1 {
      SameMcpb(t, u, tag, profile);
    } else {
      SameWorker(NCM_WORKER, t, u, tag, profile);
    }
  }

  // ---- coverage ----

  /** The three directories a release is validated from. */
  datatype Files = Files(binaries: set<string>, mcpbs: set<string>, workers: set<string>) {
    function All(): set<string> {
      binaries + mcpbs + workers
    }
  }

  /** The manifest a check runs under. */
  datatype Manifest = Manifest(targets: seq<Target>, tag: string, profile: Profile) {
    /** What `target_matrix` admits. */
    ghost predicate Admissible() {
      && targets != [] && DistinctNames(targets)
      && forall i :: 0 <= i < |targets| ==> Admitted(targets[i])
    }

    /** Under a tag that gives distinct names. */
    ghost predicate Valid() {
      Admissible() && !AmbiguousTag(tag, profile)
    }

    function Of(t: Target): seq<string>
      requires Admitted(t)
    {
      Assets(t, tag, profile)
    }
  }

  /** Every name at the given positions of some target's inventory. */
  function NamesAt(m: Manifest, targets: seq<Target>, lo: nat, hi: nat): (names: set<string>)
    requires forall i :: 0 <= i < |targets| ==> Admitted(targets[i])
  {
    set i, k | 0 <= i < |targets| && lo <= k < hi && k < |m.Of(targets[i])| :: m.Of(targets[i])[k]
  }

  /** `require_exact`. */
  function RequireExact(actual: set<string>, expected: set<string>): (r: Result<(), Refusal>)
    ensures r.Ok? <==> actual == expected
    ensures r.Refused? ==> r.error == CoverageMismatch(expected - actual, actual - expected)
  {
    var missing, extra := expected - actual, actual - expected;
    if missing != {} || extra != {} then Refused(CoverageMismatch(missing, extra))
    else assert actual == expected; Ok(())
  }

  /** The strict check of `main`: all three directories match the manifest exactly. */
  function RequireAllExact(m: Manifest, f: Files): (r: Result<(), Refusal>)
    requires m.Admissible()
  {
    var a := RequireExact(f.binaries, NamesAt(m, m.targets, 0, 1));
    if a.Refused? then a
    else
      var b := RequireExact(f.mcpbs, NamesAt(m, m.targets, 1, 2));
      if b.Refused? then b else RequireExact(f.workers, NamesAt(m, m.targets, 2, 4))
  }

  predicate InPlace(m: Manifest, f: Files, t: Target, k: nat)
    requires Admitted(t) && k < |m.Of(t)|
  {
    var name := m.Of(t)[k];
    if k == 0 then name in f.binaries else if k == 1 then name in f.mcpbs else name in f.workers
  }

  predicate AnyInPlace(m: Manifest, f: Files, t: Target)
    requires Admitted(t)
  {
    exists k :: 0 <= k < |m.Of(t)| && InPlace(m, f, t, k)
  }

  predicate AllInPlace(m: Manifest, f: Files, t: Target)
    requires Admitted(t)
  {
    forall k :: 0 <= k < |m.Of(t)| ==> InPlace(m, f, t, k)
  }

  function ExtraFiles(m: Manifest, f: Files): (extra: set<string>)
    requires m.Admissible()
  {
    (f.binaries - NamesAt(m, m.targets, 0, 1)) + (f.mcpbs - NamesAt(m, m.targets, 1, 2))
      + (f.workers - NamesAt(m, m.targets, 2, 4))
  }

  /** The names of the targets with nothing in place, in manifest order. */
  function AbsentNames(m: Manifest, f: Files, targets: seq<Target>): (names: seq<string>)
    requires forall i :: 0 <= i < |targets| ==> Admitted(targets[i])
  {
    if targets == [] then []
    else (if AnyInPlace(m, f, targets[0]) then [] else [targets[0].name]) + AbsentNames(m, f, targets[1..])
  }

  ghost predicate NoHalfTargets(m: Manifest, f: Files)
    requires m.Admissible()
  {
    forall i :: 0 <= i < |m.targets| ==> (AnyInPlace(m, f, m.targets[i]) ==> AllInPlace(m, f, m.targets[i]))
  }

  /** The target's files by name: its archive, its bundle and, with worker support, the worker's archive
      and checksum. */
  function Named(t: Target, tag: string, profile: Profile): (files: Files) {
    var stem := (if profile.Beta? then "tracedecay-beta-" else "tracedecay-") + tag + "-" + t.name;
    var worker := "tracedecay-ncm-worker" + (if profile.Beta? then "-beta-" else "-") + tag + "-" + t.name + ".tar.gz";
    Files({stem + "." + t.archive}, {stem + ".mcpb"}, if t.ncm.Supported? then {worker, worker + ".sha256"} else {})
  }

  /** Every file of the target is in its directory. */
  predicate Whole(m: Manifest, f: Files, t: Target) {
    var own := Named(t, m.tag, m.profile);
    own.binaries <= f.binaries && own.mcpbs <= f.mcpbs && own.workers <= f.workers
  }

  /** No file of the target is. */
  predicate Absent(m: Manifest, f: Files, t: Target) {
    var own := Named(t, m.tag, m.profile);
    own.binaries !! f.binaries && own.mcpbs !! f.mcpbs && own.workers !! f.workers
  }

  lemma NamedAreAssets(m: Manifest, t: Target)
    requires Admitted(t)
    ensures var own := Named(t, m.tag, m.profile);
            && own.binaries == {m.Of(t)[0]} && own.mcpbs == {m.Of(t)[1]}
            && own.workers == if t.ncm.Supported? then {m.Of(t)[2], m.Of(t)[3]} else {}
    ensures |m.Of(t)| == if t.ncm.Supported? then 4 else 2
  {
    InventoryIs(t, m.tag, m.profile);
  }

  lemma InPlaceIff(m: Manifest, f: Files, t: Target)
    requires Admitted(t)
    ensures AllInPlace(m, f, t) <==> Whole(m, f, t)
    ensures AnyInPlace(m, f, t) <==> !Absent(m, f, t)
  {
    NamedAreAssets(m, t);
    if AllInPlace(m, f, t) {
      assert InPlace(m, f, t, 0) && InPlace(m, f, t, 1);
      assert t.ncm.Supported? ==> InPlace(m, f, t, 2) && InPlace(m, f, t, 3);
    }
    if !AnyInPlace(m, f, t) {
      assert !InPlace(m, f, t, 0) && !InPlace(m, f, t, 1);
      assert t.ncm.Supported? ==> !InPlace(m, f, t, 2) && !InPlace(m, f, t, 3);
    }
  }

  /** So a worker archive without its checksum makes its target half built. */
  lemma MissingChecksumIsHalfBuilt(m: Manifest, f: Files, i: nat, worker: string)
    requires m.Admissible() && i < |m.targets| && m.targets[i].ncm.Supported?
    requires worker == "tracedecay-ncm-worker" + (if m.profile.Beta? then "-beta-" else "-") + m.tag + "-"
                       + m.targets[i].name + ".tar.gz"
    requires worker in f.workers && worker + ".sha256" !in f.workers
    ensures !NoHalfTargets(m, f)
  {
    InPlaceIff(m, f, m.targets[i]);
    assert worker in Named(m.targets[i], m.tag, m.profile).workers;
    assert worker + ".sha256" in Named(m.targets[i], m.tag, m.profile).workers;
  }

  /** The loop of `require_whole_targets`: the absent targets, unless one is half built. */
  method CoverTargets(m: Manifest, f: Files) returns (r: Result<seq<string>, Refusal>)
    requires m.Admissible()
    ensures r.Ok? <==> NoHalfTargets(m, f)
    ensures r.Ok? ==> r.value == AbsentNames(m, f, m.targets)
    ensures r.Refused? ==> exists i :: 0 <= i < |m.targets| && r.error == HalfBuilt(m.targets[i].name)
                                       && AnyInPlace(m, f, m.targets[i]) && !AllInPlace(m, f, m.targets[i])
  {
    var missing: seq<string> := [];
    for i := 0 to |m.targets|
      invariant forall k :: 0 <= k < i ==> (AnyInPlace(m, f, m.targets[k]) ==> AllInPlace(m, f, m.targets[k]))
      invariant AbsentNames(m, f, m.targets) == missing + AbsentNames(m, f, m.targets[i..])
    {
      var t := m.targets[i];
      SliceStep(m.targets, i);
      ghost var rest := AbsentNames(m, f, m.targets[i + 1..]);
      var any, all := AnyInPlace(m, f, t), AllInPlace(m, f, t);
      if any && !all {
        return Refused(HalfBuilt(t.name));
      }
      if !any {
        Assoc(missing, [t.name], rest);
        missing := missing + [t.name];
      } else {
        Nil(rest);
      }
    }
    assert m.targets[|m.targets|..] == [];
    Nil(missing);
    return Ok(missing);
  }

  /** All targets are listed as absent exactly when none has a file in place. */
  lemma {:induction false} AllAbsentIff(m: Manifest, f: Files, targets: seq<Target>)
    requires forall i :: 0 <= i < |targets| ==> Admitted(targets[i])
    ensures |AbsentNames(m, f, targets)| <= |targets|
    ensures |AbsentNames(m, f, targets)| == |targets| <==> forall t <- targets :: !AnyInPlace(m, f, t)
  {
    if targets != [] {
      AllAbsentIff(m, f, targets[1..]);
      Uncons(targets);
    }
  }

  ghost predicate WholeOrAbsent(m: Manifest, f: Files) {
    forall t <- m.targets :: Whole(m, f, t) || Absent(m, f, t)
  }

  lemma NoHalfIff(m: Manifest, f: Files)
    requires m.Admissible()
    ensures NoHalfTargets(m, f) <==> WholeOrAbsent(m, f)
    ensures (forall t <- m.targets :: !AnyInPlace(m, f, t)) <==> (forall t <- m.targets :: Absent(m, f, t))
  {
    forall t | t in m.targets
      ensures (AllInPlace(m, f, t) <==> Whole(m, f, t)) && (AnyInPlace(m, f, t) <==> !Absent(m, f, t))
    {
      InPlaceIff(m, f, t);
    }
    forall i | 0 <= i < |m.targets| ensures m.targets[i] in m.targets {
    }
  }

  /** What a refusal of the partial check says of the files. */
  ghost predicate Explains(m: Manifest, f: Files, e: Refusal)
    requires m.Admissible()
  {
    match e
    case UnexpectedArtifacts(extra) => extra == ExtraFiles(m, f) != {}
    case HalfBuilt(name) => exists t <- m.targets :: t.name == name && !Whole(m, f, t) && !Absent(m, f, t)
    case NothingToPublish => forall t <- m.targets :: Absent(m, f, t)
    case _ => false
  }

  /** `require_whole_targets`: accepted exactly when nothing is foreign, every target is whole or absent
      and some target is there; then it names the absent ones. A refusal says which of these failed. */
  method RequireWholeTargets(m: Manifest, f: Files) returns (r: Result<seq<string>, Refusal>)
    requires m.Admissible()
    ensures r.Ok? <==> ExtraFiles(m, f) == {} && WholeOrAbsent(m, f) && exists t <- m.targets :: !Absent(m, f, t)
    ensures r.Ok? ==> r.value == AbsentNames(m, f, m.targets)
    ensures r.Refused? ==> Explains(m, f, r.error)
  {
    NoHalfIff(m, f);
    AllAbsentIff(m, f, m.targets);
    var extra := ExtraFiles(m, f);
    if extra != {} {
      return Refused(UnexpectedArtifacts(extra));
    }
    r := CoverTargets(m, f);
    if r.Refused? {
      ghost var i :| 0 <= i < |m.targets| && r.error == HalfBuilt(m.targets[i].name)
                     && AnyInPlace(m, f, m.targets[i]) && !AllInPlace(m, f, m.targets[i]);
      InPlaceIff(m, f, m.targets[i]);
    } else if |r.value| == |m.targets| {
      return Refused(NothingToPublish);
    }
  }
}
