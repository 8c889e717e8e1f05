/** Planning release work around already published, immutable assets, and the runs that publish
    them. */
module ReleaseRecovery {
  import opened Options
  import opened Text
  import opened ReleaseAssets

  const FIXED: set<string> := {"SHA256SUMS", "install.sh"}

  datatype Work = Work(missing: seq<Target>, retained: set<string>)

  /** Some asset of the target is not published yet. */
  predicate Incomplete(m: Manifest, existing: set<string>, t: Target)
    requires Admitted(t)
  {
    exists k :: 0 <= k < |m.Of(t)| && m.Of(t)[k] !in existing
  }

  function MissingTargets(m: Manifest, existing: set<string>, targets: seq<Target>): (missing: seq<Target>)
    requires forall i :: 0 <= i < |targets| ==> Admitted(targets[i])
  {
    if targets == [] then []
    else (if Incomplete(m, existing, targets[0]) then [targets[0]] else []) + MissingTargets(m, existing, targets[1..])
  }

  /** Every asset the manifest can publish. */
  function Expected(m: Manifest): (names: set<string>)
    requires m.Admissible()
  {
    NamesAt(m, m.targets, 0, 4)
  }

  /** `plan`: what is left to build and what is kept, or a refusal. */
  function Plan(m: Manifest, existing: set<string>): (r: Result<Work, Refusal>)
    requires m.Admissible()
  {
    var unexpected := existing - Expected(m) - FIXED;
    if unexpected != {} then Refused(UnexpectedAssets(unexpected))
    else
      var missing := MissingTargets(m, existing, m.targets);
      var finalized := existing * FIXED;
      if finalized != {} && missing != [] then Refused(PrematureMetadata(finalized))
      else Ok(Work(missing, existing * Expected(m)))
  }

  lemma {:induction false} MissingMembers(m: Manifest, existing: set<string>, targets: seq<Target>, t: Target)
    requires forall i :: 0 <= i < |targets| ==> Admitted(targets[i])
    ensures t in MissingTargets(m, existing, targets) <==> t in targets && Incomplete(m, existing, t)
  {
    if targets != [] {
      MissingMembers(m, existing, targets[1..], t);
      Uncons(targets);
    }
  }

  /** A target is to be built exactly when one of its files, by name, is not published. */
  lemma MissingIff(m: Manifest, existing: set<string>, t: Target)
    requires m.Admissible()
    ensures t in MissingTargets(m, existing, m.targets) <==>
            t in m.targets && !Whole(m, Files(existing, existing, existing), t)
  {
    MissingMembers(m, existing, m.targets, t);
    if t in m.targets {
      IncompleteIff(m, existing, t);
    }
  }

  lemma IncompleteIff(m: Manifest, existing: set<string>, t: Target)
    requires Admitted(t)
    ensures Incomplete(m, existing, t) <==> !Whole(m, Files(existing, existing, existing), t)
  {
    var f := Files(existing, existing, existing);
    InPlaceIff(m, f, t);
    assert forall k :: 0 <= k < |m.Of(t)| ==> (InPlace(m, f, t, k) <==> m.Of(t)[k] in existing);
  }

  /** So a target whose checksum is not published is built again. */
  lemma MissingChecksumIsBuilt(m: Manifest, existing: set<string>, t: Target, worker: string)
    requires m.Admissible() && Plan(m, existing).Ok? && t in m.targets && t.ncm.Supported?
    requires worker == "tracedecay-ncm-worker" + (if m.profile.Beta? then "-beta-" else "-") + m.tag + "-" + t.name
                       + ".tar.gz"
    requires worker + ".sha256" !in existing
    ensures t in Plan(m, existing).value.missing
  {
    MissingIff(m, existing, t);
    assert worker + ".sha256" in Named(t, m.tag, m.profile).workers;
  }

  lemma {:induction false} NothingMissingIff(m: Manifest, existing: set<string>, targets: seq<Target>)
    requires forall i :: 0 <= i < |targets| ==> Admitted(targets[i])
    ensures MissingTargets(m, existing, targets) == [] <==> NamesAt(m, targets, 0, 4) <= existing
  {
    var missing := MissingTargets(m, existing, targets);
    if missing != [] {
      MissingMembers(m, existing, targets, missing[0]);
      var i :| 0 <= i < |targets| && targets[i] == missing[0];
      var k :| 0 <= k < |m.Of(targets[i])| && m.Of(targets[i])[k] !in existing;
      assert m.Of(targets[i])[k] in NamesAt(m, targets, 0, 4);
    } else {
      forall name | name in NamesAt(m, targets, 0, 4) ensures name in existing {
        var i, k :| 0 <= i < |targets| && 0 <= k < 4 && k < |m.Of(targets[i])| && m.Of(targets[i])[k] == name;
        MissingMembers(m, existing, targets, targets[i]);
      }
    }
  }

  // ---- the two validators agree ----

  /** An asset name stands in one of the three lists only, at its own position. */
  lemma NamePosition(m: Manifest, t: Target, k: nat, lo: nat, hi: nat)
    requires m.Valid() && t in m.targets && k < |m.Of(t)| && hi <= 4
    ensures m.Of(t)[k] in NamesAt(m, m.targets, lo, hi) <==> lo <= k < hi
  {
    if m.Of(t)[k] in NamesAt(m, m.targets, lo, hi) {
      var i, j :| 0 <= i < |m.targets| && lo <= j < hi && j < |m.Of(m.targets[i])| &&
                  m.Of(m.targets[i])[j] == m.Of(t)[k];
      AssetNamesAreDistinct(t, m.targets[i], m.tag, m.profile, k, j);
    }
  }

  /** In a set of files without foreign names, a name is present exactly when it is in its own
      directory. */
  lemma PresentIffInPlace(m: Manifest, f: Files, t: Target, k: nat)
    requires m.Valid() && ExtraFiles(m, f) == {} && t in m.targets && k < |m.Of(t)|
    ensures m.Of(t)[k] in f.All() <==> InPlace(m, f, t, k)
  {
    NamePosition(m, t, k, 0, 1);
    NamePosition(m, t, k, 1, 2);
    NamePosition(m, t, k, 2, 4);
    NoForeignFiles(m, f);
  }

  lemma NoForeignFiles(m: Manifest, f: Files)
    requires m.Admissible() && ExtraFiles(m, f) == {}
    ensures f.binaries <= NamesAt(m, m.targets, 0, 1) && f.mcpbs <= NamesAt(m, m.targets, 1, 2)
            && f.workers <= NamesAt(m, m.targets, 2, 4)
  {
    forall x | x in f.binaries ensures x in NamesAt(m, m.targets, 0, 1) {
      assert x !in ExtraFiles(m, f);
    }
    forall x | x in f.mcpbs ensures x in NamesAt(m, m.targets, 1, 2) {
      assert x !in ExtraFiles(m, f);
    }
    forall x | x in f.workers ensures x in NamesAt(m, m.targets, 2, 4) {
      assert x !in ExtraFiles(m, f);
    }
  }

  /** Without half targets, a target is incomplete for the planner exactly when it is absent for the
      checker. */
  lemma IncompleteIffAbsent(m: Manifest, f: Files, t: Target)
    requires m.Valid() && ExtraFiles(m, f) == {} && NoHalfTargets(m, f) && t in m.targets
    ensures Incomplete(m, f.All(), t) <==> !AnyInPlace(m, f, t)
  {
    forall k | 0 <= k < |m.Of(t)| ensures m.Of(t)[k] in f.All() <==> InPlace(m, f, t, k) {
      PresentIffInPlace(m, f, t, k);
    }
    var i :| 0 <= i < |m.targets| && m.targets[i] == t;
    if !AnyInPlace(m, f, t) {
      assert 0 < |m.Of(t)| && !InPlace(m, f, t, 0);
    }
  }

  function Names(targets: seq<Target>): (names: seq<string>) {
    if targets == [] then [] else [targets[0].name] + Names(targets[1..])
  }

  lemma {:induction false} MissingAreAbsent(m: Manifest, f: Files, targets: seq<Target>)
    requires m.Valid() && ExtraFiles(m, f) == {} && NoHalfTargets(m, f)
    requires forall i :: 0 <= i < |targets| ==> targets[i] in m.targets
    ensures forall i :: 0 <= i < |targets| ==> Admitted(targets[i])
    ensures Names(MissingTargets(m, f.All(), targets)) == AbsentNames(m, f, targets)
  {
    if targets != [] {
      MissingAreAbsent(m, f, targets[1..]);
      IncompleteIffAbsent(m, f, targets[0]);
      var rest := MissingTargets(m, f.All(), targets[1..]);
      Cons(targets[0], rest);
      Nil(rest);
      Nil(Names(rest));
    }
  }

  lemma FilesAreExpected(m: Manifest, f: Files)
    requires m.Admissible() && ExtraFiles(m, f) == {}
    ensures f.All() <= Expected(m)
  {
    NoForeignFiles(m, f);
    forall x | x in f.All() ensures x in Expected(m) {
      var lo := if x in f.binaries then 0 else if x in f.mcpbs then 1 else 2;
      var hi := if x in f.binaries then 1 else if x in f.mcpbs then 2 else 4;
      assert x in NamesAt(m, m.targets, lo, hi);
      var i, k :| 0 <= i < |m.targets| && lo <= k < hi && k < |m.Of(m.targets[i])| && m.Of(m.targets[i])[k] == x;
      assert m.Of(m.targets[i])[k] in NamesAt(m, m.targets, 0, 4);
    }
  }

  lemma MetadataIsNoAsset(m: Manifest)
    requires m.Admissible()
    ensures Expected(m) !! FIXED
  {
    forall x | x in Expected(m) ensures x !in FIXED {
      var i, k :| 0 <= i < |m.targets| && 0 <= k < 4 && k < |m.Of(m.targets[i])| && m.Of(m.targets[i])[k] == x;
      AssetOpens(m, m.targets[i], k);
      assert x[0] == 't';
    }
  }

  lemma AssetOpens(m: Manifest, t: Target, k: nat)
    requires Admitted(t) && k < |m.Of(t)|
    ensures m.Of(t)[k] != "" && m.Of(t)[k][0] == 't'
  {
    assert Prefix(m.profile)[0] == 't' && WorkerPrefix(NCM_WORKER, m.profile)[0] == 't';
  }

  /** When the partial check accepts, the planner run on the same files keeps all of them and builds
      exactly the targets the check reported missing. */
  lemma ValidatorsAgree(m: Manifest, f: Files)
    requires m.Valid() && ExtraFiles(m, f) == {} && NoHalfTargets(m, f)
    ensures var r := Plan(m, f.All());
            r.Ok? && Names(r.value.missing) == AbsentNames(m, f, m.targets) && r.value.retained == f.All()
  {
    FilesAreExpected(m, f);
    MetadataIsNoAsset(m);
    MissingAreAbsent(m, f, m.targets);
    assert f.All() - Expected(m) - FIXED == {};
    assert f.All() * FIXED == {};
    assert f.All() * Expected(m) == f.All();
  }

  lemma {:induction false} NoneAbsentIff(m: Manifest, f: Files, targets: seq<Target>)
    requires forall i :: 0 <= i < |targets| ==> Admitted(targets[i])
    ensures AbsentNames(m, f, targets) == [] <==> forall i :: 0 <= i < |targets| ==> AnyInPlace(m, f, targets[i])
  {
    if targets != [] {
      NoneAbsentIff(m, f, targets[1..]);
      if forall i :: 0 <= i < |targets[1..]| ==> AnyInPlace(m, f, targets[1..][i]) {
        assert AnyInPlace(m, f, targets[0]) ==> forall i :: 0 <= i < |targets| ==>
                 targets[i] == if i == 0 then targets[0] else targets[1..][i - 1];
      }
      if forall i :: 0 <= i < |targets| ==> AnyInPlace(m, f, targets[i]) {
        assert forall i :: 0 <= i < |targets[1..]| ==> targets[1..][i] == targets[i + 1];
      }
    }
  }

  /** Exact coverage holds exactly when the partial check accepts and reports nothing missing. */
  lemma ExactIffNothingMissing(m: Manifest, f: Files)
    requires m.Valid()
    ensures RequireAllExact(m, f).Ok? <==>
            ExtraFiles(m, f) == {} && NoHalfTargets(m, f) && AbsentNames(m, f, m.targets) == []
  {
    NoneAbsentIff(m, f, m.targets);
    if RequireAllExact(m, f).Ok? {
      assert ExtraFiles(m, f) == {};
      forall i, k | 0 <= i < |m.targets| && 0 <= k < |m.Of(m.targets[i])| ensures InPlace(m, f, m.targets[i], k) {
        NamePosition(m, m.targets[i], k, 0, 1);
        NamePosition(m, m.targets[i], k, 1, 2);
        NamePosition(m, m.targets[i], k, 2, 4);
      }
      forall i | 0 <= i < |m.targets| ensures AnyInPlace(m, f, m.targets[i]) {
        assert InPlace(m, f, m.targets[i], 0);
      }
    } else if ExtraFiles(m, f) == {} && NoHalfTargets(m, f) && AbsentNames(m, f, m.targets) == [] {
      NoForeignFiles(m, f);
      AllNamesPresent(m, f, 0, 1, f.binaries);
      AllNamesPresent(m, f, 1, 2, f.mcpbs);
      AllNamesPresent(m, f, 2, 4, f.workers);
      assert false;
    }
  }

  lemma AllNamesPresent(m: Manifest, f: Files, lo: nat, hi: nat, files: set<string>)
    requires m.Admissible() && (lo, hi, files) in {(0, 1, f.binaries), (1, 2, f.mcpbs), (2, 4, f.workers)}
    requires forall i :: 0 <= i < |m.targets| ==> AllInPlace(m, f, m.targets[i])
    ensures NamesAt(m, m.targets, lo, hi) <= files
  {
    forall x | x in NamesAt(m, m.targets, lo, hi) ensures x in files {
      var i, k :| 0 <= i < |m.targets| && lo <= k < hi && k < |m.Of(m.targets[i])| && m.Of(m.targets[i])[k] == x;
      assert InPlace(m, f, m.targets[i], k);
    }
  }

  // ---- which published states the planner accepts ----

  /** Nothing foreign is published, and metadata only beside every asset. */
  ghost predicate Recoverable(m: Manifest, existing: set<string>)
    requires m.Admissible()
  {
    existing <= Expected(m) + FIXED && (existing * FIXED != {} ==> Expected(m) <= existing)
  }

  lemma NamedIff(m: Manifest, t: Target, name: string)
    requires Admitted(t)
    ensures name in Named(t, m.tag, m.profile).All() <==> name in m.Of(t)
  {
    NamedAreAssets(m, t);
    assert name in m.Of(t) <==> exists k :: 0 <= k < |m.Of(t)| && m.Of(t)[k] == name;
  }

  lemma ExpectedMember(m: Manifest, name: string)
    requires m.Admissible()
    ensures name in Expected(m) <==> exists i :: 0 <= i < |m.targets| && name in m.Of(m.targets[i])
  {
    forall i, k | 0 <= i < |m.targets| && 0 <= k < |m.Of(m.targets[i])|
      ensures m.Of(m.targets[i])[k] in NamesAt(m, m.targets, 0, 4)
    {
    }
  }

  /** A name can be published exactly when it is one of the files of a target. */
  lemma ExpectedIff(m: Manifest, name: string)
    requires m.Admissible()
    ensures name in Expected(m) <==>
            exists i :: 0 <= i < |m.targets| && name in Named(m.targets[i], m.tag, m.profile).All()
  {
    ExpectedMember(m, name);
    forall i | 0 <= i < |m.targets|
      ensures name in Named(m.targets[i], m.tag, m.profile).All() <==> name in m.Of(m.targets[i])
    {
      NamedIff(m, m.targets[i], name);
    }
  }

  lemma PlanAcceptsIff(m: Manifest, existing: set<string>)
    requires m.Admissible()
    ensures Plan(m, existing).Ok? <==> Recoverable(m, existing)
  {
    NothingMissingIff(m, existing, m.targets);
    assert existing - Expected(m) - FIXED == {} <==> existing <= Expected(m) + FIXED;
  }

  /** What an accepted plan keeps is everything published but the metadata. */
  lemma PlanKeepsAssets(m: Manifest, existing: set<string>)
    requires m.Admissible() && Plan(m, existing).Ok?
    ensures Plan(m, existing).value.retained == existing - {"SHA256SUMS", "install.sh"}
  {
    PlanAcceptsIff(m, existing);
    MetadataIsNoAsset(m);
  }

  /** And a refusal names the foreign files or, when there are none, the metadata that is early. */
  lemma PlanRefusesWith(m: Manifest, existing: set<string>)
    requires m.Admissible() && Plan(m, existing).Refused?
    ensures match Plan(m, existing).error
            case UnexpectedAssets(extra) => extra == existing - (Expected(m) + {"SHA256SUMS", "install.sh"}) != {}
            case PrematureMetadata(files) =>
              && files == existing * {"SHA256SUMS", "install.sh"} != {} && !(Expected(m) <= existing)
              && existing <= Expected(m) + {"SHA256SUMS", "install.sh"}
            case _ => false
  {
    NothingMissingIff(m, existing, m.targets);
    assert existing - Expected(m) - FIXED == existing - (Expected(m) + FIXED);
  }

  /** One publication: upload some assets of targets the plan wants built, or, once nothing is
      missing, some metadata. */
  ghost predicate Step(m: Manifest, existing: set<string>, next: set<string>)
    requires m.Admissible()
  {
    && Plan(m, existing).Ok?
    && existing <= next
    && (var missing := Plan(m, existing).value.missing;
        || next - existing <= NamesOf(m, missing)
        || (missing == [] && next - existing <= FIXED))
  }

  function NamesOf(m: Manifest, targets: seq<Target>): (names: set<string>) {
    set t, k | t in targets && Admitted(t) && 0 <= k < |m.Of(t)| :: m.Of(t)[k]
  }

  ghost predicate Run(m: Manifest, states: seq<set<string>>)
    requires m.Admissible()
  {
    states != [] && states[0] == {} && forall i :: 0 <= i < |states| - 1 ==> Step(m, states[i], states[i + 1])
  }

  lemma NamesOfAreExpected(m: Manifest, targets: seq<Target>)
    requires m.Admissible() && forall t <- targets :: t in m.targets
    ensures NamesOf(m, targets) <= Expected(m)
  {
    forall x | x in NamesOf(m, targets) ensures x in Expected(m) {
      var t, k :| t in targets && Admitted(t) && 0 <= k < |m.Of(t)| && m.Of(t)[k] == x;
      var i :| 0 <= i < |m.targets| && m.targets[i] == t;
      assert m.Of(m.targets[i])[k] in NamesAt(m, m.targets, 0, 4);
    }
  }

  lemma MissingAreTargets(m: Manifest, existing: set<string>)
    requires m.Admissible()
    ensures forall t <- MissingTargets(m, existing, m.targets) :: t in m.targets && Incomplete(m, existing, t)
  {
    forall t | t in MissingTargets(m, existing, m.targets) ensures t in m.targets && Incomplete(m, existing, t) {
      MissingMembers(m, existing, m.targets, t);
    }
  }

  /** A step keeps the release recoverable and never drops a retained asset. */
  lemma StepIsSafe(m: Manifest, existing: set<string>, next: set<string>)
    requires m.Admissible() && Step(m, existing, next)
    ensures Recoverable(m, next) && Plan(m, next).Ok?
    ensures Plan(m, existing).value.retained <= Plan(m, next).value.retained
  {
    PlanAcceptsIff(m, existing);
    PlanAcceptsIff(m, next);
    NothingMissingIff(m, existing, m.targets);
    MissingAreTargets(m, existing);
    var missing := Plan(m, existing).value.missing;
    NamesOfAreExpected(m, missing);
    MetadataIsNoAsset(m);
    assert next == existing + (next - existing);
    if next - existing <= NamesOf(m, missing) {
      if next * FIXED != {} {
        var x :| x in next * FIXED;
        assert x in existing * FIXED;
      }
    }
  }

  /** A complete target never returns to the build matrix. */
  lemma CompleteStaysComplete(m: Manifest, existing: set<string>, next: set<string>, t: Target)
    requires Admitted(t) && existing <= next && !Incomplete(m, existing, t)
    ensures !Incomplete(m, next, t)
  {
  }

  lemma {:induction false} MissingOnlyShrinks(m: Manifest, existing: set<string>, next: set<string>,
                                              targets: seq<Target>)
    requires existing <= next && forall i :: 0 <= i < |targets| ==> Admitted(targets[i])
    ensures |MissingTargets(m, next, targets)| <= |MissingTargets(m, existing, targets)|
    ensures (exists t :: t in targets && Incomplete(m, existing, t) && !Incomplete(m, next, t)) ==>
              |MissingTargets(m, next, targets)| < |MissingTargets(m, existing, targets)|
  {
    if targets != [] {
      MissingOnlyShrinks(m, existing, next, targets[1..]);
      Uncons(targets);
      if !Incomplete(m, existing, targets[0]) {
        CompleteStaysComplete(m, existing, next, targets[0]);
      }
    }
  }

  /** Publishing a whole target strictly reduces what is missing. */
  lemma WholeTargetIsProgress(m: Manifest, existing: set<string>, next: set<string>, t: Target)
    requires m.Admissible() && existing <= next && t in m.targets && Incomplete(m, existing, t)
             && NamesOf(m, [t]) <= next
    ensures |MissingTargets(m, next, m.targets)| < |MissingTargets(m, existing, m.targets)|
  {
    forall k | 0 <= k < |m.Of(t)| ensures m.Of(t)[k] in next {
      assert t in [t];
      assert m.Of(t)[k] in NamesOf(m, [t]);
    }
    MissingOnlyShrinks(m, existing, next, m.targets);
  }

  /** Every state of every run is accepted by the planner, and retained assets never shrink. */
  lemma {:induction false} RunsAreSafe(m: Manifest, states: seq<set<string>>, i: nat, j: nat)
    requires m.Admissible() && Run(m, states) && i <= j < |states|
    ensures Plan(m, states[i]).Ok? && Plan(m, states[j]).Ok?
    ensures Plan(m, states[i]).value.retained <= Plan(m, states[j]).value.retained
    ensures |Plan(m, states[j]).value.missing| <= |Plan(m, states[i]).value.missing|
    decreases j
  {
    if j == 0 {
      PlanAcceptsIff(m, {});
    } else {
      RunsAreSafe(m, states, if i == j then j - 1 else i, j - 1);
      assert Step(m, states[j - 1], states[j - 1 + 1]);
      StepIsSafe(m, states[j - 1], states[j]);
      MissingOnlyShrinks(m, states[j - 1], states[j], m.targets);
    }
  }

  /** The accepted states are exactly the reachable ones. */
  lemma AcceptedIsReachable(m: Manifest, existing: set<string>) returns (states: seq<set<string>>)
    requires m.Admissible() && Plan(m, existing).Ok?
    ensures Run(m, states) && states[|states| - 1] == existing
  {
    PlanAcceptsIff(m, existing);
    PlanAcceptsIff(m, {});
    MetadataIsNoAsset(m);
    var assets := existing * Expected(m);
    EverythingIsMissing(m);
    states := [{}, assets];
    assert Step(m, {}, assets);
    if assets != existing {
      assert existing * FIXED != {} by {
        var x :| x in existing && x !in assets;
        assert x in existing * FIXED;
      }
      assert Expected(m) <= assets;
      NothingMissingIff(m, assets, m.targets);
      PlanAcceptsIff(m, assets);
      assert existing - assets <= FIXED;
      assert Step(m, assets, existing);
      states := states + [existing];
    }
  }

  lemma EverythingIsMissing(m: Manifest)
    requires m.Admissible()
    ensures Expected(m) <= NamesOf(m, MissingTargets(m, {}, m.targets))
  {
    forall x | x in Expected(m) ensures x in NamesOf(m, MissingTargets(m, {}, m.targets)) {
      var i, k :| 0 <= i < |m.targets| && 0 <= k < 4 && k < |m.Of(m.targets[i])| && m.Of(m.targets[i])[k] == x;
      MissingMembers(m, {}, m.targets, m.targets[i]);
      assert m.Of(m.targets[i])[k] !in {};
      assert Incomplete(m, {}, m.targets[i]);
    }
  }

  // ---- the publish job ----

  /** Everything the job assembles: what the plan retains and the targets that were built. */
  function Assembled(m: Manifest, existing: set<string>, built: seq<Target>): (names: set<string>)
    requires m.Admissible()
  {
    existing * Expected(m) + NamesOf(m, built)
  }

  ghost predicate WholeTargets(m: Manifest, names: set<string>)
    requires m.Admissible()
  {
    forall i, k :: 0 <= i < |m.targets| && 0 <= k < |m.Of(m.targets[i])| && m.Of(m.targets[i])[k] in names ==>
      !Incomplete(m, names, m.targets[i])
  }

  /** One run of the publish job, possibly cut short: the plan accepted, some of the missing targets
      were built, the assembled files are whole targets, and the uploads went in the job's order,
      artifacts first and then the metadata, whether or not a target is still missing. */
  ghost predicate PublishRun(m: Manifest, existing: set<string>, built: seq<Target>, uploaded: set<string>)
    requires m.Admissible()
  {
    && Plan(m, existing).Ok?
    && (forall t <- built :: t in Plan(m, existing).value.missing)
    && (var assembled := Assembled(m, existing, built);
        && WholeTargets(m, assembled)
        && uploaded <= assembled + FIXED
        && (uploaded * FIXED != {} ==> assembled <= existing + uploaded))
  }

  /** The planner accepts the release after a run if and only if the run stopped before the metadata
      or left no target missing. */
  lemma RecoveryContinuesIff(m: Manifest, existing: set<string>, built: seq<Target>, uploaded: set<string>)
    requires m.Admissible() && PublishRun(m, existing, built, uploaded)
    ensures Plan(m, existing + uploaded).Ok? <==>
            uploaded * FIXED == {} || Expected(m) <= Assembled(m, existing, built)
  {
    var next, assembled := existing + uploaded, Assembled(m, existing, built);
    PlanAcceptsIff(m, existing);
    PlanAcceptsIff(m, next);
    MissingAreTargets(m, existing);
    NamesOfAreExpected(m, built);
    MetadataIsNoAsset(m);
    assert next * FIXED == existing * FIXED + uploaded * FIXED;
    forall x | x in next && x in Expected(m) ensures x in assembled {
    }
  }

  /** So a completed run that leaves a target missing publishes metadata the planner refuses, and no
      further run of the job is possible. */
  lemma PartialPublicationIsFinal(m: Manifest, existing: set<string>, built: seq<Target>, more: seq<Target>,
                                  uploaded: set<string>)
    requires m.Admissible() && PublishRun(m, existing, built, Assembled(m, existing, built) + FIXED)
    requires !(Expected(m) <= Assembled(m, existing, built))
    ensures var next := existing + (Assembled(m, existing, built) + FIXED);
            Plan(m, next).Refused? && !PublishRun(m, next, more, uploaded)
  {
    RecoveryContinuesIff(m, existing, built, Assembled(m, existing, built) + FIXED);
    assert "SHA256SUMS" in (Assembled(m, existing, built) + FIXED) * FIXED;
  }

  /** Publishing one target publishes no name of another, and all of its own. */
  lemma OnlyOwnNames(m: Manifest, t: Target)
    requires m.Valid() && t in m.targets
    ensures WholeTargets(m, Assembled(m, {}, [t]))
    ensures forall i :: 0 <= i < |m.targets| && m.targets[i].name != t.name ==>
              m.Of(m.targets[i])[0] !in Assembled(m, {}, [t])
  {
    var names := Assembled(m, {}, [t]);
    forall i, k | 0 <= i < |m.targets| && 0 <= k < |m.Of(m.targets[i])| && m.Of(m.targets[i])[k] in names
      ensures m.targets[i].name == t.name && !Incomplete(m, names, m.targets[i])
    {
      var u, j :| u in [t] && Admitted(u) && 0 <= j < |m.Of(u)| && m.Of(u)[j] == m.Of(m.targets[i])[k];
      AssetNamesAreDistinct(u, m.targets[i], m.tag, m.profile, j, k);
      var l :| 0 <= l < |m.targets| && m.targets[l] == t;
      assert m.targets[i] == t;
      forall n | 0 <= n < |m.Of(t)| ensures m.Of(t)[n] in names {
        assert t in [t];
        assert m.Of(t)[n] in NamesOf(m, [t]);
      }
    }
  }

  lemma AbsentIsIncomplete(m: Manifest, t: Target, none: set<string>)
    requires Admitted(t) && none == {}
    ensures Incomplete(m, none, t)
  {
    var k := 0;
    assert k < |m.Of(t)| && m.Of(t)[k] !in none;
  }

  lemma FirstPlan(m: Manifest, t: Target)
    requires m.Admissible() && t in m.targets
    ensures Plan(m, {}).Ok? && t in Plan(m, {}).value.missing
  {
    PlanAcceptsIff(m, {});
    AbsentIsIncomplete(m, t, {});
    MissingMembers(m, {}, m.targets, t);
  }

  lemma OneIsNotAll(m: Manifest, t: Target, other: Target)
    requires m.Valid() && t in m.targets && other in m.targets && other.name != t.name
    ensures !(Expected(m) <= Assembled(m, {}, [t]))
  {
    OnlyOwnNames(m, t);
    var i :| 0 <= i < |m.targets| && m.targets[i] == other;
    assert m.Of(m.targets[i])[0] in NamesAt(m, m.targets, 0, 4);
    assert m.Of(m.targets[i])[0] !in Assembled(m, {}, [t]);
  }

  lemma FirstRun(m: Manifest, t: Target, uploaded: set<string>)
    requires m.Valid() && t in m.targets && uploaded == Assembled(m, {}, [t]) + FIXED
    ensures PublishRun(m, {}, [t], uploaded)
  {
    FirstPlan(m, t);
    OnlyOwnNames(m, t);
    assert Assembled(m, {}, [t]) <= {} + uploaded;
  }

  /** It happens to every release with a second target: publish one target first, completely. */
  lemma OneTargetPublishedFirst(m: Manifest, t: Target, other: Target)
    requires m.Valid() && t in m.targets && other in m.targets && other.name != t.name
    ensures PublishRun(m, {}, [t], Assembled(m, {}, [t]) + FIXED)
    ensures Plan(m, {} + (Assembled(m, {}, [t]) + FIXED)).Refused?
  {
    FirstRun(m, t, Assembled(m, {}, [t]) + FIXED);
    OneIsNotAll(m, t, other);
    PartialPublicationIsFinal(m, {}, [t], [], {});
  }
}
