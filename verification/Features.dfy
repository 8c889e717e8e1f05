/** Cargo feature closures and the release profile check. */
module Features {
  import opened Options
  import opened Text
  import opened Orders

  /** A feature's value: a list of member strings, or something else, of which only the names that
      iterating it yields matter. */
  datatype Entry = Listed(members: seq<string>) | Unlisted(members: seq<string>)

  type Table = map<string, Entry>

  /** `feature` enables the local feature `member`. */
  predicate Edge(table: Table, feature: string, member: string) {
    feature in table && member in table[feature].members && member in table
  }

  predicate IsPath(table: Table, selected: set<string>, p: seq<string>) {
    p != [] && p[0] in selected && forall i :: 0 <= i < |p| - 1 ==> Edge(table, p[i], p[i + 1])
  }

  /** Some chain of local features leads from the selection to `feature`. */
  ghost predicate Reachable(table: Table, selected: set<string>, feature: string) {
    exists p :: IsPath(table, selected, p) && p[|p| - 1] == feature
  }

  ghost predicate Closed(table: Table, selected: set<string>, s: set<string>) {
    selected <= s && forall f, m :: f in s && Edge(table, f, m) ==> m in s
  }

  lemma SelectedIsReachable(table: Table, selected: set<string>, feature: string)
    requires feature in selected
    ensures Reachable(table, selected, feature)
  {
    assert IsPath(table, selected, [feature]);
  }

  lemma ReachableStep(table: Table, selected: set<string>, feature: string, member: string)
    requires Reachable(table, selected, feature) && Edge(table, feature, member)
    ensures Reachable(table, selected, member)
  {
    var p :| IsPath(table, selected, p) && p[|p| - 1] == feature;
    assert IsPath(table, selected, p + [member]);
  }

  lemma {:induction false} PathStaysInside(table: Table, selected: set<string>, s: set<string>, p: seq<string>)
    requires Closed(table, selected, s) && IsPath(table, selected, p)
    ensures p[|p| - 1] in s
  {
    if |p| > 1 {
      var front := p[..|p| - 1];
      assert IsPath(table, selected, front);
      PathStaysInside(table, selected, s, front);
      assert Edge(table, p[|p| - 2], p[|p| - 1]);
    }
  }

  /** What is reachable is the least closed set. */
  lemma ReachableIsLeast(table: Table, selected: set<string>, s: set<string>, feature: string)
    requires Closed(table, selected, s) && Reachable(table, selected, feature)
    ensures feature in s
  {
    var p :| IsPath(table, selected, p) && p[|p| - 1] == feature;
    PathStaysInside(table, selected, s, p);
  }

  /** Reachability composes. */
  lemma ReachableTrans(table: Table, selected: set<string>, middle: string, feature: string, p: seq<string>)
    requires Reachable(table, selected, middle) && IsPath(table, {middle}, p) && p[|p| - 1] == feature
    ensures Reachable(table, selected, feature)
  {
    var q :| IsPath(table, selected, q) && q[|q| - 1] == middle;
    var r := q + p[1..];
    forall i | 0 <= i < |r| - 1 ensures Edge(table, r[i], r[i + 1]) {
      if i >= |q| - 1 {
        assert r[i] == p[i - |q| + 1] && r[i + 1] == p[i - |q| + 2];
      }
    }
    assert IsPath(table, selected, r);
  }

  // ---- expand_local_features ----

  function LocalMembers(table: Table, members: seq<string>): (locals: seq<string>) {
    if members == [] then []
    else (if members[0] in table then [members[0]] else []) + LocalMembers(table, members[1..])
  }

  lemma {:induction false} LocalMembersAre(table: Table, members: seq<string>)
    ensures forall m :: m in LocalMembers(table, members) <==> m in members && m in table
  {
    if members != [] {
      LocalMembersAre(table, members[1..]);
      Uncons(members);
    }
  }

  method PushLocalMembers(table: Table, members: seq<string>, pending: seq<string>) returns (next: seq<string>)
    ensures next == pending + LocalMembers(table, members)
  {
    next := pending;
    assert members[0..] == members;
    for i := 0 to |members|
      invariant next + LocalMembers(table, members[i..]) == pending + LocalMembers(table, members)
    {
      SliceStep(members, i);
      var rest := LocalMembers(table, members[i + 1..]);
      if members[i] in table {
        Assoc(next, [members[i]], rest);
        next := next + [members[i]];
      } else {
        Nil(rest);
      }
    }
    Nil(next);
  }

  function LocalsOf(table: Table, feature: string): (locals: seq<string>) {
    if feature in table then LocalMembers(table, table[feature].members) else []
  }

  lemma LocalsAreEdges(table: Table, feature: string, m: string)
    ensures m in LocalsOf(table, feature) <==> Edge(table, feature, m)
  {
    if feature in table {
      LocalMembersAre(table, table[feature].members);
    }
  }

  /** The worklist's invariant: what is resolved or pending is reachable and known, the selection is
      among it, and so is every local member of a resolved feature. */
  ghost predicate Progress(table: Table, selected: set<string>, resolved: set<string>, pending: seq<string>) {
    && (forall f :: f in resolved || f in pending ==> Reachable(table, selected, f) && (f in selected || f in table))
    && (forall f <- selected :: f in resolved || f in pending)
    && (forall f, m :: f in resolved && Edge(table, f, m) ==> m in resolved || m in pending)
  }

  lemma Start(table: Table, selected: seq<string>)
    ensures Progress(table, Items(selected), {}, selected)
  {
    forall f | f in selected ensures Reachable(table, Items(selected), f) {
      SelectedIsReachable(table, Items(selected), f);
    }
  }

  lemma Skip(table: Table, selected: set<string>, resolved: set<string>, pending: seq<string>, feature: string)
    requires Progress(table, selected, resolved, pending + [feature]) && feature in resolved
    ensures Progress(table, selected, resolved, pending)
  {
    assert forall f :: f in pending + [feature] <==> f in pending || f == feature;
  }

  lemma Visit(table: Table, selected: set<string>, resolved: set<string>, pending: seq<string>, feature: string)
    requires Progress(table, selected, resolved, pending + [feature])
    ensures Progress(table, selected, resolved + {feature}, pending + LocalsOf(table, feature))
  {
    var next := pending + LocalsOf(table, feature);
    assert forall f :: f in pending + [feature] <==> f in pending || f == feature;
    forall m | m in LocalsOf(table, feature) ensures Reachable(table, selected, m) && m in table {
      LocalsAreEdges(table, feature, m);
      ReachableStep(table, selected, feature, m);
    }
    forall f, m | f in resolved + {feature} && Edge(table, f, m) ensures m in resolved + {feature} || m in next {
      LocalsAreEdges(table, f, m);
    }
  }

  lemma Finish(table: Table, selected: set<string>, resolved: set<string>)
    requires Progress(table, selected, resolved, [])
    ensures Closed(table, selected, resolved)
    ensures forall f :: f in resolved <==> Reachable(table, selected, f)
  {
    forall f | Reachable(table, selected, f) ensures f in resolved {
      ReachableIsLeast(table, selected, resolved, f);
    }
  }

  /** The worklist ends, also on cyclic tables, with exactly the features the selection reaches. */
  method ExpandLocalFeatures(table: Table, selected: seq<string>) returns (resolved: set<string>)
    ensures forall f :: f in resolved <==> Reachable(table, Items(selected), f)
    ensures Closed(table, Items(selected), resolved)
  {
    resolved := {};
    var pending := selected;
    ghost var universe := Items(selected) + table.Keys;
    Start(table, selected);
    while pending != []
      invariant Progress(table, Items(selected), resolved, pending)
      decreases |universe - resolved|, |pending|
    {
      var feature := pending[|pending| - 1];
      var rest := pending[..|pending| - 1];
      Unsnoc(pending);
      if feature in resolved {
        Skip(table, Items(selected), resolved, rest, feature);
        pending := rest;
        continue;
      }
      Visit(table, Items(selected), resolved, rest, feature);
      Shrinks(universe, resolved, feature);
      resolved := resolved + {feature};
      if feature in table {
        pending := PushLocalMembers(table, table[feature].members, rest);
      } else {
        Nil(rest);
        pending := rest;
      }
    }
    Finish(table, Items(selected), resolved);
  }

  lemma Shrinks(universe: set<string>, resolved: set<string>, feature: string)
    requires feature in universe && feature !in resolved
    ensures |universe - (resolved + {feature})| < |universe - resolved|
  {
    assert universe - resolved == (universe - (resolved + {feature})) + {feature};
  }

  // ---- _require_ncm_release_profile ----

  /** The feature names the release profile speaks of. */
  datatype Names = Names(production: string, host: string, test: string, defaults: string,
                         forwarded: set<string>, required: set<string>)

  const PROVIDER_HOST := "tracedecay/memory-provider-host"
  const REAL_ENCODER := "tracedecay-memory-ncm-runtime/real-encoder"

  const NAMES := Names("production", "memory-provider-host", "test-transport", "default",
                       {"tracedecay/test-transport", "tracedecay?/test-transport"},
                       {PROVIDER_HOST, REAL_ENCODER})

  predicate IsListed(table: Table, feature: string) {
    feature in table && table[feature].Listed?
  }

  /** `feature` is reached from the selection and has `member` in its list. */
  ghost predicate Enables(table: Table, selected: set<string>, member: string) {
    exists f :: Reachable(table, selected, f) && f in table && member in table[f].members
  }

  ghost predicate AllListed(table: Table, selected: set<string>) {
    forall f :: Reachable(table, selected, f) ==> IsListed(table, f)
  }

  /** The library side: nothing `production` reaches is the provider host or the test transport. */
  ghost predicate LibraryIsNative(names: Names, root: Table) {
    && IsListed(root, names.production)
    && !Reachable(root, {names.production}, names.host) && !Reachable(root, {names.production}, names.test)
  }

  /** The command-line side: the default reaches `production` and the provider host, only through
      declared features, never reaches or forwards the test transport, and the host enables what it
      needs. */
  ghost predicate CliHostsProvider(names: Names, cli: Table) {
    && IsListed(cli, names.defaults)
    && DefaultHolds(names, cli, Items(cli[names.defaults].members))
    && (forall m <- names.required :: Enables(cli, {names.host}, m))
  }

  method MembersOf(table: Table, features: set<string>) returns (r: Option<set<string>>)
    ensures r.Some? <==> forall f <- features :: IsListed(table, f)
    ensures r.Some? ==> forall m :: m in r.value <==> exists f <- features :: f in table && m in table[f].members
  {
    var members: set<string> := {};
    var rest := features;
    while rest != {}
      invariant rest <= features && forall f <- features - rest :: IsListed(table, f)
      invariant forall m :: m in members <==> exists f <- features - rest :: f in table && m in table[f].members
      decreases |rest|
    {
      var f :| f in rest;
      if f !in table || table[f].Unlisted? {
        return None;
      }
      MembersGrow(table, features - rest, f, members);
      assert features - (rest - {f}) == features - rest + {f};
      members := members + Items(table[f].members);
      rest := rest - {f};
    }
    assert features - rest == features;
    r := Some(members);
  }

  lemma MembersGrow(table: Table, done: set<string>, f: string, members: set<string>)
    requires f in table
    requires forall m :: m in members <==> exists g <- done :: g in table && m in table[g].members
    ensures forall m :: m in members + Items(table[f].members) <==>
            exists g <- done + {f} :: g in table && m in table[g].members
  {
    forall m
      ensures m in members + Items(table[f].members) <==> exists g <- done + {f} :: g in table && m in table[g].members
    {
      if m in table[f].members {
        assert f in done + {f};
      }
      if m in members {
        var g :| g in done && g in table && m in table[g].members;
        assert g in done + {f};
      }
    }
  }

  datatype Failure =
    | NoFeatureTable | NotAList(feature: string) | LibraryEnables(features: set<string>)
    | DefaultLacks(features: set<string>) | UnlistedMember | DefaultEnablesTest | HostLacks(members: set<string>)

  /** What each refusal says of the manifests. */
  ghost predicate LibraryFault(names: Names, root: Table, e: Failure) {
    match e
    case NotAList(feature) => feature == names.production && !IsListed(root, feature)
    case LibraryEnables(features) =>
      features != {} && forall f :: f in features <==> f in {names.host, names.test}
                                                       && Reachable(root, {names.production}, f)
    case _ => false
  }

  ghost predicate DefaultFault(names: Names, cli: Table, selected: set<string>, e: Failure) {
    match e
    case DefaultLacks(features) =>
      features != {} && forall f :: f in features <==> f in {names.production, names.host}
                                                       && !Reachable(cli, selected, f)
    case UnlistedMember => !AllListed(cli, selected)
    case DefaultEnablesTest =>
      Reachable(cli, selected, names.test) || exists m <- names.forwarded :: Enables(cli, selected, m)
    case _ => false
  }

  ghost predicate HostFault(names: Names, cli: Table, e: Failure) {
    match e
    case UnlistedMember => !AllListed(cli, {names.host})
    case HostLacks(members) =>
      members != {} && forall m :: m in members <==> m in names.required && !Enables(cli, {names.host}, m)
    case _ => false
  }

  ghost predicate ProfileFault(names: Names, root: Option<Table>, cli: Option<Table>, e: Failure) {
    || (e.NoFeatureTable? && (root.None? || cli.None?))
    || (root.Some? && LibraryFault(names, root.value, e))
    || (cli.Some? && (|| (e == NotAList(names.defaults) && !IsListed(cli.value, names.defaults))
                      || HostFault(names, cli.value, e)
                      || (names.defaults in cli.value
                          && DefaultFault(names, cli.value, Items(cli.value[names.defaults].members), e))))
  }

  lemma LibraryVerdict(names: Names, root: Table, production: set<string>, forbidden: set<string>)
    requires IsListed(root, names.production)
    requires forall f :: f in production <==> Reachable(root, {names.production}, f)
    requires forbidden == production * {names.host, names.test}
    ensures forbidden == {} <==> LibraryIsNative(names, root)
    ensures forbidden != {} ==> LibraryFault(names, root, LibraryEnables(forbidden))
  {
    assert names.host in production ==> names.host in forbidden;
    assert names.test in production ==> names.test in forbidden;
  }

  /** The library half of `_require_ncm_release_profile`. */
  method RequireNativeLibrary(names: Names, root: Table) returns (r: Result<(), Failure>)
    ensures r.Ok? <==> LibraryIsNative(names, root)
    ensures r.Refused? ==> LibraryFault(names, root, r.error)
  {
    if names.production !in root || root[names.production].Unlisted? {
      return Refused(NotAList(names.production));
    }
    var production := ExpandLocalFeatures(root, [names.production]);
    assert Items([names.production]) == {names.production};
    var forbidden := production * {names.host, names.test};
    LibraryVerdict(names, root, production, forbidden);
    if forbidden != {} {
      return Refused(LibraryEnables(forbidden));
    }
    r := Ok(());
  }

  ghost predicate DefaultHolds(names: Names, cli: Table, selected: set<string>) {
    && Reachable(cli, selected, names.production) && Reachable(cli, selected, names.host)
    && AllListed(cli, selected) && !Reachable(cli, selected, names.test)
    && forall m <- names.forwarded :: !Enables(cli, selected, m)
  }

  /** `sorted(defaults)` and its closure. */
  method DefaultClosure(cli: Table, members: seq<string>) returns (closure: set<string>)
    ensures forall f :: f in closure <==> Reachable(cli, Items(members), f)
  {
    assert StrictOrder(CharLess);
    LexIsStrictOrder(CharLess);
    var selected := Sort(Lex(CharLess), Items(members));
    closure := ExpandLocalFeatures(cli, selected);
  }

  /** The default closure of the command-line package. */
  method RequireDefault(names: Names, cli: Table, members: seq<string>) returns (r: Result<(), Failure>)
    ensures r.Ok? <==> DefaultHolds(names, cli, Items(members))
    ensures r.Refused? ==> DefaultFault(names, cli, Items(members), r.error)
  {
    var closure := DefaultClosure(cli, members);
    var lacking := {names.production, names.host} - closure;
    Exceeds({names.production, names.host}, closure);
    if lacking != {} {
      return Refused(DefaultLacks(lacking));
    }
    var enabled := MembersOf(cli, closure);
    if enabled.None? {
      return Refused(UnlistedMember);
    }
    MembersAreEnabled(cli, Items(members), closure, enabled.value);
    Meets(names.forwarded, enabled.value);
    if names.test in closure || names.forwarded * enabled.value != {} {
      return Refused(DefaultEnablesTest);
    }
    r := Ok(());
  }

  lemma Meets(a: set<string>, b: set<string>)
    ensures a * b == {} <==> forall m <- a :: m !in b
  {
    forall m | m in a && m in b ensures a * b != {} {
      assert m in a * b;
    }
  }

  lemma Exceeds(a: set<string>, b: set<string>)
    ensures a - b == {} <==> forall m <- a :: m in b
  {
    forall m | m in a && m !in b ensures a - b != {} {
      assert m in a - b;
    }
  }

  lemma MembersAreEnabled(table: Table, selected: set<string>, closure: set<string>, members: set<string>)
    requires forall f :: f in closure <==> Reachable(table, selected, f)
    requires forall m :: m in members <==> exists f <- closure :: f in table && m in table[f].members
    ensures forall m :: m in members <==> Enables(table, selected, m)
  {
    forall m ensures m in members <==> Enables(table, selected, m) {
      if m in members {
        var f :| f in closure && f in table && m in table[f].members;
      }
      if Enables(table, selected, m) {
        var f :| Reachable(table, selected, f) && f in table && m in table[f].members;
        assert f in closure;
      }
    }
  }

  /** What the provider host of the command-line package enables. */
  method RequireHost(names: Names, cli: Table) returns (r: Result<(), Failure>)
    ensures r.Ok? <==> AllListed(cli, {names.host}) && forall m <- names.required :: Enables(cli, {names.host}, m)
    ensures r.Refused? ==> HostFault(names, cli, r.error)
  {
    var closure := ExpandLocalFeatures(cli, [names.host]);
    assert Items([names.host]) == {names.host};
    var enabled := MembersOf(cli, closure);
    if enabled.None? {
      return Refused(UnlistedMember);
    }
    MembersAreEnabled(cli, {names.host}, closure, enabled.value);
    var missing := names.required - enabled.value;
    Exceeds(names.required, enabled.value);
    if missing != {} {
      return Refused(HostLacks(missing));
    }
    r := Ok(());
  }

  /** What the host reaches is within what a selection that reaches the host does. */
  lemma HostIsWithin(table: Table, selected: set<string>, host: string, feature: string)
    requires Reachable(table, selected, host) && Reachable(table, {host}, feature)
    ensures Reachable(table, selected, feature)
  {
    var p :| IsPath(table, {host}, p) && p[|p| - 1] == feature;
    ReachableTrans(table, selected, host, feature, p);
  }

  /** `_require_ncm_release_profile`: accepted exactly when both sides hold. */
  method RequireReleaseProfile(names: Names, root: Option<Table>, cli: Option<Table>) returns (r: Result<(), Failure>)
    ensures r.Ok? <==>
            root.Some? && cli.Some? && LibraryIsNative(names, root.value) && CliHostsProvider(names, cli.value)
    ensures r.Refused? ==> ProfileFault(names, root, cli, r.error)
  {
    if root.None? {
      return Refused(NoFeatureTable);
    }
    r := RequireNativeLibrary(names, root.value);
    if r.Refused? {
      return;
    }
    if cli.None? {
      return Refused(NoFeatureTable);
    }
    if names.defaults !in cli.value || cli.value[names.defaults].Unlisted? {
      return Refused(NotAList(names.defaults));
    }
    ghost var selected := Items(cli.value[names.defaults].members);
    r := RequireDefault(names, cli.value, cli.value[names.defaults].members);
    if r.Refused? {
      return;
    }
    assert AllListed(cli.value, {names.host}) by {
      forall f | Reachable(cli.value, {names.host}, f) ensures IsListed(cli.value, f) {
        HostIsWithin(cli.value, selected, names.host, f);
      }
    }
    r := RequireHost(names, cli.value);
  }

  /** Of every accepted pair of manifests: no chain of features leads from the library's `production`
      to the provider host or the test transport; and nothing the command-line default reaches, the
      host's own closure included, is the test transport, forwards it, or is undeclared. */
  lemma AcceptedProfiles(names: Names, root: Table, cli: Table, chain: seq<string>, feature: string)
    requires LibraryIsNative(names, root) && CliHostsProvider(names, cli)
    ensures IsPath(root, {names.production}, chain) ==>
              chain[|chain| - 1] != names.host && chain[|chain| - 1] != names.test
    ensures var selected := Items(cli[names.defaults].members);
            Reachable(cli, selected, feature) || Reachable(cli, {names.host}, feature) ==>
              && feature != names.test && IsListed(cli, feature)
              && forall m <- names.forwarded :: m !in cli[feature].members
    ensures var selected := Items(cli[names.defaults].members);
            forall m <- names.required :: Enables(cli, selected, m)
  {
    var selected := Items(cli[names.defaults].members);
    if Reachable(cli, {names.host}, feature) {
      HostIsWithin(cli, selected, names.host, feature);
    }
    if Reachable(cli, selected, feature) {
      forall m | m in names.forwarded ensures m !in cli[feature].members {
        assert !Enables(cli, selected, m);
      }
    }
    forall m | m in names.required ensures Enables(cli, selected, m) {
      var f :| Reachable(cli, {names.host}, f) && f in cli && m in cli[f].members;
      HostIsWithin(cli, selected, names.host, f);
    }
  }

  // ---- dependency features listed directly in the default ----

  /** Everything `DefaultHolds` asks of the features that are declared. */
  ghost predicate DeclaredPartHolds(names: Names, cli: Table, selected: set<string>) {
    && Reachable(cli, selected, names.production) && Reachable(cli, selected, names.host)
    && (forall f :: Reachable(cli, selected, f) && f in cli ==> cli[f].Listed?)
    && !Reachable(cli, selected, names.test) && forall m <- names.forwarded :: !Enables(cli, selected, m)
  }

  /** A chain of more than one feature starts and ends at declared ones. */
  lemma ChainIsDeclared(table: Table, selected: set<string>, p: seq<string>)
    requires IsPath(table, selected, p) && |p| > 1
    ensures p[0] in table && p[|p| - 1] in table
  {
    assert Edge(table, p[0], p[0 + 1]);
    assert Edge(table, p[|p| - 2], p[|p| - 2 + 1]);
  }

  /** Only a selected name can be reached without being declared. */
  lemma UndeclaredIsSelected(table: Table, selected: set<string>, feature: string)
    requires Reachable(table, selected, feature) && feature !in table
    ensures feature in selected
  {
    var p :| IsPath(table, selected, p) && p[|p| - 1] == feature;
    if |p| > 1 {
      ChainIsDeclared(table, selected, p);
    }
  }

  /** The default is accepted if and only if its declared part is in order and it lists declared
      features only. */
  lemma DefaultHoldsIff(names: Names, cli: Table, selected: set<string>)
    ensures DefaultHolds(names, cli, selected) <==>
            DeclaredPartHolds(names, cli, selected) && forall f <- selected :: f in cli
  {
    forall f | f in selected && AllListed(cli, selected) ensures f in cli {
      SelectedIsReachable(cli, selected, f);
    }
    forall f | Reachable(cli, selected, f) && (forall g <- selected :: g in cli) ensures f in cli {
      if f !in cli {
        UndeclaredIsSelected(cli, selected, f);
      }
    }
  }

  lemma UndeclaredAddsItself(table: Table, selected: set<string>, m: string, feature: string)
    requires m !in table
    ensures Reachable(table, selected + {m}, feature) <==> Reachable(table, selected, feature) || feature == m
  {
    if Reachable(table, selected + {m}, feature) {
      var p :| IsPath(table, selected + {m}, p) && p[|p| - 1] == feature;
      if |p| > 1 {
        ChainIsDeclared(table, selected + {m}, p);
      }
      if p[0] in selected {
        assert IsPath(table, selected, p);
      }
    }
    if Reachable(table, selected, feature) {
      var p :| IsPath(table, selected, p) && p[|p| - 1] == feature;
      assert IsPath(table, selected + {m}, p);
    }
    if feature == m {
      SelectedIsReachable(table, selected + {m}, m);
    }
  }

  /** An accepted default that lists one dependency feature more is refused, and for no other reason:
      what is asked of its declared part still holds. */
  lemma DirectForwardIsRefused(names: Names, cli: Table, selected: set<string>, m: string)
    requires DefaultHolds(names, cli, selected) && m !in cli && m != names.test
    ensures DeclaredPartHolds(names, cli, selected + {m}) && !DefaultHolds(names, cli, selected + {m})
  {
    forall f ensures Reachable(cli, selected + {m}, f) <==> Reachable(cli, selected, f) || f == m {
      UndeclaredAddsItself(cli, selected, m, f);
    }
    DefaultHoldsIff(names, cli, selected);
    DefaultHoldsIff(names, cli, selected + {m});
    assert m in selected + {m};
    forall x | x in names.forwarded ensures !Enables(cli, selected + {m}, x) {
      assert !Enables(cli, selected, x);
    }
  }

  predicate IsLocal(names: Names, m: string) {
    m == names.production || m == names.host || m == names.test || m == names.defaults
  }

  /** The names differ, and what the host must enable is neither declared nor the test transport's. */
  ghost predicate Apart(names: Names) {
    && names.production != names.host && names.production != names.defaults && names.production != names.test
    && names.host != names.defaults && names.host != names.test
    && (forall m <- names.required :: !IsLocal(names, m) && m !in names.forwarded)
  }

  /** Two flat features behind the default. */
  function FlatTable(names: Names, defaults: seq<string>, required: seq<string>): (cli: Table) {
    map[names.defaults := Listed(defaults), names.production := Listed([]), names.host := Listed(required)]
  }

  lemma FlatHasNoEdge(names: Names, defaults: seq<string>, required: seq<string>, f: string, m: string)
    requires Apart(names) && Items(required) == names.required && f != names.defaults
    ensures !Edge(FlatTable(names, defaults, required), f, m)
  {
    assert m in required <==> m in Items(required);
  }

  lemma FlatReaches(names: Names, defaults: seq<string>, required: seq<string>, selected: set<string>, f: string)
    requires Apart(names) && Items(required) == names.required && names.defaults !in selected
    ensures Reachable(FlatTable(names, defaults, required), selected, f) <==> f in selected
  {
    var cli := FlatTable(names, defaults, required);
    if f in selected {
      SelectedIsReachable(cli, selected, f);
    }
    if Reachable(cli, selected, f) {
      forall g, m | g in selected ensures !Edge(cli, g, m) {
        FlatHasNoEdge(names, defaults, required, g, m);
      }
      ReachableIsLeast(cli, selected, selected, f);
    }
  }

  lemma FlatEnables(names: Names, defaults: seq<string>, required: seq<string>, selected: set<string>, m: string)
    requires Apart(names) && Items(required) == names.required && names.defaults !in selected
    ensures Enables(FlatTable(names, defaults, required), selected, m) <==> names.host in selected && m in required
  {
    var cli := FlatTable(names, defaults, required);
    forall f ensures Reachable(cli, selected, f) <==> f in selected {
      FlatReaches(names, defaults, required, selected, f);
    }
    if names.host in selected && m in required {
      assert Reachable(cli, selected, names.host) && m in cli[names.host].members;
    }
  }

  lemma FlatPart(names: Names, defaults: seq<string>, required: seq<string>, selected: set<string>)
    requires Apart(names) && Items(required) == names.required
    requires names.production in selected && names.host in selected
    requires names.defaults !in selected && names.test !in selected
    ensures DeclaredPartHolds(names, FlatTable(names, defaults, required), selected)
  {
    var cli := FlatTable(names, defaults, required);
    FlatReaches(names, defaults, required, selected, names.production);
    FlatReaches(names, defaults, required, selected, names.host);
    FlatReaches(names, defaults, required, selected, names.test);
    forall m | m in names.forwarded ensures !Enables(cli, selected, m) {
      FlatEnables(names, defaults, required, selected, m);
      assert m in required <==> m in Items(required);
    }
  }

  lemma FlatHost(names: Names, defaults: seq<string>, required: seq<string>, m: string)
    requires Apart(names) && Items(required) == names.required && m in names.required
    ensures Enables(FlatTable(names, defaults, required), {names.host}, m)
  {
    FlatEnables(names, defaults, required, {names.host}, m);
    assert m in required <==> m in Items(required);
  }

  /** A flat table hosts the provider if and only if its default lists declared features only. */
  lemma FlatHostsProviderIff(names: Names, defaults: seq<string>, required: seq<string>)
    requires Apart(names) && Items(required) == names.required
    requires names.production in defaults && names.host in defaults
    requires names.defaults !in defaults && names.test !in defaults
    ensures var cli := FlatTable(names, defaults, required);
            && DeclaredPartHolds(names, cli, Items(defaults))
            && (CliHostsProvider(names, cli) <==> forall m <- defaults :: m == names.production || m == names.host)
  {
    var cli := FlatTable(names, defaults, required);
    var selected := Items(defaults);
    assert forall m :: m in defaults <==> m in selected;
    FlatPart(names, defaults, required, selected);
    DefaultHoldsIff(names, cli, selected);
    forall m | m in names.required ensures Enables(cli, {names.host}, m) {
      FlatHost(names, defaults, required, m);
    }
    assert forall m :: m in cli <==> m == names.defaults || m == names.production || m == names.host;
  }

  lemma ApartByLength(names: Names, r: string, s: string, f: string, g: string)
    requires names.required == {r, s} && names.forwarded == {f, g}
    requires |names.production| == 10 && |names.host| == 20 && |names.test| == 14 && |names.defaults| == 7
    requires |r| == 31 && |s| == 42 && |f| == 25 && |g| == 26
    ensures Apart(names) && Items([r, s]) == names.required
  {
    assert forall m :: m in [r, s] <==> m == r || m == s;
  }

  lemma SomeDirectForward(names: Names, required: seq<string>, m: string)
    requires Apart(names) && Items(required) == names.required && !IsLocal(names, m)
    ensures var defaults := [names.production, names.host];
            && CliHostsProvider(names, FlatTable(names, defaults, required))
            && !CliHostsProvider(names, FlatTable(names, defaults + [m], required))
            && DeclaredPartHolds(names, FlatTable(names, defaults + [m], required), Items(defaults + [m]))
  {
    var defaults := [names.production, names.host];
    FlatHostsProviderIff(names, defaults, required);
    assert m in defaults + [m];
    FlatHostsProviderIff(names, defaults + [m], required);
  }

  /** A command-line manifest with the release's own names is accepted, and is refused as soon as its
      default also lists a feature of a dependency. */
  lemma SomeDefaultIsRefused(m: string)
    requires !IsLocal(NAMES, m)
    ensures var required := [PROVIDER_HOST, REAL_ENCODER];
            var defaults := [NAMES.production, NAMES.host];
            && CliHostsProvider(NAMES, FlatTable(NAMES, defaults, required))
            && !CliHostsProvider(NAMES, FlatTable(NAMES, defaults + [m], required))
            && DeclaredPartHolds(NAMES, FlatTable(NAMES, defaults + [m], required), Items(defaults + [m]))
  {
    ApartByLength(NAMES, PROVIDER_HOST, REAL_ENCODER, "tracedecay/test-transport", "tracedecay?/test-transport");
    SomeDirectForward(NAMES, [PROVIDER_HOST, REAL_ENCODER], m);
  }
}
