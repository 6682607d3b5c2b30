/** The publish command: order the crates, register stubs for all, then package them one by one. */
module Publish {
  import opened Basics
  import opened RegistryIndex
  import TopologicalSort

  datatype DependencyKind = Normal | Development | Build

  datatype Dependency = Dependency(name: string, kind: DependencyKind)

  /** publish lists the registries that the package may go to, if it restricts them; rest stands for what an index
      entry says about the package beside name, version and checksum. */
  datatype Package = Package(name: string, version: string, publish: Option<seq<string>>,
                             dependencies: seq<Dependency>, rest: string)

  /** Not marked `publish = false`. */
  predicate IsPublishable(p: Package) {
    match p.publish
    case Some(registries) => registries != []
    case None => true
  }

  datatype PublishError =
    | PackageNotFound(name: string)
    | Circular(cycle: TopologicalSort.CircularDependency)
    | CommitFailed
    | PackagingFailed(name: string)

  const PLACEHOLDER_CKSUM := "0000000000000000000000000000000000000000000000000000000000000000"

  function BuildIndexEntry(pkg: Package, cksum: string): IndexEntry {
    IndexEntry(pkg.name, pkg.version, cksum, pkg.rest)
  }

  // ---- What to publish ----------------------------------------------------------------------

  function Names(pkgs: seq<Package>): (names: seq<string>)
    ensures |names| == |pkgs| && forall i :: 0 <= i < |pkgs| ==> names[i] == pkgs[i].name
  {
    seq(|pkgs|, i requires 0 <= i < |pkgs| => pkgs[i].name)
  }

  /** Cargo's guarantee: no two workspace members share a name. */
  ghost predicate Workspace(members: seq<Package>) {
    NoDup(Names(members))
  }

  function ByName(members: seq<Package>): map<string, Package> {
    if members == [] then map[] else
    var last := members[|members| - 1];
    ByName(members[..|members| - 1])[last.name := last]
  }

  lemma {:induction false} ByNameFinds(members: seq<Package>)
    requires Workspace(members)
    ensures forall p :: p in members ==> p.name in ByName(members) && ByName(members)[p.name] == p
    ensures forall n :: n in ByName(members) ==> ByName(members)[n] in members && ByName(members)[n].name == n
  {
    if members != [] {
      var rest, last := members[..|members| - 1], members[|members| - 1];
      assert members == rest + [last];
      assert forall i :: 0 <= i < |rest| ==> Names(rest)[i] == Names(members)[i];
      ByNameFinds(rest);
      forall p | p in rest ensures p.name != last.name {
        var i :| 0 <= i < |rest| && rest[i] == p;
        assert Names(members)[i] != Names(members)[|rest|];
      }
    }
  }

  function Lookup(pkgMap: map<string, Package>, packages: seq<string>): Result<seq<Package>, PublishError> {
    if packages == [] then Ok([]) else
    var found, name := Lookup(pkgMap, packages[..|packages| - 1]), packages[|packages| - 1];
    if found.Err? then found
    else if name in pkgMap then Ok(found.value + [pkgMap[name]])
    else Err(PackageNotFound(name))
  }

  /** Every publishable member, or exactly the named ones. */
  function Select(members: seq<Package>, packages: seq<string>): Result<seq<Package>, PublishError> {
    if packages == [] then Ok(Filter(members, IsPublishable))
    else Lookup(ByName(members), packages)
  }

  lemma {:induction false} LookupInMap(pkgMap: map<string, Package>, packages: seq<string>)
    ensures var r := Lookup(pkgMap, packages);
            r.Ok? ==> forall p :: p in r.value ==> p in pkgMap.Values
  {
    if packages != [] {
      LookupInMap(pkgMap, packages[..|packages| - 1]);
    }
  }

  lemma SelectedAreMembers(members: seq<Package>, packages: seq<string>)
    requires Workspace(members) && Select(members, packages).Ok?
    ensures forall p :: p in Select(members, packages).value ==> p in members
  {
    ByNameFinds(members);
    FilterElems(members, IsPublishable);
    LookupInMap(ByName(members), packages);
  }

  // ---- The dependency map -------------------------------------------------------------------

  ghost function DepNames(deps: seq<Dependency>, publishSet: set<string>): seq<string> {
    if deps == [] then [] else
    var d := deps[|deps| - 1];
    DepNames(deps[..|deps| - 1], publishSet)
    + if !d.kind.Development? && d.name in publishSet then [d.name] else []
  }

  ghost function DepMap(pkgs: seq<Package>, publishSet: set<string>): map<string, seq<string>> {
    if pkgs == [] then map[] else
    var p := pkgs[|pkgs| - 1];
    DepMap(pkgs[..|pkgs| - 1], publishSet)[p.name := DepNames(p.dependencies, publishSet)]
  }

  ghost function WorkspaceDeps(toPublish: seq<Package>): map<string, seq<string>> {
    DepMap(toPublish, Elems(Names(toPublish)))
  }

  method BuildWorkspaceDeps(toPublish: seq<Package>, pkgMap: map<string, Package>)
    returns (result: map<string, seq<string>>)
    requires forall p :: p in toPublish ==> p.name in pkgMap
    ensures result == WorkspaceDeps(toPublish)
  {
    var names := Names(toPublish);
    var publishSet := set x | x in names;
    assert forall n :: n in publishSet ==> n in pkgMap by {
      forall n | n in names ensures n in pkgMap {
        var k :| 0 <= k < |names| && names[k] == n;
        assert toPublish[k] in toPublish;
      }
    }
    result := map[];
    for i := 0 to |toPublish|
      invariant result == DepMap(toPublish[..i], publishSet)
    {
      var pkg := toPublish[i];
      var deps := [];
      for j := 0 to |pkg.dependencies|
        invariant deps == DepNames(pkg.dependencies[..j], publishSet)
      {
        var dep := pkg.dependencies[j];
        assert pkg.dependencies[..j + 1][..j] == pkg.dependencies[..j];
        if dep.kind == Development {
          continue;
        }
        if dep.name in publishSet && dep.name in pkgMap {
          deps := deps + [dep.name];
        }
      }
      assert pkg.dependencies[..|pkg.dependencies|] == pkg.dependencies;
      assert toPublish[..i + 1][..i] == toPublish[..i];
      result := result[pkg.name := deps];
    }
    assert toPublish[..|toPublish|] == toPublish;
  }

  lemma {:induction false} DepNamesElems(deps: seq<Dependency>, publishSet: set<string>)
    ensures forall n :: n in DepNames(deps, publishSet)
                        <==> n in publishSet && exists d :: d in deps && d.name == n && !d.kind.Development?
  {
    if deps != [] {
      assert deps == deps[..|deps| - 1] + [deps[|deps| - 1]];
      DepNamesElems(deps[..|deps| - 1], publishSet);
    }
  }

  lemma {:induction false} DepMapLookup(pkgs: seq<Package>, publishSet: set<string>, p: Package)
    requires NoDup(Names(pkgs)) && p in pkgs
    ensures TopologicalSort.DepsOf(DepMap(pkgs, publishSet), p.name) == DepNames(p.dependencies, publishSet)
  {
    var rest, last := pkgs[..|pkgs| - 1], pkgs[|pkgs| - 1];
    assert pkgs == rest + [last];
    if p != last {
      assert p in rest;
      var i :| 0 <= i < |rest| && rest[i] == p;
      assert Names(pkgs)[i] != Names(pkgs)[|rest|];
      assert forall j :: 0 <= j < |rest| ==> Names(rest)[j] == Names(pkgs)[j];
      DepMapLookup(rest, publishSet, p);
    }
  }

  /** The crates in publishing order, or why there is none. */
  ghost function Plan(members: seq<Package>, packages: seq<string>): Result<seq<string>, PublishError> {
    var selected := Select(members, packages);
    if selected.Err? then Err(selected.error)
    else if selected.value == [] then Ok([]) else
    var sorted := TopologicalSort.TopoResult(Names(selected.value), WorkspaceDeps(selected.value));
    if sorted.Err? then Err(Circular(sorted.error)) else Ok(sorted.value)
  }

  ghost function Ordered(members: seq<Package>, names: seq<string>): seq<Package>
    requires forall n :: n in names ==> n in ByName(members)
  {
    seq(|names|, i requires 0 <= i < |names| => ByName(members)[names[i]])
  }

  /** Crate i's non-development dependencies among the crates of the order come earlier in it. */
  ghost predicate NeedsMet(order: seq<Package>, i: nat)
    requires i < |order|
  {
    forall d :: d in order[i].dependencies && !d.kind.Development? && d.name in Names(order) ==>
                  d.name in Names(order)[..i]
  }

  /** Looking the names of some members up again gives those members. */
  lemma OrderedLists(members: seq<Package>, names: seq<string>, selected: seq<Package>)
    requires Workspace(members) && multiset(names) == multiset(Names(selected))
    requires forall p :: p in selected ==> p in members
    ensures forall n :: n in names ==> n in ByName(members)
    ensures forall p :: p in Ordered(members, names) <==> p in selected
    ensures Names(Ordered(members, names)) == names
  {
    var byName := ByName(members);
    ByNameFinds(members);
    SameNames(names, selected);
    forall n | n in names ensures n in byName && byName[n] in selected && byName[n].name == n {
      var i :| 0 <= i < |selected| && Names(selected)[i] == n;
      assert selected[i] in selected;
    }
    var order := Ordered(members, names);
    forall j | 0 <= j < |names| ensures order[j] in selected && order[j].name == names[j] {
      assert names[j] in names;
    }
    forall p | p in selected ensures p in order {
      var i :| 0 <= i < |selected| && selected[i] == p;
      assert Names(selected)[i] in names;
      var j :| 0 <= j < |names| && names[j] == p.name;
      assert order[j] == p;
    }
  }

  /** The plan lists the selected packages, once each. */
  lemma PlanListsSelected(members: seq<Package>, packages: seq<string>)
    requires Workspace(members) && Plan(members, packages).Ok?
    ensures var names, selected := Plan(members, packages).value, Select(members, packages).value;
            && NoDup(names) && multiset(names) == multiset(Names(selected)) && NoDup(Names(selected))
            && (forall n :: n in names ==> n in ByName(members))
            && (forall p :: p in Ordered(members, names) <==> p in selected)
            && Names(Ordered(members, names)) == names
  {
    var names, selected := Plan(members, packages).value, Select(members, packages).value;
    if selected != [] {
      TopologicalSort.TopoCorrect(Names(selected), WorkspaceDeps(selected));
    }
    SelectedAreMembers(members, packages);
    OrderedLists(members, names, selected);
  }

  lemma {:induction false} LookupNames(members: seq<Package>, packages: seq<string>)
    requires Workspace(members) && Lookup(ByName(members), packages).Ok?
    ensures Names(Lookup(ByName(members), packages).value) == packages
  {
    if packages != [] {
      LookupNames(members, packages[..|packages| - 1]);
      ByNameFinds(members);
    }
  }

  lemma {:induction false} FilterNames(pkgs: seq<Package>, keep: Package -> bool)
    requires NoDup(Names(pkgs))
    ensures NoDup(Names(Filter(pkgs, keep)))
  {
    if pkgs != [] {
      var rest, last := pkgs[..|pkgs| - 1], pkgs[|pkgs| - 1];
      assert forall i :: 0 <= i < |rest| ==> Names(rest)[i] == Names(pkgs)[i];
      FilterNames(rest, keep);
      FilterElems(rest, keep);
      forall p | p in Filter(rest, keep) ensures p.name != last.name {
        var i :| 0 <= i < |rest| && rest[i] == p;
        assert Names(pkgs)[i] != Names(pkgs)[|rest|];
      }
    }
  }

  /** A selection fails to be ordered exactly when a crate is named twice or the dependencies have a cycle, and both
      are reported as a circular dependency. */
  lemma PlanFailsIff(members: seq<Package>, packages: seq<string>)
    requires Workspace(members) && Select(members, packages).Ok?
    ensures var selected, plan := Select(members, packages).value, Plan(members, packages);
            && (plan.Err? <==> !NoDup(packages) || !TopologicalSort.Acyclic(
                                 TopologicalSort.Selected(Names(selected), WorkspaceDeps(selected))))
            && (plan.Err? ==> plan.error.Circular?)
  {
    var selected := Select(members, packages).value;
    TopologicalSort.TopoCorrect(Names(selected), WorkspaceDeps(selected));
    if packages == [] {
      FilterNames(members, IsPublishable);
    } else {
      LookupNames(members, packages);
    }
  }

  // ---- What a plan is, said of the arguments --------------------------------------------------

  /** The members that the arguments choose: the named ones, or without names those not marked `publish = false`. */
  ghost predicate Chosen(members: seq<Package>, packages: seq<string>, p: Package) {
    p in members && if packages == [] then p.publish != Some([]) else p.name in packages
  }

  ghost predicate Known(members: seq<Package>, name: string) {
    exists p :: p in members && p.name == name
  }

  ghost predicate AllKnown(members: seq<Package>, packages: seq<string>) {
    forall i :: 0 <= i < |packages| ==> Known(members, packages[i])
  }

  ghost predicate FirstUnknown(members: seq<Package>, packages: seq<string>, name: string) {
    exists i :: 0 <= i < |packages| && packages[i] == name && !Known(members, name) && AllKnown(members, packages[..i])
  }

  /** p needs q at build or run time. */
  ghost predicate Needs(p: Package, q: Package) {
    exists d :: d in p.dependencies && d.kind != Development && d.name == q.name
  }

  /** A closed walk of chosen packages, each of which needs the one before. */
  ghost predicate NeedCycle(members: seq<Package>, packages: seq<string>, walk: seq<Package>) {
    && |walk| >= 2 && walk[0] == walk[|walk| - 1]
    && (forall i :: 0 <= i < |walk| ==> Chosen(members, packages, walk[i]))
    && (forall i, j :: 0 <= i && j == i + 1 < |walk| ==> Needs(walk[j], walk[i]))
  }

  /** Selecting succeeds exactly on known names, fails on the first unknown one, and selects the chosen members. */
  lemma SelectChooses(members: seq<Package>, packages: seq<string>)
    requires Workspace(members)
    ensures match Select(members, packages)
            case Ok(selected) =>
              AllKnown(members, packages) && forall p :: p in selected <==> Chosen(members, packages, p)
            case Err(PackageNotFound(name)) => FirstUnknown(members, packages, name)
            case Err(_) => false
  {
    ByNameFinds(members);
    if packages == [] {
      FilterElems(members, IsPublishable);
    } else {
      LookupChooses(members, packages);
    }
  }

  lemma {:induction false} LookupChooses(members: seq<Package>, packages: seq<string>)
    requires Workspace(members)
    ensures match Lookup(ByName(members), packages)
            case Ok(selected) =>
              AllKnown(members, packages) && forall p :: p in selected <==> p in members && p.name in packages
            case Err(PackageNotFound(name)) => FirstUnknown(members, packages, name)
            case Err(_) => false
  {
    ByNameFinds(members);
    if packages != [] {
      var front, name := packages[..|packages| - 1], packages[|packages| - 1];
      LookupChooses(members, front);
      assert packages == front + [name];
      assert Known(members, name) <==> name in ByName(members);
      if Lookup(ByName(members), front).Err? {
        var unknown := Lookup(ByName(members), front).error.name;
        var i :| 0 <= i < |front| && front[i] == unknown && !Known(members, unknown) && AllKnown(members, front[..i]);
        assert packages[..i] == front[..i] && packages[i] == unknown;
      } else if name in ByName(members) {
        OneMoreMember(members, ByName(members)[name]);
      } else {
        assert packages[..|front|] == front && packages[|front|] == name;
      }
    }
  }

  /** Members with the same name are the same. */
  lemma OneMoreMember(members: seq<Package>, p: Package)
    requires Workspace(members) && p in members
    ensures forall q :: q in members && q.name == p.name ==> q == p
  {
    ByNameFinds(members);
  }

  /** The edges of the sorted graph are the needs among the selected packages. */
  lemma EdgesAreNeeds(selected: seq<Package>, p: Package, q: Package)
    requires NoDup(Names(selected)) && p in selected && q in selected
    ensures (q.name, p.name) in TopologicalSort.Selected(Names(selected), WorkspaceDeps(selected)).edges
            <==> Needs(p, q)
  {
    var names := Names(selected);
    DepMapLookup(selected, Elems(names), p);
    DepNamesElems(p.dependencies, Elems(names));
    NameListed(selected, p);
    NameListed(selected, q);
  }

  lemma NameListed(selected: seq<Package>, p: Package)
    requires p in selected
    ensures p.name in Names(selected)
  {
    var i :| 0 <= i < |selected| && selected[i] == p;
    assert Names(selected)[i] == p.name;
  }

  /** A cycle of packages is a cycle of the sorted graph. */
  lemma NeedsToCycle(members: seq<Package>, packages: seq<string>, selected: seq<Package>, walk: seq<Package>)
    requires NoDup(Names(selected)) && forall p :: p in selected <==> Chosen(members, packages, p)
    requires NeedCycle(members, packages, walk)
    ensures TopologicalSort.Cycle(TopologicalSort.Selected(Names(selected), WorkspaceDeps(selected)), Names(walk))
  {
    forall i, j | 0 <= i && j == i + 1 < |walk|
      ensures (Names(walk)[i], Names(walk)[j])
              in TopologicalSort.Selected(Names(selected), WorkspaceDeps(selected)).edges
    {
      assert Chosen(members, packages, walk[i]) && Chosen(members, packages, walk[j]) && Needs(walk[j], walk[i]);
      EdgesAreNeeds(selected, walk[j], walk[i]);
    }
  }

  /** And a cycle of the sorted graph is one of packages. */
  lemma CycleToNeeds(members: seq<Package>, packages: seq<string>, selected: seq<Package>, names: seq<string>)
    returns (walk: seq<Package>)
    requires NoDup(Names(selected)) && forall p :: p in selected <==> Chosen(members, packages, p)
    requires TopologicalSort.Cycle(TopologicalSort.Selected(Names(selected), WorkspaceDeps(selected)), names)
    ensures NeedCycle(members, packages, walk)
  {
    var g := TopologicalSort.Selected(Names(selected), WorkspaceDeps(selected));
    TopologicalSort.CycleInNodes(g, names);
    walk := PackagesNamed(selected, names);
    forall i, j | 0 <= i && j == i + 1 < |walk| ensures Needs(walk[j], walk[i]) {
      assert (names[i], names[j]) in g.edges;
      EdgesAreNeeds(selected, walk[j], walk[i]);
    }
  }

  /** The selected packages of these names. */
  lemma PackagesNamed(selected: seq<Package>, names: seq<string>) returns (pkgs: seq<Package>)
    requires NoDup(Names(selected)) && forall i :: 0 <= i < |names| ==> names[i] in Elems(Names(selected))
    ensures |pkgs| == |names| && (forall i :: 0 <= i < |names| ==> pkgs[i] in selected && pkgs[i].name == names[i])
    ensures forall i, j :: 0 <= i < |names| && 0 <= j < |names| && names[i] == names[j] ==> pkgs[i] == pkgs[j]
  {
    var byName := ByName(selected);
    ByNameFinds(selected);
    forall i | 0 <= i < |names| ensures names[i] in byName {
      var k :| 0 <= k < |selected| && Names(selected)[k] == names[i];
      assert selected[k] in selected;
    }
    pkgs := seq(|names|, i requires 0 <= i < |names| => byName[names[i]]);
  }

  /** The whole of planning, said of the arguments: an unknown name is reported, the first if there are several; else a
      repeated name or a cycle of needs among the chosen packages is reported as circular; else the plan lists the
      names of the chosen packages, once each. */
  lemma PlanCorrect(members: seq<Package>, packages: seq<string>)
    requires Workspace(members)
    ensures match Plan(members, packages)
            case Err(PackageNotFound(name)) => FirstUnknown(members, packages, name)
            case Err(Circular(_)) =>
              AllKnown(members, packages)
              && (!NoDup(packages) || exists walk :: NeedCycle(members, packages, walk))
            case Err(_) => false
            case Ok(names) =>
              && AllKnown(members, packages) && NoDup(packages)
              && (forall walk :: !NeedCycle(members, packages, walk))
              && NoDup(names) && forall n :: n in names <==> exists p :: Chosen(members, packages, p) && p.name == n
  {
    SelectChooses(members, packages);
    var selection := Select(members, packages);
    if selection.Ok? {
      var selected := selection.value;
      PlanFailsIff(members, packages);
      SelectedNoDup(members, packages);
      var plan := Plan(members, packages);
      if plan.Ok? {
        PlanListsSelected(members, packages);
        forall walk ensures !NeedCycle(members, packages, walk) {
          if NeedCycle(members, packages, walk) {
            NeedsToCycle(members, packages, selected, walk);
          }
        }
        NamesOfChosen(members, packages, selected, plan.value);
      } else if NoDup(packages) {
        var g := TopologicalSort.Selected(Names(selected), WorkspaceDeps(selected));
        var cycle :| TopologicalSort.Cycle(g, cycle);
        var walk := CycleToNeeds(members, packages, selected, cycle);
      }
    }
  }

  lemma SelectedNoDup(members: seq<Package>, packages: seq<string>)
    requires Workspace(members) && Select(members, packages).Ok?
    ensures NoDup(packages) ==> NoDup(Names(Select(members, packages).value))
  {
    if packages == [] {
      FilterNames(members, IsPublishable);
    } else {
      LookupNames(members, packages);
    }
  }

  lemma NamesOfChosen(members: seq<Package>, packages: seq<string>, selected: seq<Package>, names: seq<string>)
    requires multiset(names) == multiset(Names(selected))
    requires forall p :: p in selected <==> Chosen(members, packages, p)
    ensures forall n :: n in names <==> exists p :: Chosen(members, packages, p) && p.name == n
  {
    SameNames(names, selected);
    forall n ensures n in names <==> exists p :: Chosen(members, packages, p) && p.name == n {
      if n in names {
        var i :| 0 <= i < |selected| && Names(selected)[i] == n;
        assert selected[i] in selected && selected[i].name == n;
      }
      if p :| Chosen(members, packages, p) && p.name == n {
        NameListed(selected, p);
      }
    }
  }

  lemma SameNames(names: seq<string>, pkgs: seq<Package>)
    requires multiset(names) == multiset(Names(pkgs))
    ensures forall n :: n in names <==> n in Names(pkgs)
  {
    assert forall n :: n in names <==> n in multiset(names);
    assert forall n :: n in Names(pkgs) <==> n in multiset(Names(pkgs));
  }

  /** The plan puts non-development dependencies first. */
  lemma PlanMeetsNeeds(members: seq<Package>, packages: seq<string>)
    requires Workspace(members) && Plan(members, packages).Ok?
    requires forall n :: n in Plan(members, packages).value ==> n in ByName(members)
    ensures var order := Ordered(members, Plan(members, packages).value);
            forall i :: 0 <= i < |order| ==> NeedsMet(order, i)
  {
    var names, selected := Plan(members, packages).value, Select(members, packages).value;
    var order, deps, among := Ordered(members, names), WorkspaceDeps(selected), Elems(Names(selected));
    PlanListsSelected(members, packages);
    SameNames(names, selected);
    forall i | 0 <= i < |order| ensures NeedsMet(order, i) {
      assert order[i] in order;
      TopologicalSort.TopoCorrect(Names(selected), deps);
      DepMapLookup(selected, among, order[i]);
      DepNamesElems(order[i].dependencies, among);
      assert names[i] == Names(order)[i] == order[i].name;
    }
  }

  // ---- The index through both phases --------------------------------------------------------

  /** The index once the first k entries of a list are upserted. */
  ghost function UpsertAll(put: Put, files: Files, entries: seq<IndexEntry>, k: nat): Files
    requires k <= |entries|
  {
    if k == 0 then files else put(UpsertAll(put, files, entries, k - 1), entries[k - 1])
  }

  type Packager = Package -> Option<string>

  /** The first k crates of the order package successfully. */
  ghost predicate Packaged(pack: Packager, order: seq<Package>, k: nat) {
    k <= |order| && forall i :: 0 <= i < k ==> pack(order[i]).Some?
  }

  ghost function Stubs(order: seq<Package>): (entries: seq<IndexEntry>)
    ensures |entries| == |order|
    ensures forall i :: 0 <= i < |order| ==> entries[i] == BuildIndexEntry(order[i], PLACEHOLDER_CKSUM)
  {
    seq(|order|, i requires 0 <= i < |order| => BuildIndexEntry(order[i], PLACEHOLDER_CKSUM))
  }

  /** The entries of the packaged crates; where packaging fails, the stub stays. */
  ghost function Finals(pack: Packager, order: seq<Package>): (entries: seq<IndexEntry>)
    ensures |entries| == |order|
    ensures forall i :: 0 <= i < |order| ==>
              entries[i] == BuildIndexEntry(order[i], if pack(order[i]).Some? then pack(order[i]).value
                                                      else PLACEHOLDER_CKSUM)
  {
    seq(|order|, i requires 0 <= i < |order| =>
          BuildIndexEntry(order[i], if pack(order[i]).Some? then pack(order[i]).value else PLACEHOLDER_CKSUM))
  }

  /** The index once all stubs and the first k packaged entries are written. */
  ghost function IndexAt(put: Put, files: Files, order: seq<Package>, pack: Packager, k: nat): Files
    requires k <= |order|
  {
    UpsertAll(put, UpsertAll(put, files, Stubs(order), |order|), Finals(pack, order), k)
  }

  ghost predicate Published(codec: Codec, files: Files, p: Package) {
    var records := Recorded(codec, files, p.name, p.version);
    records != [] && forall e :: e in records ==> e.cksum != PLACEHOLDER_CKSUM
  }

  /** The index records this version of the package with this checksum, and nothing else of it. */
  ghost predicate Carries(codec: Codec, files: Files, p: Package, cksum: string) {
    Holds(codec, files, IndexEntry(p.name, p.version, cksum, p.rest))
  }

  ghost predicate Stubbed(codec: Codec, files: Files, p: Package) {
    Carries(codec, files, p, PLACEHOLDER_CKSUM)
  }

  lemma StubbedIsUnpublished(codec: Codec, files: Files, p: Package)
    requires Stubbed(codec, files, p)
    ensures !Published(codec, files, p)
  {
    var records := Recorded(codec, files, p.name, p.version);
    assert records[0] in records;
  }

  /** What no single entry changes, no list of them changes. */
  lemma {:induction false} UpsertAllPreserves<V>(put: Put, view: Files -> V, files: Files, entries: seq<IndexEntry>,
                                                 k: nat)
    requires k <= |entries|
    requires forall f, i :: 0 <= i < k ==> view(put(f, entries[i])) == view(f)
    ensures view(UpsertAll(put, files, entries, k)) == view(files)
  {
    if k > 0 {
      UpsertAllPreserves(put, view, files, entries, k - 1);
    }
  }

  lemma UpsertAllKeeps(codec: Codec, put: Put, files: Files, entries: seq<IndexEntry>, k: nat,
                       name: string, vers: string)
    requires codec.Lawful() && Upserts(put, codec) && k <= |entries|
    requires forall i :: 0 <= i < k ==> !(entries[i].name == name && entries[i].vers == vers)
    ensures Recorded(codec, UpsertAll(put, files, entries, k), name, vers) == Recorded(codec, files, name, vers)
  {
    var view := (f: Files) => Recorded(codec, f, name, vers);
    forall f, i | 0 <= i < k ensures view(put(f, entries[i])) == view(f) {
      PutKeeps(codec, put, f, entries[i], name, vers);
    }
    UpsertAllPreserves(put, view, files, entries, k);
  }

  lemma PutKeeps(codec: Codec, put: Put, files: Files, e: IndexEntry, name: string, vers: string)
    requires codec.Lawful() && Upserts(put, codec) && !(e.name == name && e.vers == vers)
    ensures Recorded(codec, put(files, e), name, vers) == Recorded(codec, files, name, vers)
  {
    UpsertKeepsRecorded(codec, files, e, name, vers);
  }

  lemma PutHolds(codec: Codec, put: Put, files: Files, entry: IndexEntry, e: IndexEntry)
    requires codec.Lawful() && Upserts(put, codec)
    ensures Holds(codec, put(files, entry), entry)
    ensures !SameVersion(e, entry) ==> (Holds(codec, put(files, entry), e) <==> Holds(codec, files, e))
  {
    UpsertHolds(codec, files, entry, e);
  }

  lemma {:induction false} UpsertAllSets(codec: Codec, put: Put, files: Files, entries: seq<IndexEntry>, k: nat, i: nat)
    requires codec.Lawful() && Upserts(put, codec) && i < k <= |entries|
    requires forall j :: i < j < k ==> !SameVersion(entries[i], entries[j])
    ensures Holds(codec, UpsertAll(put, files, entries, k), entries[i])
  {
    PutHolds(codec, put, UpsertAll(put, files, entries, k - 1), entries[k - 1], entries[i]);
    if i < k - 1 {
      UpsertAllSets(codec, put, files, entries, k - 1, i);
    }
  }

  /** In every state of phase 2, the crates with a real checksum are the first k of the order, each recorded as itself
      with the checksum of its package, and the others hold exactly their stub. */
  lemma PublishedIsPrefix(codec: Codec, put: Put, files: Files, order: seq<Package>, pack: Packager, k: nat)
    requires codec.Lawful() && Upserts(put, codec) && NoDup(Names(order)) && Packaged(pack, order, k)
    requires forall p :: pack(p) != Some(PLACEHOLDER_CKSUM)
    ensures forall i :: 0 <= i < |order| ==>
              var now := IndexAt(put, files, order, pack, k);
              if i < k then Published(codec, now, order[i]) && Carries(codec, now, order[i], pack(order[i]).value)
              else Stubbed(codec, now, order[i])
  {
    forall i | 0 <= i < |order|
      ensures var now := IndexAt(put, files, order, pack, k);
              if i < k then Published(codec, now, order[i]) && Carries(codec, now, order[i], pack(order[i]).value)
              else Stubbed(codec, now, order[i])
    {
      StateOfCrate(codec, put, files, order, pack, k, i);
    }
  }

  lemma StateOfCrate(codec: Codec, put: Put, files: Files, order: seq<Package>, pack: Packager, k: nat, i: nat)
    requires codec.Lawful() && Upserts(put, codec) && NoDup(Names(order)) && Packaged(pack, order, k) && i < |order|
    requires forall p :: pack(p) != Some(PLACEHOLDER_CKSUM)
    ensures var now := IndexAt(put, files, order, pack, k);
            if i < k then Published(codec, now, order[i]) && Carries(codec, now, order[i], pack(order[i]).value)
            else Stubbed(codec, now, order[i])
  {
    var stubs, finals := Stubs(order), Finals(pack, order);
    forall j | 0 <= j < |order| && j != i ensures order[j].name != order[i].name {
      assert Names(order)[j] != Names(order)[i];
    }
    if i < k {
      UpsertAllSets(codec, put, UpsertAll(put, files, stubs, |order|), finals, k, i);
      assert finals[i].cksum != PLACEHOLDER_CKSUM by { assert pack(order[i]) != Some(PLACEHOLDER_CKSUM); }
    } else {
      UpsertAllSets(codec, put, files, stubs, |order|, i);
      UpsertAllKeeps(codec, put, UpsertAll(put, files, stubs, |order|), finals, k, order[i].name, order[i].version);
    }
  }

  /** Versions outside the publish set keep, through both phases, the record they had at the start. */
  lemma OthersKeepRecord(codec: Codec, put: Put, files: Files, order: seq<Package>, pack: Packager, k: nat,
                         name: string, vers: string)
    requires codec.Lawful() && Upserts(put, codec) && k <= |order|
    requires forall i :: 0 <= i < |order| ==> !(order[i].name == name && order[i].version == vers)
    ensures Recorded(codec, IndexAt(put, files, order, pack, k), name, vers) == Recorded(codec, files, name, vers)
    ensures Recorded(codec, UpsertAll(put, files, Stubs(order), k), name, vers) == Recorded(codec, files, name, vers)
  {
    UpsertAllKeeps(codec, put, files, Stubs(order), k, name, vers);
    UpsertAllKeeps(codec, put, files, Stubs(order), |order|, name, vers);
    UpsertAllKeeps(codec, put, UpsertAll(put, files, Stubs(order), |order|), Finals(pack, order), k, name, vers);
  }

  /** When no crate is named, the members marked `publish = false` keep their records through both phases. */
  lemma UnpublishableUntouched(codec: Codec, put: Put, files: Files, members: seq<Package>, pack: Packager, k: nat,
                               p: Package)
    requires codec.Lawful() && Upserts(put, codec) && Workspace(members) && Plan(members, []).Ok?
    requires p in members && p.publish == Some([])
    requires forall n :: n in Plan(members, []).value ==> n in ByName(members)
    requires k <= |Plan(members, []).value|
    ensures var order := Ordered(members, Plan(members, []).value);
            && Recorded(codec, IndexAt(put, files, order, pack, k), p.name, p.version)
               == Recorded(codec, files, p.name, p.version)
            && Recorded(codec, UpsertAll(put, files, Stubs(order), k), p.name, p.version)
               == Recorded(codec, files, p.name, p.version)
  {
    var names, order := Plan(members, []).value, Ordered(members, Plan(members, []).value);
    ByNameFinds(members);
    PlanCorrect(members, []);
    forall i | 0 <= i < |order| ensures order[i].name != p.name {
      assert names[i] in names;
      var q :| Chosen(members, [], q) && q.name == names[i];
      if p.name == q.name {
        OneMoreMember(members, p);
      }
    }
    OthersKeepRecord(codec, put, files, order, pack, k, p.name, p.version);
  }

  /** In every state of phase 2, whatever a published crate needs from the publish set is published too. */
  lemma PublishedIsClosed(codec: Codec, put: Put, files: Files, members: seq<Package>, packages: seq<string>,
                          pack: Packager, k: nat)
    requires codec.Lawful() && Upserts(put, codec) && Workspace(members) && Plan(members, packages).Ok?
    requires forall n :: n in Plan(members, packages).value ==> n in ByName(members)
    requires Packaged(pack, Ordered(members, Plan(members, packages).value), k)
    requires forall p :: pack(p) != Some(PLACEHOLDER_CKSUM)
    ensures var selected := Select(members, packages).value;
            var now := IndexAt(put, files, Ordered(members, Plan(members, packages).value), pack, k);
            forall p, d, q :: p in selected && Published(codec, now, p)
                              && d in p.dependencies && !d.kind.Development? && q in selected && q.name == d.name ==>
              Published(codec, now, q)
  {
    var order, selected := Ordered(members, Plan(members, packages).value), Select(members, packages).value;
    var now := IndexAt(put, files, order, pack, k);
    PlanListsSelected(members, packages);
    PlanMeetsNeeds(members, packages);
    PublishedIsPrefix(codec, put, files, order, pack, k);
    forall p, d, q | p in selected && Published(codec, now, p)
                     && d in p.dependencies && !d.kind.Development? && q in selected && q.name == d.name
      ensures Published(codec, now, q)
    {
      PublishedBefore(codec, now, order, k, p, d, q);
    }
  }

  lemma PublishedBefore(codec: Codec, now: Files, order: seq<Package>, k: nat, p: Package, d: Dependency, q: Package)
    requires k <= |order| && NoDup(Names(order)) && p in order && q in order
    requires forall i :: 0 <= i < |order| ==> NeedsMet(order, i)
    requires forall i :: 0 <= i < |order| ==>
               if i < k then Published(codec, now, order[i]) else Stubbed(codec, now, order[i])
    requires Published(codec, now, p) && d in p.dependencies && !d.kind.Development? && q.name == d.name
    ensures Published(codec, now, q)
  {
    var i :| 0 <= i < |order| && order[i] == p;
    var j :| 0 <= j < |order| && order[j] == q;
    assert i < k by {
      if i >= k {
        StubbedIsUnpublished(codec, now, p);
      }
    }
    assert NeedsMet(order, i) && Names(order)[j] == d.name;
    assert d.name in Names(order)[..i];
    var m :| 0 <= m < i && Names(order)[m] == d.name;
    assert m == j;
  }

  // ---- The command --------------------------------------------------------------------------

  /** The files before the upserts and after each of the first n. */
  ghost function States(put: Put, files: Files, entries: seq<IndexEntry>, n: nat): (states: seq<Files>)
    requires n <= |entries|
    ensures |states| == n + 1
  {
    if n == 0 then [files] else States(put, files, entries, n - 1) + [UpsertAll(put, files, entries, n)]
  }

  lemma {:induction false} StatesAt(put: Put, files: Files, entries: seq<IndexEntry>, n: nat, k: nat)
    requires k <= n <= |entries|
    ensures States(put, files, entries, n)[k] == UpsertAll(put, files, entries, k)
  {
    if k < n {
      StatesAt(put, files, entries, n - 1, k);
    }
  }

  /** Phase 1: register a stub for every crate; history lists the index before and after each. */
  method RegisterStubs(index: Index, order: seq<Package>) returns (ghost history: seq<Files>)
    requires index.Valid()
    modifies index
    ensures history == States(index.put, old(index.files), Stubs(order), |order|)
    ensures index.files == UpsertAll(index.put, old(index.files), Stubs(order), |order|)
  {
    history := [index.files];
    for i := 0 to |order|
      invariant history == States(index.put, old(index.files), Stubs(order), i)
      invariant index.files == UpsertAll(index.put, old(index.files), Stubs(order), i)
    {
      index.UpsertEntry(BuildIndexEntry(order[i], PLACEHOLDER_CKSUM));
      history := history + [index.files];
    }
  }

  /** Every state that the index passes through from the end of phase 1 on, when it started as files. */
  ghost predicate Passed(history: seq<Files>, put: Put, files: Files, order: seq<Package>, pack: Packager) {
    && history != [] && Packaged(pack, order, |history| - 1)
    && history == States(put, UpsertAll(put, files, Stubs(order), |order|), Finals(pack, order), |history| - 1)
  }

  /** Every state passed through is the index after all stubs and some number of packaged crates. */
  lemma PassedStates(history: seq<Files>, put: Put, files: Files, order: seq<Package>, pack: Packager, k: nat)
    requires Passed(history, put, files, order, pack) && k < |history|
    ensures Packaged(pack, order, k) && history[k] == IndexAt(put, files, order, pack, k)
  {
    StatesAt(put, UpsertAll(put, files, Stubs(order), |order|), Finals(pack, order), |history| - 1, k);
  }

  lemma PackagedNext(pack: Packager, order: seq<Package>, k: nat)
    requires Packaged(pack, order, k) && k < |order| && pack(order[k]).Some?
    ensures Packaged(pack, order, k + 1)
  {
  }

  /** The commits after the crates before the n-th succeeded. */
  ghost predicate Committed(commit: nat -> bool, n: nat) {
    forall k :: 1 <= k < n ==> commit(k)
  }

  /** Phase 2: package each crate and record its checksum at once; history lists the index before the first
      crate and after each that was recorded. */
  method PackageAll(index: Index, order: seq<Package>, pack: Packager, commit: nat -> bool)
    returns (r: Result<(), PublishError>, ghost history: seq<Files>)
    requires index.Valid()
    modifies index
    ensures history != [] && Packaged(pack, order, |history| - 1)
    ensures history == States(index.put, old(index.files), Finals(pack, order), |history| - 1)
    ensures index.files == history[|history| - 1]
    ensures r.Ok? ==> |history| == |order| + 1 && Committed(commit, |history|)
    ensures r.Err? ==> || (r.error == CommitFailed && |history| > 1 && Committed(commit, |history| - 1)
                           && !commit(|history| - 1))
                       || (|history| <= |order| && Committed(commit, |history|) && pack(order[|history| - 1]).None?
                           && r.error == PackagingFailed(order[|history| - 1].name))
  {
    ghost var finals := Finals(pack, order);
    history := [index.files];
    for i := 0 to |order|
      invariant |history| == i + 1 && Packaged(pack, order, i) && Committed(commit, i + 1)
      invariant history == States(index.put, old(index.files), finals, i)
      invariant index.files == history[i] && index.files == UpsertAll(index.put, old(index.files), finals, i)
    {
      var cksum := pack(order[i]);
      if cksum.None? {
        return Err(PackagingFailed(order[i].name)), history;
      }
      index.UpsertEntry(BuildIndexEntry(order[i], cksum.value));
      PackagedNext(pack, order, i);
      history := history + [index.files];
      if !commit(i + 1) {
        return Err(CommitFailed), history;
      }
    }
    return Ok(()), history;
  }

  /** In every state of phase 1, the crates of the publish set with a real checksum are those that had one before and
      whose stub is still to come. */
  lemma StubbingUnpublishes(codec: Codec, put: Put, files: Files, order: seq<Package>)
    requires codec.Lawful() && Upserts(put, codec) && NoDup(Names(order))
    ensures var history := States(put, files, Stubs(order), |order|);
            forall k, i :: 0 <= k < |history| && 0 <= i < |order| ==>
              (Published(codec, history[k], order[i]) <==> i >= k && Published(codec, files, order[i]))
  {
    var stubs, history := Stubs(order), States(put, files, Stubs(order), |order|);
    forall k, i | 0 <= k < |history| && 0 <= i < |order|
      ensures Published(codec, history[k], order[i]) <==> i >= k && Published(codec, files, order[i])
    {
      StatesAt(put, files, stubs, |order|, k);
      forall j | 0 <= j < |order| && j != i ensures order[j].name != order[i].name {
        assert Names(order)[j] != Names(order)[i];
      }
      if i < k {
        UpsertAllSets(codec, put, files, stubs, k, i);
        StubbedIsUnpublished(codec, history[k], order[i]);
      } else {
        UpsertAllKeeps(codec, put, files, stubs, k, order[i].name, order[i].version);
      }
    }
  }

  /** In every state from the end of phase 1 on, the crates of the publish set with a real checksum are exactly the
      first so many of the order; a run that packages all of them leaves no placeholder. */
  lemma EveryStateIsPrefix(codec: Codec, put: Put, history: seq<Files>, files: Files, order: seq<Package>,
                           pack: Packager)
    requires codec.Lawful() && Upserts(put, codec) && NoDup(Names(order))
    requires forall p :: pack(p) != Some(PLACEHOLDER_CKSUM)
    requires Passed(history, put, files, order, pack)
    ensures forall k, i :: 0 <= k < |history| && 0 <= i < |order| ==>
              (Published(codec, history[k], order[i]) <==> i < k)
    ensures |history| == |order| + 1 ==>
              forall i :: 0 <= i < |order| ==> Published(codec, history[|history| - 1], order[i])
  {
    forall k, i | 0 <= k < |history| && 0 <= i < |order| ensures Published(codec, history[k], order[i]) <==> i < k {
      PassedStates(history, put, files, order, pack, k);
      StateOfCrate(codec, put, files, order, pack, k, i);
      if i >= k {
        StubbedIsUnpublished(codec, history[k], order[i]);
      }
    }
  }

  /** Select, build the dependency map, sort. */
  method MakePlan(members: seq<Package>, packages: seq<string>) returns (r: Result<seq<string>, PublishError>)
    requires Workspace(members)
    ensures r == Plan(members, packages)
  {
    var selected := Select(members, packages);
    if selected.Err? {
      return Err(selected.error);
    }
    var toPublish := selected.value;
    if toPublish == [] {
      return Ok([]);
    }
    SelectedAreMembers(members, packages);
    ByNameFinds(members);
    var workspaceDeps := BuildWorkspaceDeps(toPublish, ByName(members));
    var sorted := TopologicalSort.TopologicalSort(Names(toPublish), workspaceDeps);
    r := if sorted.Err? then Err(Circular(sorted.error)) else Ok(sorted.value);
  }

  method Run(index: Index, members: seq<Package>, packages: seq<string>, dryRun: bool,
             pack: Packager, commit: nat -> bool)
    returns (r: Result<seq<string>, PublishError>, ghost stubbing: seq<Files>, ghost history: seq<Files>)
    requires index.Valid() && Workspace(members)
    modifies index
    ensures var plan := Plan(members, packages);
            if plan.Err? || dryRun || plan.value == [] then r == plan && index.files == old(index.files)
            else
              && (forall n :: n in plan.value ==> n in ByName(members))
              && stubbing == States(index.put, old(index.files), Stubs(Ordered(members, plan.value)), |plan.value|)
              && Passed(history, index.put, old(index.files), Ordered(members, plan.value), pack)
              && index.files == history[|history| - 1]
              && (r.Ok? ==> r == plan && |history| == |plan.value| + 1 && commit(0) && Committed(commit, |history|))
              && (r.Err? ==>
                    || (r.error == CommitFailed && (|history| > 1 ==> commit(0)) && Committed(commit, |history| - 1)
                        && !commit(|history| - 1))
                    || (|history| <= |plan.value| && commit(0) && Committed(commit, |history|)
                        && pack(ByName(members)[plan.value[|history| - 1]]).None?
                        && r.error == PackagingFailed(plan.value[|history| - 1])))
  {
    var plan := MakePlan(members, packages);
    if plan.Err? || plan.value == [] || dryRun {
      return plan, [], [];
    }
    var names, pkgMap := plan.value, ByName(members);
    PlanListsSelected(members, packages);
    var order := seq(|names|, i requires 0 <= i < |names| => pkgMap[names[i]]);
    assert order == Ordered(members, names);
    stubbing := RegisterStubs(index, order);
    if !commit(0) {
      return Err(CommitFailed), stubbing, [index.files];
    }
    var done;
    done, history := PackageAll(index, order, pack, commit);
    r := if done.Err? then Err(done.error) else plan;
  }
}
