/** `install(_jpmJson)` of src/commands/install.js: the `add` calls it issues, in order. The
    calls themselves are not executed here; the result is the list of their arguments. */
module Install {
  import opened Wrappers
  import opened JsObject
  import opened JpmJson

  /** The options object handed to `add`. `isPeer` is absent for direct dependencies. */
  datatype AddConfig = AddConfig(installPeers: bool, updateJpmJson: bool, isPeer: Option<bool>)

  datatype AddCall = AddCall(target: string, config: AddConfig)

  /** Reading `jpmJson.dependencies[repo]` when the manifest has no `dependencies` throws. */
  datatype InstallError = DependenciesMissing

  const Mvn := "mvn"

  /** The target handed to `add`: `artifact`, then `:version` unless the version is the
      latest-version marker, then `@repo`. */
  function Target(artifact: string, version: string, repo: string, latest: string): string {
    artifact + (if version != latest then ":" + version else "") + "@" + repo
  }

  /** The peers installed with `repo`: none for a repository other than Maven, else all the
      `mvnPeers` entries merged in order. */
  function PeerMap(m: Manifest, repo: string): Versions {
    if repo != Mvn then [] else Flatten(Values(m.mvnPeers.GetOr([])))
  }

  /** `Object.entries({ ...jpmJson.dependencies[repo] })`; spreading a missing section gives
      no entries. */
  function DirectEntries(deps: Object<Versions>, repo: string): Versions {
    Spread([], Get(deps, repo).GetOr([]))
  }

  /** `installEntries`: the direct dependencies with no extra option, then the peers with
      `isPeer: true`. */
  function InstallEntries(deps: Object<Versions>, m: Manifest, repo: string): seq<(Versions, Option<bool>)> {
    [(DirectEntries(deps, repo), None), (PeerMap(m, repo), Some(true))]
  }

  /** The calls for one group of entries. */
  function EntryCalls(entries: Versions, repo: string, config: AddConfig, latest: string): (calls: seq<AddCall>)
    ensures |calls| == |entries|
    ensures forall i :: 0 <= i < |entries| ==>
      calls[i] == AddCall(Target(entries[i].0, entries[i].1, repo, latest), config)
  {
    seq(|entries|, i requires 0 <= i < |entries| => AddCall(Target(entries[i].0, entries[i].1, repo, latest), config))
  }

  lemma EntryCallsSnoc(entries: Versions, e: nat, repo: string, config: AddConfig, latest: string)
    requires e < |entries|
    ensures EntryCalls(entries[..e + 1], repo, config, latest)
         == EntryCalls(entries[..e], repo, config, latest) + [AddCall(Target(entries[e].0, entries[e].1, repo, latest), config)]
  {
  }

  /** The calls for the groups in order; `passed` is whether a manifest was passed in. */
  function GroupCalls(groups: seq<(Versions, Option<bool>)>, repo: string, passed: bool, latest: string): seq<AddCall> {
    if groups == [] then []
    else
      var (entries, isPeer) := groups[|groups| - 1];
      GroupCalls(groups[..|groups| - 1], repo, passed, latest)
        + EntryCalls(entries, repo, AddConfig(!passed, !passed, isPeer), latest)
  }

  /** The calls issued for one repository. */
  function RepoCalls(deps: Object<Versions>, m: Manifest, repo: string, passed: bool, latest: string): seq<AddCall> {
    GroupCalls(InstallEntries(deps, m, repo), repo, passed, latest)
  }

  /** The calls issued for the repositories in order. */
  function Calls(deps: Object<Versions>, m: Manifest, repos: seq<string>, passed: bool, latest: string): seq<AddCall> {
    if repos == [] then []
    else Calls(deps, m, repos[..|repos| - 1], passed, latest) + RepoCalls(deps, m, repos[|repos| - 1], passed, latest)
  }

  /** What `install(given)` issues, reading `stored` when no manifest is passed. */
  function Plan(given: Option<Manifest>, stored: Manifest, repos: seq<string>, latest: string): Result<seq<AddCall>, InstallError> {
    var m := given.GetOr(stored);
    if repos == [] then Success([])
    else if m.dependencies.None? then Failure(DependenciesMissing)
    else Success(Calls(m.dependencies.value, m, repos, given.Some?, latest))
  }

  /** `install(_jpmJson)`. */
  method Install(given: Option<Manifest>, stored: Manifest, repositories: seq<string>, latest: string)
    returns (r: Result<seq<AddCall>, InstallError>)
    ensures r == Plan(given, stored, repositories, latest)
  {
    var m := if given.Some? then given.value else stored;
    var passed := given.Some?;
    var calls: seq<AddCall> := [];
    for k := 0 to |repositories|
      invariant k > 0 ==> m.dependencies.Some?
      invariant calls == if k == 0 then [] else Calls(m.dependencies.value, m, repositories[..k], passed, latest)
    {
      if m.dependencies.None? {
        return Failure(DependenciesMissing);
      }
      var issued := InstallRepository(m.dependencies.value, m, repositories[k], passed, latest);
      CallsSnoc(m.dependencies.value, m, repositories, k, passed, latest);
      calls := calls + issued;
    }
    assert repositories[..|repositories|] == repositories;
    return Success(calls);
  }

  /** The body of the loop over the repositories: the entries of both groups, in order. */
  method InstallRepository(deps: Object<Versions>, m: Manifest, repo: string, passed: bool, latest: string)
    returns (calls: seq<AddCall>)
    ensures calls == RepoCalls(deps, m, repo, passed, latest)
  {
    var installEntries := InstallEntries(deps, m, repo);
    calls := [];
    for g := 0 to |installEntries|
      invariant calls == GroupCalls(installEntries[..g], repo, passed, latest)
    {
      var (entries, isPeer) := installEntries[g];
      var more := InstallGroup(entries, repo, AddConfig(!passed, !passed, isPeer), latest);
      calls := calls + more;
      assert installEntries[..g + 1][..g] == installEntries[..g];
    }
    assert installEntries[..|installEntries|] == installEntries;
  }

  /** The inner loop of `install`: one `add` per entry of a group, in the group's order. */
  method InstallGroup(entries: Versions, repo: string, config: AddConfig, latest: string)
    returns (calls: seq<AddCall>)
    ensures calls == EntryCalls(entries, repo, config, latest)
  {
    calls := [];
    for e := 0 to |entries|
      invariant calls == EntryCalls(entries[..e], repo, config, latest)
    {
      var (artifact, version) := entries[e];
      EntryCallsSnoc(entries, e, repo, config, latest);
      calls := calls + [AddCall(Target(artifact, version, repo, latest), config)];
    }
    assert entries[..|entries|] == entries;
  }

  // ---------------------------------------------------------------- properties of the plan

  /** For one repository: first one call per direct dependency, in the section's order and with
      no `isPeer`; then one call per peer, with `isPeer: true`. Both flags are set exactly when
      no manifest was passed in. */
  lemma RepoCallsLayout(deps: Object<Versions>, m: Manifest, repo: string, passed: bool, latest: string)
    ensures var direct, peers := DirectEntries(deps, repo), PeerMap(m, repo);
      var calls := RepoCalls(deps, m, repo, passed, latest);
      && |calls| == |direct| + |peers|
      && (forall i :: 0 <= i < |direct| ==>
            calls[i] == AddCall(Target(direct[i].0, direct[i].1, repo, latest), AddConfig(!passed, !passed, None)))
      && (forall i :: 0 <= i < |peers| ==>
            calls[|direct| + i] == AddCall(Target(peers[i].0, peers[i].1, repo, latest), AddConfig(!passed, !passed, Some(true))))
  {
    var groups := InstallEntries(deps, m, repo);
    var config := AddConfig(!passed, !passed, None);
    assert GroupCalls(groups[..1], repo, passed, latest) == EntryCalls(DirectEntries(deps, repo), repo, config, latest) by {
      assert groups[..1][..0] == [];
    }
  }

  /** A well-formed section is installed as it stands; a missing one contributes nothing. */
  lemma DirectEntriesAreSection(deps: Object<Versions>, repo: string)
    requires NestedWf(deps)
    ensures DirectEntries(deps, repo) == Get(deps, repo).GetOr([])
  {
    if repo in Keys(deps) {
      GetAt(deps, repo);
      SpreadCopy(deps[IndexOf(deps, repo)].1);
    }
  }

  /** Outside Maven no peer is installed. */
  lemma NoPeersOutsideMaven(deps: Object<Versions>, m: Manifest, repo: string, passed: bool, latest: string)
    requires repo != Mvn
    ensures forall c :: c in RepoCalls(deps, m, repo, passed, latest) ==> c.config.isPeer.None?
  {
    RepoCallsLayout(deps, m, repo, passed, latest);
  }

  /** For Maven the peer map is the merge of all `mvnPeers` values in order, a later value
      winning on a duplicate artifact. */
  lemma {:induction false} PeerMapLaterWins(m: Manifest, artifact: string)
    requires WellFormed(m)
    ensures Get(PeerMap(m, Mvn), artifact) == LastBinding(Values(m.mvnPeers.GetOr([])), artifact)
  {
    var peers := Values(m.mvnPeers.GetOr([]));
    assert forall i :: 0 <= i < |peers| ==> Wf(peers[i]);
    FlattenLaterWins(peers, artifact);
  }

  /** The repositories are handled one after the other. */
  lemma {:induction false} CallsAppend(deps: Object<Versions>, m: Manifest, a: seq<string>, b: seq<string>, passed: bool, latest: string)
    ensures Calls(deps, m, a + b, passed, latest) == Calls(deps, m, a, passed, latest) + Calls(deps, m, b, passed, latest)
    decreases |b|
  {
    if b == [] {
      assert a + b == a;
    } else {
      var init := b[..|b| - 1];
      assert (a + b)[..|a + b| - 1] == a + init;
      CallsAppend(deps, m, a, init, passed, latest);
    }
  }

  /** One more repository appends its calls. */
  lemma CallsSnoc(deps: Object<Versions>, m: Manifest, repos: seq<string>, k: nat, passed: bool, latest: string)
    requires k < |repos|
    ensures Calls(deps, m, repos[..k + 1], passed, latest)
         == Calls(deps, m, repos[..k], passed, latest) + RepoCalls(deps, m, repos[k], passed, latest)
  {
    assert repos[..k + 1][..k] == repos[..k];
  }

  /** The calls for repository `i` sit between those of the repositories before it and those
      after it. */
  lemma CallsPerRepository(deps: Object<Versions>, m: Manifest, repos: seq<string>, i: nat, passed: bool, latest: string)
    requires i < |repos|
    ensures Calls(deps, m, repos, passed, latest)
         == Calls(deps, m, repos[..i], passed, latest) + RepoCalls(deps, m, repos[i], passed, latest)
            + Calls(deps, m, repos[i + 1..], passed, latest)
  {
    assert repos == repos[..i] + [repos[i]] + repos[i + 1..];
    CallsAppend(deps, m, repos[..i] + [repos[i]], repos[i + 1..], passed, latest);
    CallsAppend(deps, m, repos[..i], [repos[i]], passed, latest);
    assert Calls(deps, m, [repos[i]], passed, latest) == RepoCalls(deps, m, repos[i], passed, latest) by {
      assert [repos[i]][..0] == [];
    }
  }

  /** Within one repository both flags of every call are `!passed`. */
  lemma RepoCallsFlags(deps: Object<Versions>, m: Manifest, repo: string, passed: bool, latest: string)
    ensures forall c :: c in RepoCalls(deps, m, repo, passed, latest) ==>
      c.config.installPeers == !passed && c.config.updateJpmJson == !passed
  {
    var calls := RepoCalls(deps, m, repo, passed, latest);
    var direct := DirectEntries(deps, repo);
    RepoCallsLayout(deps, m, repo, passed, latest);
    forall c | c in calls
      ensures c.config.installPeers == !passed && c.config.updateJpmJson == !passed
    {
      var i :| 0 <= i < |calls| && calls[i] == c;
      if i >= |direct| {
        assert calls[|direct| + (i - |direct|)] == c;
      }
    }
  }

  /** `installPeers` and `updateJpmJson` are both set on every call exactly when `install` was
      called without a manifest. */
  lemma {:induction false} FlagsFollowArgument(deps: Object<Versions>, m: Manifest, repos: seq<string>, passed: bool, latest: string)
    ensures forall c :: c in Calls(deps, m, repos, passed, latest) ==>
      c.config.installPeers == !passed && c.config.updateJpmJson == !passed
  {
    if repos != [] {
      var init := Calls(deps, m, repos[..|repos| - 1], passed, latest);
      var last := RepoCalls(deps, m, repos[|repos| - 1], passed, latest);
      assert Calls(deps, m, repos, passed, latest) == init + last;
      FlagsFollowArgument(deps, m, repos[..|repos| - 1], passed, latest);
      RepoCallsFlags(deps, m, repos[|repos| - 1], passed, latest);
    }
  }

  /** Passing no repository issues nothing; otherwise a manifest without `dependencies` fails
      before any call. */
  lemma PlanFailsOnlyWithoutDependencies(given: Option<Manifest>, stored: Manifest, repos: seq<string>, latest: string)
    ensures Plan(given, stored, repos, latest).Failure? <==> repos != [] && given.GetOr(stored).dependencies.None?
  {
  }
}
