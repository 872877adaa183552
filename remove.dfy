/** `remove(artifactRef)` of src/commands/remove.js: parse the reference, validate it, drop the
    dependency and the recorded Maven peers from the manifest, clear the install directories,
    write the manifest back and reinstall from it. */
module Remove {
  import opened Wrappers
  import opened JsText
  import opened JsObject
  import opened JpmJson
  import opened Install

  /** The repository and the artifact a reference names. */
  datatype Reference = Reference(repo: string, artifact: string)

  const DefaultRepository := "npm"

  /** A reference whose fourth character from the end is `@` names the repository after it;
      any other reference is an npm artifact. */
  function ParseReference(ref: string): Reference {
    if Slice(ref, -4, -3) == "@" then Reference(Slice(ref, -3, |ref|), Slice(ref, 0, -4))
    else Reference(DefaultRepository, ref)
  }

  /** The same parse, stated on positions. */
  lemma ParseReferenceShape(ref: string)
    ensures ParseReference(ref)
         == if |ref| >= 4 && ref[|ref| - 4] == '@' then Reference(ref[|ref| - 3..], ref[..|ref| - 4])
            else Reference(DefaultRepository, ref)
  {
    if |ref| >= 4 {
      assert Slice(ref, -4, -3) == [ref[|ref| - 4]];
    } else {
      assert Slice(ref, -4, -3) == [];
    }
  }

  datatype RemoveError =
    | UnknownRepository(repo: string)
    | Usage
    | TypeError   // `delete` through a missing `dependencies` or `dependencies[repo]`

  function Message(e: RemoveError): string {
    match e
    case UnknownRepository(repo) => "Package repository " + repo + " does not exist."
    case Usage => "Usage: jpm remove pkg-name@repo"
    case TypeError => "TypeError"
  }

  /** `REPOSITORIES.map(r => `@${r}`)`. */
  function Prefixed(repos: seq<string>): (r: seq<string>)
    ensures |r| == |repos| && forall i :: 0 <= i < |repos| ==> r[i] == "@" + repos[i]
  {
    seq(|repos|, i requires 0 <= i < |repos| => "@" + repos[i])
  }

  /** The membership test on prefixed names is membership of the repository itself. */
  lemma KnownRepository(repos: seq<string>, repo: string)
    ensures "@" + repo in Prefixed(repos) <==> repo in repos
  {
    if "@" + repo in Prefixed(repos) {
      var i :| 0 <= i < |repos| && Prefixed(repos)[i] == "@" + repo;
      assert repos[i] == ("@" + repos[i])[1..] == ("@" + repo)[1..] == repo;
    }
    if repo in repos {
      var i :| 0 <= i < |repos| && repos[i] == repo;
      assert Prefixed(repos)[i] == "@" + repo;
    }
  }

  /** The manifest after the two `delete`s. */
  function Removed(m: Manifest, repo: string, artifact: string): Result<Manifest, RemoveError> {
    match m.dependencies
    case None => Failure(TypeError)
    case Some(deps) =>
      match Get(deps, repo)
      case None => Failure(TypeError)
      case Some(section) => Success(m.(dependencies := Some(Put(deps, repo, Delete(section, artifact))), mvnPeers := None))
  }

  /** An observable effect of `remove`. */
  datatype RemoveEffect =
    | RemovePackageDirectory
    | RemoveLibDirectory
    | WriteManifest(manifest: Manifest)
    | Reinstall(plan: Result<seq<AddCall>, InstallError>)   // `install()` reading the manifest just written

  /** Everything `remove(ref)` does with the manifest `stored`. */
  function RemoveOutcome(ref: string, stored: Manifest, repos: seq<string>, latest: string): Result<seq<RemoveEffect>, RemoveError> {
    var r := ParseReference(ref);
    if "@" + r.repo !in Prefixed(repos) then Failure(UnknownRepository(r.repo))
    else if |Split(r.artifact, ':')| > 2 then Failure(Usage)
    else
      match Removed(stored, r.repo, r.artifact)
      case Failure(e) => Failure(e)
      case Success(written) =>
        Success([RemovePackageDirectory, RemoveLibDirectory, WriteManifest(written), Reinstall(Plan(None, written, repos, latest))])
  }

  /** `remove(artifactRef)`, with `stored` the manifest `JPM_JSON.read()` returns. */
  method Remove(ref: string, stored: Manifest, repositories: seq<string>, latest: string)
    returns (r: Result<seq<RemoveEffect>, RemoveError>)
    ensures r == RemoveOutcome(ref, stored, repositories, latest)
  {
    var jpmJson := stored;
    var reference := ParseReference(ref);
    var repo, artifact := reference.repo, reference.artifact;
    if "@" + repo !in Prefixed(repositories) {
      return Failure(UnknownRepository(repo));
    }
    var split := Split(artifact, ':');
    if |split| > 2 {
      return Failure(Usage);
    }
    if jpmJson.dependencies.None? || Get(jpmJson.dependencies.value, repo).None? {
      return Failure(TypeError);
    }
    var deps := jpmJson.dependencies.value;
    jpmJson := jpmJson.(dependencies := Some(Put(deps, repo, Delete(Get(deps, repo).value, artifact))));
    jpmJson := jpmJson.(mvnPeers := None);
    assert Removed(stored, repo, artifact) == Success(jpmJson);
    var effects := [RemovePackageDirectory, RemoveLibDirectory, WriteManifest(jpmJson)];
    var plan := Install.Install(None, jpmJson, repositories, latest);
    assert effects + [Reinstall(plan)] == [RemovePackageDirectory, RemoveLibDirectory, WriteManifest(jpmJson), Reinstall(plan)];
    return Success(effects + [Reinstall(plan)]);
  }

  // ---------------------------------------------------------------- properties

  /** The errors, in the order they are checked: an unknown repository, then an artifact with
      more than one `:`, then a manifest without the repository's section. Each is raised
      before anything is removed or written, so a failure carries no effect. */
  lemma RemoveErrors(ref: string, stored: Manifest, repos: seq<string>, latest: string)
    ensures var r := ParseReference(ref);
      var out := RemoveOutcome(ref, stored, repos, latest);
      && (out == Failure(UnknownRepository(r.repo)) <==> r.repo !in repos)
      && (out == Failure(Usage) <==> r.repo in repos && Count(r.artifact, ':') >= 2)
      && (out == Failure(TypeError) <==>
            r.repo in repos && Count(r.artifact, ':') < 2
            && (stored.dependencies.None? || r.repo !in Keys(stored.dependencies.value)))
  {
    KnownRepository(repos, ParseReference(ref).repo);
  }

  /** A reference naming an unlisted repository is rejected with a message naming that
      repository. */
  lemma RejectionNamesRepository(ref: string, stored: Manifest, repos: seq<string>, latest: string)
    requires ParseReference(ref).repo !in repos
    ensures var out := RemoveOutcome(ref, stored, repos, latest);
      out.Failure? && Message(out.error) == "Package repository " + ParseReference(ref).repo + " does not exist."
  {
    KnownRepository(repos, ParseReference(ref).repo);
  }

  /** On success the written manifest differs from the one read only in that the artifact is
      gone from its repository's section and `mvnPeers` is gone: every other field, every other
      repository's section and every other artifact of the section stay as they were, and the
      repositories keep their order. */
  lemma RemoveChangesOneKey(ref: string, stored: Manifest, repos: seq<string>, latest: string)
    requires RemoveOutcome(ref, stored, repos, latest).Success?
    ensures var r := ParseReference(ref);
      var effects := RemoveOutcome(ref, stored, repos, latest).value;
      var written := effects[2].manifest;
      var deps, deps' := stored.dependencies.value, written.dependencies.value;
      && |effects| == 4 && effects[..2] == [RemovePackageDirectory, RemoveLibDirectory] && effects[2].WriteManifest?
      && written.otherFields == stored.otherFields
      && written.mvnPeers.None?
      && Keys(deps') == Keys(deps)
      && (forall repo :: repo != r.repo ==> Get(deps', repo) == Get(deps, repo))
      && Get(Get(deps', r.repo).value, r.artifact).None?
      && (forall a :: a != r.artifact ==> Get(Get(deps', r.repo).value, a) == Get(Get(deps, r.repo).value, a))
      && Keys(Get(deps', r.repo).value) == Without(Keys(Get(deps, r.repo).value), r.artifact)
  {
    var r := ParseReference(ref);
    var deps := stored.dependencies.value;
    var section := Get(deps, r.repo).value;
    PutKeys(deps, r.repo, Delete(section, r.artifact));
    forall repo | repo != r.repo
      ensures Get(Put(deps, r.repo, Delete(section, r.artifact)), repo) == Get(deps, repo)
    {
      PutKeepsOthers(deps, r.repo, Delete(section, r.artifact), repo);
    }
    forall a | a != r.artifact
      ensures Get(Delete(section, r.artifact), a) == Get(section, a)
    {
      DeleteKeepsOthers(section, r.artifact, a);
    }
    DeleteKeys(section, r.artifact);
  }

  /** `install()` then reads the written manifest: it installs no peer, and the removed
      artifact is no longer among the repository's entries. */
  lemma ReinstallAfterRemove(ref: string, stored: Manifest, repos: seq<string>, latest: string)
    requires WellFormed(stored)
    requires RemoveOutcome(ref, stored, repos, latest).Success?
    ensures var r := ParseReference(ref);
      var written := RemoveOutcome(ref, stored, repos, latest).value[2].manifest;
      && RemoveOutcome(ref, stored, repos, latest).value[3] == Reinstall(Plan(None, written, repos, latest))
      && Plan(None, written, repos, latest).Success?
      && PeerMap(written, Mvn) == []
      && r.artifact !in Keys(DirectEntries(written.dependencies.value, r.repo))
  {
    var r := ParseReference(ref);
    var deps := stored.dependencies.value;
    var section := Get(deps, r.repo).value;
    var written := RemoveOutcome(ref, stored, repos, latest).value[2].manifest;
    GetAt(deps, r.repo);
    DeleteWf(section, r.artifact);
    SpreadGet([], Delete(section, r.artifact), r.artifact);
    assert Get(Delete(section, r.artifact), r.artifact).None?;
    assert Get(written.dependencies.value, r.repo) == Some(Delete(section, r.artifact));
  }

  /** A target that `install` hands to `add` for a three-letter repository parses back, as a
      reference, to that repository and the artifact with its version. */
  lemma InstallTargetParsesBack(artifact: string, version: string, repo: string, latest: string)
    requires |repo| == 3
    ensures ParseReference(Target(artifact, version, repo, latest))
         == Reference(repo, artifact + if version != latest then ":" + version else "")
  {
    var head := artifact + if version != latest then ":" + version else "";
    var t := Target(artifact, version, repo, latest);
    assert t == head + "@" + repo;
    ParseReferenceShape(t);
    assert t[|t| - 4] == '@' && t[|t| - 3..] == repo && t[..|t| - 4] == head;
  }

  /** Such a target also passes the usage check when neither the artifact nor the version
      contains `:`. */
  lemma InstallTargetPassesUsage(artifact: string, version: string, repo: string, latest: string)
    requires |repo| == 3 && ':' !in artifact && ':' !in version
    ensures |Split(ParseReference(Target(artifact, version, repo, latest)).artifact, ':')| <= 2
  {
    InstallTargetParsesBack(artifact, version, repo, latest);
    CountAbsent(artifact, ':');
    if version != latest {
      CountAppend(artifact, ":" + version, ':');
      CountAppend(":", version, ':');
      CountAbsent(version, ':');
    }
  }
}
