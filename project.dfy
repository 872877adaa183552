/** The `Project` class of src/mvn/project.ts: a Maven project's coordinate, its memoised POM,
    the one-level dependency resolver and the JAR downloads. The network, the local
    repository, the XML parser, `path.join` and the helpers imported from `./index` are not
    part of this model; they are the fields of an `Env` that every operation receives. */
module MavenProject {
  import opened Wrappers
  import opened Coordinates
  import opened Poms

  /** What the operations throw. `Thrown` carries whatever a collaborator threw. */
  datatype Error =
    | MvnConnection                       // ERR_MVN_CONNECTION
    | ProjectNotFound(endpoint: string)   // errorProjectNotFound(endpoint)
    | IllegalNumberOfArgs                 // Error('illegal number of args')
    | Thrown(reason: string)

  datatype SearchDoc = SearchDoc(latestVersion: string)

  /** The search response: its `ok` flag, and the `response.docs` of its JSON body (which is
      read only when `ok`). */
  datatype SearchReply = SearchReply(ok: bool, docs: Result<seq<SearchDoc>, Error>)

  /** What the helpers that take a whole `Project` can see of it. */
  datatype Snapshot = Snapshot(coordinate: Coordinate, pom: Option<Pom>)

  /** The collaborators, each as the function of its arguments that it is assumed to be. */
  datatype Env = Env(
    search: string -> Result<SearchReply, Error>,          // fetch(endpoint) for the search query
    fetchText: string -> Result<string, Error>,            // (await fetch(url)).text()
    parsePom: string -> Result<Pom, Error>,                // parsePom({ xmlContent })
    localHasProject: Coordinate -> bool,                   // localRepo.isProjectExists
    localPom: Coordinate -> Result<string, Error>,         // localRepo.getPOM
    localCopyJar: (Coordinate, string) -> bool,            // localRepo.downloadJAR returned without throwing
    download: (string, string) -> Result<(), Error>,       // download(url, path)
    makeDirectory: string -> Result<(), Error>,            // mkdirIfNotExist(path)
    join: (string, string) -> string,                      // path.join
    resolveVersion: VersionResolver,
    mergeProperties: (Snapshot, seq<Snapshot>) -> Properties,
    mergeManagement: (Snapshot, seq<Snapshot>) -> seq<Dependency>,   // mergeDependenciesManagement
    fetchParent: Pom -> Result<seq<Snapshot>, Error>,
    filterDependencies: seq<Dependency> -> seq<Dependency>)

  /** An observable effect of the JAR download. */
  datatype Effect =
    | MakeDirectory(path: string)
    | CopiedFromLocal(coordinate: Coordinate, destination: string)
    | Downloaded(url: string, destination: string)

  // ---------------------------------------------------------------- latest version and POM

  /** `getLatestProjectVersion`. */
  function LatestVersion(c: Coordinate, env: Env): Result<string, Error> {
    var endpoint := c.SearchEndpoint();
    match env.search(endpoint)
    case Failure(e) => Failure(e)
    case Success(reply) =>
      if !reply.ok then Failure(MvnConnection)
      else
        match reply.docs
        case Failure(e) => Failure(e)
        case Success(docs) =>
          if |docs| == 0 then Failure(ProjectNotFound(endpoint)) else Success(docs[0].latestVersion)
  }

  /** The POM read and parsed from the local repository. */
  function LocalPom(c: Coordinate, env: Env): Result<Pom, Error> {
    match env.localPom(c)
    case Failure(e) => Failure(e)
    case Success(xml) => env.parsePom(xml)
  }

  /** The POM fetched from the central repository and parsed. */
  function RemotePom(c: Coordinate, env: Env): Result<Pom, Error> {
    match env.fetchText(c.PomUrl(CentralRepository))
    case Failure(e) => Failure(e)
    case Success(text) => env.parsePom(text)
  }

  /** The local repository when it has the project and its POM parses, the network otherwise. */
  function PomAt(c: Coordinate, env: Env): Result<Pom, Error> {
    if env.localHasProject(c) && LocalPom(c, env).Success? then LocalPom(c, env) else RemotePom(c, env)
  }

  /** `getPOM` as a change of the project's state, with its result. */
  function GetPomStep(s: Snapshot, env: Env): (r: (Snapshot, Result<Pom, Error>))
    ensures r.0.coordinate.groupID == s.coordinate.groupID
    ensures r.0.coordinate.artifactID == s.coordinate.artifactID
    ensures s.pom.Some? ==> r == (s, Success(s.pom.value))
    ensures s.pom.None? ==> r.0.pom == if r.1.Success? then Some(r.1.value) else None
    ensures s.pom.None? && s.coordinate.version != Latest ==> r.0.coordinate == s.coordinate
  {
    if s.pom.Some? then (s, Success(s.pom.value))
    else if s.coordinate.version == Latest then
      match LatestVersion(s.coordinate, env)
      case Failure(e) => (s, Failure(e))
      case Success(v) =>
        var c := s.coordinate.(version := v);
        var r := PomAt(c, env);
        (Snapshot(c, if r.Success? then Some(r.value) else None), r)
    else
      var r := PomAt(s.coordinate, env);
      (Snapshot(s.coordinate, if r.Success? then Some(r.value) else None), r)
  }

  /** A second `getPOM` after a successful one returns the same POM and changes nothing. */
  lemma GetPomMemoised(s: Snapshot, env: Env, later: Env)
    ensures var (s1, r1) := GetPomStep(s, env);
      r1.Success? ==> GetPomStep(s1, later) == (s1, r1)
  {
  }

  /** Once the POM is set, `getPOM` consults nothing: neither the search, the local
      repository nor the network. */
  lemma GetPomCachedNeedsNoLookup(s: Snapshot, env: Env, search: string -> Result<SearchReply, Error>,
                                  fetchText: string -> Result<string, Error>, localHasProject: Coordinate -> bool)
    requires s.pom.Some?
    ensures GetPomStep(s, env.(search := search, fetchText := fetchText, localHasProject := localHasProject))
         == GetPomStep(s, env)
  {
  }

  /** A concrete version is never searched for: only "latest" triggers the search. */
  lemma ConcreteVersionNeedsNoSearch(s: Snapshot, env: Env, search: string -> Result<SearchReply, Error>)
    requires s.coordinate.version != Latest
    ensures GetPomStep(s, env.(search := search)) == GetPomStep(s, env)
  {
  }

  /** "latest" is replaced by the looked-up version, and the POM is then looked up under that
      version. */
  lemma GetPomResolvesLatest(s: Snapshot, env: Env)
    requires s.pom.None? && s.coordinate.version == Latest
    ensures var (s1, r1) := GetPomStep(s, env);
      && (LatestVersion(s.coordinate, env).Failure? ==> s1 == s && r1 == Failure(LatestVersion(s.coordinate, env).error))
      && (LatestVersion(s.coordinate, env).Success? ==>
            && s1.coordinate == s.coordinate.(version := LatestVersion(s.coordinate, env).value)
            && r1 == PomAt(s1.coordinate, env))
  {
  }

  /** A POM that the local repository holds and that parses is taken without the network. */
  lemma LocalPomNeedsNoNetwork(c: Coordinate, env: Env, fetchText: string -> Result<string, Error>)
    requires env.localHasProject(c) && LocalPom(c, env).Success?
    ensures PomAt(c, env.(fetchText := fetchText)) == PomAt(c, env) == LocalPom(c, env)
  {
  }

  /** A local repository that lacks the POM or cannot read or parse it is the same as no local
      repository at all. */
  lemma LocalFailureFallsThrough(c: Coordinate, env: Env)
    requires !env.localHasProject(c) || LocalPom(c, env).Failure?
    ensures PomAt(c, env) == RemotePom(c, env)
  {
  }

  // ---------------------------------------------------------------- dependencies of a project

  /** The properties and the dependency-management list handed to `resolveProperties`. */
  datatype Context = Context(properties: Properties, management: ManagementList)

  /** Without a parent: the POM's own properties (or none) and its own management list (or an
      empty one). With one: what the merge helpers make of the parent chain. */
  function ResolutionContext(self: Snapshot, p: Pom, env: Env): Result<Context, Error> {
    if p.parent.None? then
      Success(Context(p.properties.GetOr(map[]), if p.management.Some? then Own else Supplied([])))
    else
      match env.fetchParent(p)
      case Failure(e) => Failure(e)
      case Success(parents) =>
        Success(Context(env.mergeProperties(self, parents), Supplied(env.mergeManagement(self, parents))))
  }

  /** `filterDependencies`: the POM's dependency list replaced by the filter's. */
  function Filtered(p: Pom, env: Env): Pom {
    if p.dependencies.None? then p else p.(dependencies := Some(env.filterDependencies(p.dependencies.value)))
  }

  /** `new Project(dep.groupid, dep.artifactid, dep.version!)` for each dependency, in order. */
  function DependencyCoordinates(deps: seq<Dependency>): (cs: seq<Coordinate>)
    ensures |cs| == |deps|
    ensures forall i :: 0 <= i < |deps| ==>
      cs[i] == Coordinate(deps[i].groupid, Some(deps[i].artifactid), deps[i].version.GetOr(""))
  {
    if deps == [] then []
    else [Coordinate(deps[0].groupid, Some(deps[0].artifactid), deps[0].version.GetOr(""))] + DependencyCoordinates(deps[1..])
  }

  /** What `getProjectDependencies` does after `getPOM` gave `p` to the project in state `s`:
      the POM it leaves on the project, and the coordinates of the projects that follow `this`
      in its result. */
  function DirectDependencies(s: Snapshot, p: Pom, env: Env): (Pom, Result<seq<Coordinate>, Error>) {
    match ResolutionContext(s, p, env)
    case Failure(e) => (p, Failure(e))
    case Success(ctx) =>
      if p.dependencies.None? then (p, Success([]))
      else
        var q := Resolved(Filtered(p, env), ctx.management, ctx.properties, env.resolveVersion);
        ResolvedKeepsDependencies(Filtered(p, env), ctx.management, ctx.properties, env.resolveVersion);
        (q, Success(DependencyCoordinates(q.dependencies.value)))
  }

  /** `getProjectDependencies` as a change of the project's state, with the coordinates of the
      projects after `this` in its result. */
  function ProjectDependenciesStep(s: Snapshot, env: Env): (Snapshot, Result<seq<Coordinate>, Error>) {
    var (s1, loaded) := GetPomStep(s, env);
    match loaded
    case Failure(e) => (s1, Failure(e))
    case Success(p) =>
      var (q, r) := DirectDependencies(s1, p, env);
      (s1.(pom := Some(q)), r)
  }

  /** A POM without a `dependencies` section and without a parent yields no further project:
      the result is exactly `[this]`. */
  lemma NoDependenciesSection(s: Snapshot, p: Pom, env: Env)
    requires p.dependencies.None? && p.parent.None?
    ensures DirectDependencies(s, p, env) == (p, Success([]))
  {
  }

  /** One project per dependency that survives the filter, in the filter's order: the same
      group and artifact, and the version `resolveProperties` gave it. */
  lemma DirectDependencyAt(s: Snapshot, p: Pom, env: Env, j: nat)
    requires p.dependencies.Some? && ResolutionContext(s, p, env).Success?
    ensures var kept := env.filterDependencies(p.dependencies.value);
      var ctx := ResolutionContext(s, p, env).value;
      var cs := DirectDependencies(s, p, env).1;
      && cs.Success? && |cs.value| == |kept|
      && (j < |kept| ==>
            var d := kept[j];
            var before := ResolveUpTo(Filtered(p, env), Dependencies, j, ctx.management, ctx.properties, env.resolveVersion);
            cs.value[j] == Coordinate(d.groupid, Some(d.artifactid),
              env.resolveVersion(VersionInput(d, Table(Filtered(p, env), ctx.management)), before, ctx.properties)))
  {
    var ctx := ResolutionContext(s, p, env).value;
    var f := Filtered(p, env);
    ResolvedShape(f, ctx.management, ctx.properties, env.resolveVersion, Dependencies);
    if j < |env.filterDependencies(p.dependencies.value)| {
      ResolvedDependency(f, ctx.management, ctx.properties, env.resolveVersion, j);
    }
  }

  /** Without a parent, a dependency's version is chosen against the POM's own management list
      and resolved with the POM's own properties. */
  lemma OwnContextWithoutParent(s: Snapshot, p: Pom, env: Env, j: nat)
    requires p.parent.None? && p.dependencies.Some?
    requires j < |env.filterDependencies(p.dependencies.value)|
    ensures var d := env.filterDependencies(p.dependencies.value)[j];
      var ctx := ResolutionContext(s, p, env).value;
      var before := ResolveUpTo(Filtered(p, env), Dependencies, j, ctx.management, ctx.properties, env.resolveVersion);
      DirectDependencies(s, p, env).1.value[j].version
        == env.resolveVersion(VersionInput(d, p.management.GetOr([])), before, p.properties.GetOr(map[]))
  {
    DirectDependencyAt(s, p, env, j);
  }

  /** The worked example: `org.example:foo@1.0.0`, whose POM declares `org.example:bar` with
      no version and pins it to 2.0.0 in its dependency management, resolves to
      `[foo@1.0.0, bar@2.0.0]`, provided the filter keeps `bar` and `resolveVersion` leaves a
      plain version as it is. */
  lemma ManagedVersionExample(env: Env)
    requires forall p: Pom, props: Properties :: env.resolveVersion("2.0.0", p, props) == "2.0.0"
    requires env.filterDependencies([Dependency("org.example", "bar", None, None, None)])
          == [Dependency("org.example", "bar", None, None, None)]
    ensures var bar := Dependency("org.example", "bar", None, None, None);
      var pinned := Dependency("org.example", "bar", Some("2.0.0"), None, None);
      var pom := Pom(None, Some([bar]), Some([pinned]), None);
      var foo := Coordinate("org.example", Some("foo"), "1.0.0");
      ProjectDependenciesStep(Snapshot(foo, Some(pom)), env).1
        == Success([Coordinate("org.example", Some("bar"), "2.0.0")])
  {
    var bar := Dependency("org.example", "bar", None, None, None);
    var pinned := Dependency("org.example", "bar", Some("2.0.0"), None, None);
    var pom := Pom(None, Some([bar]), Some([pinned]), None);
    var foo := Coordinate("org.example", Some("foo"), "1.0.0");
    var s := Snapshot(foo, Some(pom));
    assert FirstMatch([pinned], bar) == Some(0);
    assert Table(Filtered(pom, env), Own) == [pinned];
    assert VersionInput(bar, [pinned]) == "2.0.0";
    DirectDependencyAt(s, pom, env, 0);
    var cs := DirectDependencies(s, pom, env).1.value;
    assert cs == [Coordinate("org.example", Some("bar"), "2.0.0")];
    assert ProjectDependenciesStep(s, env).1 == DirectDependencies(s, pom, env).1;
  }

  // ---------------------------------------------------------------- JAR downloads

  /** `#downloadDistJar(dest)` for the project `c`: a copy from the local repository when it
      has the project and the copy does not throw, else a download from the central
      repository; both write `join(dest, artifactID-version.jar)`. */
  function FetchJar(dest: string, c: Coordinate, env: Env): (r: Result<Effect, Error>)
    ensures r.Success? ==> !r.value.MakeDirectory? && r.value.destination == env.join(dest, c.JarName())
  {
    var target := env.join(dest, c.JarName());
    if env.localHasProject(c) && env.localCopyJar(c, target) then Success(CopiedFromLocal(c, target))
    else
      var url := c.JarUrl(CentralRepository);
      match env.download(url, target)
      case Failure(e) => Failure(e)
      case Success(_) => Success(Downloaded(url, target))
  }

  /** A JAR the local repository can copy is not downloaded. */
  lemma LocalJarNeedsNoNetwork(dest: string, c: Coordinate, env: Env, download: (string, string) -> Result<(), Error>)
    requires env.localHasProject(c) && env.localCopyJar(c, env.join(dest, c.JarName()))
    ensures FetchJar(dest, c, env.(download := download)) == FetchJar(dest, c, env)
  {
  }

  /** The downloads one after the other, stopping at the first that throws: the effects done
      and how the sequence ended. */
  function FetchJars(dest: string, cs: seq<Coordinate>, env: Env): (seq<Effect>, Result<(), Error>) {
    if cs == [] then ([], Success(()))
    else
      match FetchJar(dest, cs[0], env)
      case Failure(e) => ([], Failure(e))
      case Success(effect) =>
        var (rest, outcome) := FetchJars(dest, cs[1..], env);
        ([effect] + rest, outcome)
  }

  /** Fail-fast: the effects are those of a prefix of the list, each the JAR fetch of its
      project; the sequence succeeds exactly when every fetch did, and otherwise ends with the
      error of the first fetch that threw. */
  lemma {:induction false} FetchJarsFailFast(dest: string, cs: seq<Coordinate>, env: Env)
    ensures var (log, outcome) := FetchJars(dest, cs, env);
      && |log| <= |cs|
      && (forall i :: 0 <= i < |log| ==> FetchJar(dest, cs[i], env) == Success(log[i]))
      && (outcome.Success? <==> |log| == |cs|)
      && (outcome.Failure? ==> FetchJar(dest, cs[|log|], env) == Failure(outcome.error))
  {
    if cs != [] && FetchJar(dest, cs[0], env).Success? {
      FetchJarsFailFast(dest, cs[1..], env);
      var (log, outcome) := FetchJars(dest, cs, env);
      forall i | 0 <= i < |log|
        ensures FetchJar(dest, cs[i], env) == Success(log[i])
      {
        if i > 0 {
          assert cs[i] == cs[1..][i - 1];
        }
      }
    }
  }

  /** `downloadDistJarAndDependencies(dest, dependencies)`. */
  function DownloadAll(dest: string, cs: seq<Coordinate>, env: Env): (seq<Effect>, Result<(), Error>) {
    if cs == [] then ([], Success(()))
    else
      match env.makeDirectory(dest)
      case Failure(e) => ([], Failure(e))
      case Success(_) =>
        var (jars, outcome) := FetchJars(dest, cs, env);
        ([MakeDirectory(dest)] + jars, outcome)
  }

  /** An empty list creates no directory and fetches nothing; a non-empty one creates the
      directory first, and fails with its error, fetching nothing, when that throws; otherwise it
      fetches the JARs in list order, each to `join(dest, its JAR name)`, until one fails; the one
      that fails is the last attempted. */
  lemma DownloadAllOrder(dest: string, cs: seq<Coordinate>, env: Env)
    ensures var (log, outcome) := DownloadAll(dest, cs, env);
      && (cs == [] ==> log == [] && outcome.Success?)
      && (cs != [] && env.makeDirectory(dest).Failure? ==>
            log == [] && outcome == Failure(env.makeDirectory(dest).error))
      && (cs != [] && env.makeDirectory(dest).Success? ==>
            && 1 <= |log| <= |cs| + 1 && log[0] == MakeDirectory(dest)
            && (forall i :: 0 <= i < |log| - 1 ==>
                  FetchJar(dest, cs[i], env) == Success(log[i + 1])
                  && log[i + 1].destination == env.join(dest, cs[i].JarName()))
            && (outcome.Success? <==> |log| == |cs| + 1)
            && (outcome.Failure? ==> FetchJar(dest, cs[|log| - 1], env) == Failure(outcome.error)))
  {
    FetchJarsFailFast(dest, cs, env);
  }

  // ---------------------------------------------------------------- the class

  class Project {
    var groupID: string
    var artifactID: Option<string>
    var version: string
    var pom: Option<Pom>

    function Coord(): Coordinate
      reads this
    {
      Coordinate(groupID, artifactID, version)
    }

    function State(): Snapshot
      reads this
    {
      Snapshot(Coord(), pom)
    }

    /** `new Project(target)`. */
    constructor FromTarget(target: string)
      ensures State() == Snapshot(ParseTarget(target), None)
    {
      var c := ParseTarget(target);
      groupID, artifactID, version := c.groupID, c.artifactID, c.version;
      pom := None;
    }

    /** `new Project(groupID, projectID, version)`: stored verbatim. */
    constructor (g: string, a: string, v: string)
      ensures State() == Snapshot(Coordinate(g, Some(a), v), None)
    {
      groupID, artifactID, version := g, Some(a), v;
      pom := None;
    }

    /** The variadic constructor: one argument is a target, three are the fields, any other
        number throws. */
    static method Create(args: seq<string>) returns (r: Result<Project, Error>)
      ensures |args| == 1 ==> r.Success? && fresh(r.value) && r.value.State() == Snapshot(ParseTarget(args[0]), None)
      ensures |args| == 3 ==>
        r.Success? && fresh(r.value) && r.value.State() == Snapshot(Coordinate(args[0], Some(args[1]), args[2]), None)
      ensures |args| != 1 && |args| != 3 ==> r == Failure(IllegalNumberOfArgs)
    {
      if |args| == 1 {
        var p := new Project.FromTarget(args[0]);
        return Success(p);
      }
      if |args| == 3 {
        var p := new Project(args[0], args[1], args[2]);
        return Success(p);
      }
      return Failure(IllegalNumberOfArgs);
    }

    /** `getLatestProjectVersion()`: the connection error on a failed response, the not-found
        error on an empty `docs`, else the first document's latest version. */
    method GetLatestProjectVersion(env: Env) returns (r: Result<string, Error>)
      ensures r == LatestVersion(Coord(), env)
      ensures env.search(Coord().SearchEndpoint()).Success? && !env.search(Coord().SearchEndpoint()).value.ok
        ==> r == Failure(MvnConnection)
      ensures env.search(Coord().SearchEndpoint()) == Success(SearchReply(true, Success([])))
        ==> r == Failure(ProjectNotFound(Coord().SearchEndpoint()))
      ensures forall docs: seq<SearchDoc> ::
        env.search(Coord().SearchEndpoint()) == Success(SearchReply(true, Success(docs))) && docs != [] ==>
          r == Success(docs[0].latestVersion)
    {
      var endpoint := Coord().SearchEndpoint();
      var response := env.search(endpoint);
      if response.Failure? {
        return Failure(response.error);
      }
      if !response.value.ok {
        return Failure(MvnConnection);
      }
      var body := response.value.docs;
      if body.Failure? {
        return Failure(body.error);
      }
      var docs := body.value;
      if |docs| == 0 {
        return Failure(ProjectNotFound(endpoint));
      }
      return Success(docs[0].latestVersion);
    }

    /** `getPOM()`: the memoised POM, else (after replacing "latest" by the looked-up version)
        the local repository's POM when it parses, else the network's. */
    method GetPOM(env: Env) returns (r: Result<Pom, Error>)
      modifies this
      ensures (State(), r) == GetPomStep(old(State()), env)
    {
      if pom.Some? {
        return Success(pom.value);
      }
      if version == Latest {
        var latest := GetLatestProjectVersion(env);
        if latest.Failure? {
          return Failure(latest.error);
        }
        version := latest.value;
      }
      if env.localHasProject(Coord()) {
        var local := LocalPom(Coord(), env);
        if local.Success? {
          pom := Some(local.value);
          return local;
        }
        // the source logs the failure and falls through to the network
      }
      var remote := RemotePom(Coord(), env);
      if remote.Success? {
        pom := Some(remote.value);
      }
      return remote;
    }

    /** One of the two loops of `resolveProperties`. */
    method ResolveSectionInPlace(s: Section, properties: Properties, management: ManagementList, env: Env)
      requires pom.Some?
      modifies this
      ensures State() == Snapshot(old(Coord()), Some(ResolveSection(old(pom.value), s, management, properties, env.resolveVersion)))
    {
      if List(pom.value, s).None? {
        return;
      }
      ghost var p0 := pom.value;
      var n := |List(pom.value, s).value|;
      var i := 0;
      while i < n
        invariant 0 <= i <= n
        invariant pom == Some(ResolveUpTo(p0, s, i, management, properties, env.resolveVersion))
        invariant Coord() == old(Coord())
      {
        var p := pom.value;
        var entries := List(p, s).value;
        var d := entries[i];
        var version := d.version;
        if version.None? || version.value == "" {
          var table := Table(p, management);
          var found := FirstMatch(table, d);
          version := Some(if found.Some? then table[found.value].version.GetOr("") else "");
        }
        assert version == Some(VersionInput(d, Table(p, management)));
        // the source logs when the version is still empty
        var resolved := env.resolveVersion(version.value, p, properties);
        pom := Some(WithList(p, s, entries[i := d.(version := Some(resolved))]));
        assert pom.value == ResolveAt(p, s, i, management, properties, env.resolveVersion);
        i := i + 1;
      }
    }

    /** `resolveProperties(properties, dependencymanagement)`. */
    method ResolveProperties(properties: Properties, management: ManagementList, env: Env)
      requires pom.Some?
      modifies this
      ensures State() == Snapshot(old(Coord()), Some(Resolved(old(pom.value), management, properties, env.resolveVersion)))
    {
      ResolveSectionInPlace(Dependencies, properties, management, env);
      ResolveSectionInPlace(Management, properties, management, env);
    }

    /** `filterDependencies()`. */
    method FilterDependencies(env: Env)
      requires pom.Some?
      modifies this
      ensures State() == Snapshot(old(Coord()), Some(Filtered(old(pom.value), env)))
    {
      var p := pom.value;
      if p.dependencies.Some? {
        pom := Some(p.(dependencies := Some(env.filterDependencies(p.dependencies.value))));
      }
    }

    /** `getProjectDependencies()`: `this`, then one new project per filtered and resolved
        direct dependency, in order. */
    method GetProjectDependencies(env: Env) returns (r: Result<seq<Project>, Error>)
      modifies this
      ensures var (s1, expected) := ProjectDependenciesStep(old(State()), env);
        && State() == s1
        && (expected.Failure? ==> r == Failure(expected.error))
        && (expected.Success? ==>
              && r.Success? && |r.value| == |expected.value| + 1 && r.value[0] == this
              && forall i :: 1 <= i < |r.value| ==>
                   fresh(r.value[i]) && r.value[i].State() == Snapshot(expected.value[i - 1], None))
    {
      var res := [this];
      var loaded := GetPOM(env);
      if loaded.Failure? {
        return Failure(loaded.error);
      }
      var p := loaded.value;
      ghost var s1 := State();
      ghost var step := DirectDependencies(s1, p, env);
      assert ProjectDependenciesStep(old(State()), env) == (s1.(pom := Some(step.0)), step.1);
      var properties := p.properties.GetOr(map[]);
      var management := if p.management.Some? then Own else Supplied([]);
      if p.parent.Some? {
        var parents := env.fetchParent(p);
        if parents.Failure? {
          return Failure(parents.error);
        }
        properties := env.mergeProperties(State(), parents.value);
        management := Supplied(env.mergeManagement(State(), parents.value));
      }
      assert ResolutionContext(s1, p, env) == Success(Context(properties, management));
      if p.dependencies.Some? {
        FilterDependencies(env);
        ResolveProperties(properties, management, env);
        ghost var q := Resolved(Filtered(p, env), management, properties, env.resolveVersion);
        assert pom == Some(q);
        ResolvedKeepsDependencies(Filtered(p, env), management, properties, env.resolveVersion);
        var deps := pom.value.dependencies.value;
        ghost var cs := DependencyCoordinates(deps);
        assert DirectDependencies(s1, p, env) == (q, Success(cs));
        res := PushProjects(res, deps);
      }
      return Success(res);
    }

    /** The loop of `getProjectDependencies` that pushes one new project per dependency. */
    static method PushProjects(res: seq<Project>, deps: seq<Dependency>) returns (r: seq<Project>)
      ensures |r| == |res| + |deps| && r[..|res|] == res
      ensures forall j :: |res| <= j < |r| ==>
        fresh(r[j]) && r[j].State() == Snapshot(DependencyCoordinates(deps)[j - |res|], None)
    {
      r := res;
      for i := 0 to |deps|
        invariant |r| == |res| + i && r[..|res|] == res
        invariant forall j :: |res| <= j < |r| ==>
          fresh(r[j]) && r[j].State() == Snapshot(DependencyCoordinates(deps)[j - |res|], None)
      {
        var dep := deps[i];
        var project := new Project(dep.groupid, dep.artifactid, dep.version.GetOr(""));
        r := r + [project];
      }
    }

    /** `#downloadDistJar(dest)`. */
    method DownloadDistJar(dest: string, env: Env) returns (r: Result<Effect, Error>)
      ensures r == FetchJar(dest, Coord(), env)
    {
      if env.localHasProject(Coord()) {
        var target := env.join(dest, Coord().JarName());
        if env.localCopyJar(Coord(), target) {
          return Success(CopiedFromLocal(Coord(), target));
        }
        // the source logs the failure and falls through to the download
      }
      var url := Coord().JarUrl(CentralRepository);
      var target := env.join(dest, Coord().JarName());
      var done := env.download(url, target);
      if done.Failure? {
        return Failure(done.error);
      }
      return Success(Downloaded(url, target));
    }

    /** `Project.downloadDistJarAndDependencies(dest, dependencies)`. */
    static method DownloadDistJarAndDependencies(dest: string, dependencies: seq<Project>, env: Env)
      returns (log: seq<Effect>, outcome: Result<(), Error>)
      ensures (log, outcome) == DownloadAll(dest, CoordinatesOf(dependencies), env)
    {
      ghost var cs := CoordinatesOf(dependencies);
      var made: seq<Effect> := [];
      if |dependencies| > 0 {
        var mkdir := env.makeDirectory(dest);
        if mkdir.Failure? {
          return [], Failure(mkdir.error);
        }
        made := [MakeDirectory(dest)];
      }
      var jars: seq<Effect> := [];
      var i := 0;
      assert cs[i..] == cs;
      assert jars + FetchJars(dest, cs, env).0 == FetchJars(dest, cs, env).0;
      while i < |dependencies|
        invariant 0 <= i <= |dependencies|
        invariant FetchJars(dest, cs, env).0 == jars + FetchJars(dest, cs[i..], env).0
        invariant FetchJars(dest, cs, env).1 == FetchJars(dest, cs[i..], env).1
      {
        var r := dependencies[i].DownloadDistJar(dest, env);
        assert cs[i..][1..] == cs[i + 1..];
        if r.Failure? {
          assert cs[i..][0] == cs[i] == dependencies[i].Coord();
          assert FetchJars(dest, cs[i..], env) == ([], Failure(r.error));
          assert jars + [] == jars;
          assert FetchJars(dest, cs, env) == (jars, Failure(r.error));
          return made + jars, Failure(r.error);
        }
        jars := jars + [r.value];
        i := i + 1;
      }
      assert cs[i..] == [] && jars + [] == jars;
      assert FetchJars(dest, cs, env) == (jars, Success(()));
      log := made + jars;
      outcome := Success(());
    }
  }

  /** The coordinates of a list of projects. */
  function CoordinatesOf(ps: seq<Project>): (cs: seq<Coordinate>)
    reads ps
    ensures |cs| == |ps| && forall i :: 0 <= i < |ps| ==> cs[i] == ps[i].Coord()
  {
    seq(|ps|, i reads ps requires 0 <= i < |ps| => ps[i].Coord())
  }
}
