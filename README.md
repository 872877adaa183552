# jpm: the Maven `Project` resolver and the `install` / `remove` manifest logic

jpm is a package manager for the Jolie language. Its projects depend both on Maven
artifacts and on npm packages. This project models three pieces of it in Dafny and proves
properties about them.

- **The `Project` class** (`src/mvn/project.ts`). A Maven coordinate (`groupID`,
  `artifactID`, `version`) carrying a memoised parsed POM. It provides:
  - target parsing and formatting (`g:a@v`, repository paths, POM/JAR names and URLs);
  - the latest-version search;
  - `getPOM`, which prefers the local repository and falls back to the network;
  - `resolveProperties`, which fills in versions from dependency management and passes them
    through `resolveVersion`;
  - `filterDependencies`;
  - the one-level dependency resolver `getProjectDependencies`;
  - the JAR downloads.
- **`remove(artifactRef)`** (`src/commands/remove.js`). Parses `artifact@repo`, validates it,
  deletes one dependency and the recorded Maven peers from `jpm.json`, writes the manifest
  back and reinstalls.
- **`install(_jpmJson)`** (`src/commands/install.js`). Computes, repository by repository,
  the ordered `add(target, options)` calls for the direct dependencies and then for the
  merged Maven peers.

Files:

| file | module | contents |
|---|---|---|
| `wrappers.dfy` | `Wrappers` | `Option`, `Result` |
| `js_text.dfy` | `JsText` | JavaScript `split(sep, 2)`, `split(sep)`, `slice`, `replace(/x/g, y)` |
| `js_object.dfy` | `JsObject` | JavaScript objects as insertion-ordered key/value lists: lookup, assignment, `delete`, spread, and `reduce` with spread |
| `coordinates.dfy` | `Coordinates` | the coordinate as a value; parsing and formatting |
| `poms.dfy` | `Poms` | the parsed POM and the specification of `resolveProperties` |
| `project.dfy` | `MavenProject` | the collaborators (`Env`), the specification functions, and `class Project` |
| `jpm_json.dfy` | `JpmJson` | the manifest |
| `install.dfy` | `Install` | the `install` plan and the method that builds it |
| `remove.dfy` | `Remove` | reference parsing, validation and the manifest edit |

Modelling choices:

- **Collaborators are parameters.** Whatever the code calls but does not define is a
  function-valued field of an `Env` datatype. That covers `fetch`, `parsePom`, `localRepo`,
  `mkdirIfNotExist`, `download` and `path.join`, plus the helpers `resolveVersion`, `mergeProperties`,
  `mergeDependenciesManagement`, `fetchParent` and `filterDependencies` imported from
  `./index`. Each is an arbitrary function of its arguments, and no property of them is
  assumed.
- **The POM is a value.** `Project.pom` holds a `Poms.Pom`. The methods that edit the POM in
  place reassign this field entry by entry. `resolveVersion` sees the POM as it stands at
  each step, as it does in the source.
- **Management-list aliasing.** When the POM has no parent, `getProjectDependencies` passes
  the POM's own management array as `dependencymanagement`. That array is also one of the
  lists being rewritten, so a management entry is looked up against entries already
  resolved earlier in the same call. `ManagementList.Own` models that aliasing.
  `Supplied(list)` stands for a separate list.
- **`artifactID` is an `Option`.** `split(':', 2)[1]` is `undefined` when there is no `:`.
  In template strings that value prints as `undefined`.

In these points the model follows what the code does:

- A target without `:` is not rejected. Its artifact is `undefined`.
- Once set, the POM's contents are still rewritten in place by `filterDependencies` and
  `resolveProperties`.
- A failed network fetch or parse in `getPOM` propagates whatever error it raised.
- The local JAR copy falls back to the download only when it throws synchronously.

## Model

| member | source | states |
|---|---|---|
| Coordinates.VersionBetweenAts | src/mvn/project.ts:91-94 | with an `@`, the version is the text between the first and second `@`, and the ids come from the text before the first `@`, whatever follows |
| Coordinates.ParseWithoutVersion | src/mvn/project.ts:94-97 | every target without `@` gets the version "latest" |
| Coordinates.ParseWithoutArtifact | src/mvn/project.ts:94-102 | a target with neither `@` nor `:` is all group, with the artifact undefined and the version "latest" |
| Coordinates.HeadWithoutColon | src/mvn/project.ts:90-102 | a target `group@version` with no `:` before the first `@` leaves the artifact undefined and keeps the version, whatever follows a second `@` |
| Coordinates.ParseGroupArtifact | src/mvn/project.ts:94-102 | a target `group:artifact` without `@`, possibly followed by more `:`-pieces, gives that group and artifact and the version "latest" |
| Coordinates.IdsBeforeColons | src/mvn/project.ts:100-102 | group and artifact are the first two `:`-pieces; anything from a second `:` on is dropped |
| Coordinates.ToStringSplits | src/mvn/project.ts:337-339 | `toString` prints group, `:`, artifact, `@`, version, so with separator-free fields its first `@` and first `:` fall exactly between them; an undefined artifact prints as "undefined" |
| Coordinates.ParseToString | src/mvn/project.ts:88-103 | parsing what `toString` prints gives back the same group, artifact and version when they contain no `@` or `:` |
| Coordinates.RepoPathLayout | src/mvn/project.ts:123-124 | the repository path is the group with every `.` replaced by `/` (no `.` remains), then `/artifact/version` |
| Coordinates.PomNameLayout | src/mvn/project.ts:133 | the POM file name is the artifact, `-`, the version and `.pom`, and nothing else |
| Coordinates.JarNameLayout | src/mvn/project.ts:333-335 | the JAR file name is the artifact, `-`, the version and `.jar`, and differs from the POM file name only in the extension |
| Coordinates.PomAndJarUrls | src/mvn/project.ts:133-153 | POM and JAR URLs are prefix/repository path/file name; they have the same length, agree except for the last three characters, and end in `pom` and `jar` |
| MavenProject.Project.FromTarget | src/mvn/project.ts:88-103 | the one-argument constructor sets the fields to the parse of the target, with no POM |
| MavenProject.Project.constructor | src/mvn/project.ts:107-111 | the three-argument constructor stores its arguments verbatim |
| MavenProject.Project.Create | src/mvn/project.ts:85-114 | one argument parses a target, three are stored, and any other number fails with `illegal number of args` |
| MavenProject.Project.GetLatestProjectVersion | src/mvn/project.ts:164-189 | a non-ok response gives the connection error; empty `docs` gives the not-found error for the search endpoint; otherwise `docs[0].latestVersion`; no field changes (the method has no `modifies`) |
| MavenProject.GetPomStep | src/mvn/project.ts:198-219 | group and artifact never change; a set POM is returned as it is; otherwise the POM is set exactly when the lookup succeeds, and the version changes only when it was "latest" |
| MavenProject.Project.GetPOM | src/mvn/project.ts:198-219 | the new fields and the result are those of `GetPomStep` on the old fields |
| MavenProject.GetPomMemoised | src/mvn/project.ts:199-200 | after a successful `getPOM`, a second call returns the same POM and changes nothing, whatever the collaborators do |
| MavenProject.GetPomCachedNeedsNoLookup | src/mvn/project.ts:199-200 | with the POM set, the result does not depend on the search, the network or the local repository |
| MavenProject.ConcreteVersionNeedsNoSearch | src/mvn/project.ts:202-204 | with a version other than "latest" the search is never consulted |
| MavenProject.GetPomResolvesLatest | src/mvn/project.ts:202-204 | "latest" is replaced by the looked-up version and the POM is looked up under it; a failed lookup fails and changes nothing |
| MavenProject.LocalPomNeedsNoNetwork | src/mvn/project.ts:206-209 | a local POM that reads and parses is taken, and the network is not consulted |
| MavenProject.LocalFailureFallsThrough | src/mvn/project.ts:206-217 | a missing, unreadable or unparseable local POM leads to the network POM |
| Poms.FirstMatch | src/mvn/project.ts:233 | `find` on group and artifact: the first matching index, or none when no entry matches |
| Poms.ManagedVersion | src/mvn/project.ts:231-234 | a dependency with no (or an empty) version takes the version of the first management entry for its artifact |
| Poms.UnmanagedVersion | src/mvn/project.ts:231-234 | with no management entry for it, the version handed on is "" |
| Poms.ResolveUpTo | src/mvn/project.ts:230-239 | after k turns the list is still there with its length, and the other list, the properties and the parent are unchanged |
| Poms.ResolveUpToEntries | src/mvn/project.ts:230-239 | after k turns every entry keeps all but its version, the first k entries have a version and the rest are untouched |
| Poms.ResolvedAtTurn | src/mvn/project.ts:229-253 | entry j's final version is `resolveVersion` of its own or managed version, looked up against the management entries as they stood at turn j, with the POM as it was then |
| Poms.ResolvedShape | src/mvn/project.ts:228-254 | both lists keep their presence, length, order and every field but the version, and every entry gets a version |
| Poms.ResolvedKeepsDependencies | src/mvn/project.ts:228-240 | `resolveProperties` leaves a dependency list wherever there was one |
| Poms.ResolvedDependency | src/mvn/project.ts:229-240 | dependency j becomes itself with version `resolveVersion(own or managed version, POM after j turns, properties)` |
| MavenProject.Project.ResolveSectionInPlace | src/mvn/project.ts:229-253 | one loop of `resolveProperties` leaves the POM equal to `ResolveSection` of the old POM, and the coordinate unchanged |
| MavenProject.Project.ResolveProperties | src/mvn/project.ts:228-254 | the new POM is `Resolved` of the old one (dependencies first, then management); the coordinate is unchanged |
| MavenProject.Project.FilterDependencies | src/mvn/project.ts:265-269 | only the dependency list is replaced, by the filter's output, and only when it exists |
| MavenProject.DependencyCoordinates | src/mvn/project.ts:298-302 | one coordinate per dependency, in order, with its group, artifact and version |
| MavenProject.Project.PushProjects | src/mvn/project.ts:298-303 | the projects so far are kept, followed by one fresh project, with no POM, per dependency coordinate, in order |
| MavenProject.Project.GetProjectDependencies | src/mvn/project.ts:280-305 | the result is `this` followed by one fresh project per resolved dependency, in order; errors propagate; the new state is that of `ProjectDependenciesStep` |
| MavenProject.NoDependenciesSection | src/mvn/project.ts:294-304 | a POM with no `dependencies` and no parent yields exactly `[this]` and is left as it is |
| MavenProject.DirectDependencyAt | src/mvn/project.ts:294-303 | one project per dependency the filter keeps, in the filter's order, with its group, its artifact and the version resolution gave it |
| MavenProject.OwnContextWithoutParent | src/mvn/project.ts:283-284 | without a parent, the POM's own properties (or none) and its own management list (or an empty one) are used |
| MavenProject.ManagedVersionExample | src/mvn/project.ts:280-305 | `org.example:foo@1.0.0` with `bar` pinned to 2.0.0 by management resolves to `[bar@2.0.0]` after `this` |
| MavenProject.FetchJar | src/mvn/project.ts:314-324 | a successful fetch writes `join(dest, artifact-version.jar)` |
| MavenProject.LocalJarNeedsNoNetwork | src/mvn/project.ts:315-318 | a JAR the local repository copies is not downloaded |
| MavenProject.Project.DownloadDistJar | src/mvn/project.ts:314-324 | the result is `FetchJar` of this project's coordinate |
| MavenProject.FetchJarsFailFast | src/mvn/project.ts:356-358 | the JARs are fetched in list order and stop at the first failure, whose error is the outcome; success means every JAR was fetched |
| MavenProject.DownloadAllOrder | src/mvn/project.ts:352-359 | an empty list does nothing; otherwise the directory is created first, and a failure to create it is the outcome with nothing fetched; after that, one JAR per coordinate in order, each to `dest/artifact-version.jar`, until one fails |
| MavenProject.Project.DownloadDistJarAndDependencies | src/mvn/project.ts:352-359 | the effects and outcome are those of `DownloadAll` on the projects' coordinates |
| JsText.Split | src/commands/remove.js:22 | `split(':')` gives one more piece than there are `:`; no piece contains `:`; joining the pieces gives the text back |
| JsObject.Delete | src/commands/remove.js:28-29 | `delete o[k]`: `k` is gone, and deleting an absent key changes nothing |
| JsObject.DeleteKeepsOthers | src/commands/remove.js:28-29 | after `delete o[k]` every other key keeps its value |
| JsObject.DeleteKeys | src/commands/remove.js:28 | `delete o[k]` drops `k` from the keys and keeps the other keys in their order |
| JsObject.DeleteWf | src/commands/remove.js:28-29 | deleting a key keeps the keys pairwise distinct |
| JsObject.Put | src/commands/remove.js:28 | re-binding a key gives it the new value, and a new key is appended at the end |
| JsObject.PutKeepsOthers | src/commands/remove.js:28 | re-binding `k` leaves every other key's value as it was |
| JsObject.PutKeys | src/commands/remove.js:28 | re-binding an existing key keeps the keys and their order; a new key is added last |
| JsObject.PutWf | src/commands/remove.js:28 | re-binding a key keeps the keys pairwise distinct |
| JsObject.SpreadGet | src/commands/install.js:18 | after `{ ...a, ...c }`, a key of `c` has `c`'s value and every other key keeps `a`'s |
| JsObject.FlattenLaterWins | src/commands/install.js:13-14 | `reduce` with spread gives every key the value of the last object that has it |
| Remove.ParseReferenceShape | src/commands/remove.js:13-16 | if the fourth character from the end is `@`, the repo is the last three characters and the artifact everything before the `@`; otherwise `npm` and the whole reference |
| Remove.KnownRepository | src/commands/remove.js:18 | the test on `@`-prefixed names is membership of the repository in the list |
| Remove.RemoveErrors | src/commands/remove.js:18-28 | unknown repository if and only if it is not listed; then the usage error if and only if the artifact has two or more `:`; then a type error if the section is missing; none carries an effect |
| Remove.RejectionNamesRepository | src/commands/remove.js:18-20 | an unlisted repository makes `remove` fail with "Package repository <repo> does not exist." |
| Remove.RemoveChangesOneKey | src/commands/remove.js:28-34 | the written manifest loses only the artifact under its repository and `mvnPeers`; other fields, other sections and other artifacts stay, the repositories keep their order and the section's remaining artifacts keep theirs; the directories are removed before the write |
| Remove.ReinstallAfterRemove | src/commands/remove.js:34-36 | the reinstall reads the written manifest, issues no peer and no call for the removed artifact, and does not fail |
| Remove.Remove | src/commands/remove.js:9-38 | the method's result is `RemoveOutcome` |
| Remove.InstallTargetParsesBack | src/commands/install.js:30 | a target `install` builds for a three-letter repository parses back, as a reference, to that repository and `artifact[:version]` |
| Remove.InstallTargetPassesUsage | src/commands/install.js:30 | such a target passes the usage check when neither the artifact nor the version contains `:` |
| Install.RepoCallsLayout | src/commands/install.js:16-36 | per repository: one call per direct entry in order with no `isPeer`, then one per peer with `isPeer: true`; the count is the sum; both flags equal "no manifest passed" |
| Install.DirectEntriesAreSection | src/commands/install.js:18 | the direct entries are the repository's section as it stands, or none when it is missing |
| Install.NoPeersOutsideMaven | src/commands/install.js:10-12 | a repository other than `mvn` gets no peer call |
| Install.PeerMapLaterWins | src/commands/install.js:13-14 | the Maven peer map gives each artifact the version of the last `mvnPeers` entry that has it |
| Install.CallsAppend | src/commands/install.js:9 | the calls for a concatenation of repository lists are the concatenation of their calls |
| Install.CallsSnoc | src/commands/install.js:9 | handling one more repository appends exactly its calls |
| Install.CallsPerRepository | src/commands/install.js:9 | repository i's calls come after those of the repositories before it and before those after it |
| Install.RepoCallsFlags | src/commands/install.js:32-33 | within one repository every call has both flags equal to "no manifest passed" |
| Install.FlagsFollowArgument | src/commands/install.js:32-33 | every call has `installPeers` and `updateJpmJson` equal to "no manifest passed" |
| Install.PlanFailsOnlyWithoutDependencies | src/commands/install.js:7-18 | the plan fails exactly when there is a repository and the manifest has no `dependencies` |
| Install.EntryCalls | src/commands/install.js:28-30 | one call per entry, in order, with target `artifact[:version]@repo` |
| Install.InstallRepository | src/commands/install.js:10-36 | the loop over the two groups issues exactly `RepoCalls` for the repository |
| Install.InstallGroup | src/commands/install.js:27-35 | the inner loop issues exactly `EntryCalls` for the group |
| Install.Install | src/commands/install.js:6-39 | the method's result is `Plan` |

## Left out

- The loop at src/mvn/project.ts:289-291, which calls `resolveProperties` on each parent project, is not modelled. The model therefore does not capture the TypeError that loop throws for a parent without a POM (so `getProjectDependencies` can fail where `DirectDependencies` succeeds). Nor does it capture the loop's in-place rewrite of the parents' management versions, which becomes visible in the child's resolution when `mergeDependenciesManagement` returns those same entry objects.
- The semantics of `resolveVersion`, `mergeProperties`, `mergeDependenciesManagement`, `fetchParent` and `filterDependencies` are not modelled, because their code is not part of this model. They are arbitrary functions in `Env`. Placeholder substitution, parent merging and scope filtering are therefore not stated. The worked example states its assumptions about them as preconditions.
- The merged management list is modelled as a separate list (`Supplied`). Any aliasing with a parent's own lists is not captured.
- HTTP, XML parsing, the local repository, the downloader, `mkdirIfNotExist` and `path.join` are functions of their arguments in `Env`. They have no state, so a second lookup gives the same answer as the first.
- The search response's JSON reading, and a missing `response.docs`, are folded into one result that may be an error.
- The helpers that receive the whole `Project` (`localRepo.*`, `mergeProperties`, `mergeDependenciesManagement`) see only its coordinate and POM.
- Logging (`logger`, and the log lines about unresolved versions and fall-backs) is not modelled.
- Every asynchronous call is modelled as sequential. `localRepo.downloadJAR` is not awaited, so a rejected promise from it would not trigger the fallback. The model covers only a synchronous failure.
- The `install()` that `remove` calls is not awaited. The model records the plan it would compute from the written manifest.
- `add` is not executed. `install` returns the list of its arguments, and a failing `add` that would stop the loop is not modelled.
- The values of `REPOSITORIES` and `LATEST_VERSION` are parameters, because `src/constants` is not part of this model.
- The paths `PACKAGE_DIR` and `LIB_DIR` are not modelled. Their removal is recorded as an effect.
- Reading and writing `jpm.json` are not modelled: the manifest is a parameter and the written manifest is an effect. Top-level fields other than `dependencies` and `mvnPeers` are carried as text.
- Remove.ParseReferenceShape: positions are counted in Unicode code points, because Dafny strings are sequences of characters, while JavaScript's `slice` counts UTF-16 code units. A reference ending in a character outside the Basic Multilingual Plane is therefore parsed differently: for `x@a` followed by one such character, the source sees `@` four units from the end and rejects the repository, while the model takes the default repository `npm`.
- The usage message is modelled without its terminal colouring.
- The messages of JavaScript's own type errors are not modelled.
- JavaScript's ordering of integer-like object keys ahead of other keys is not modelled. Objects keep insertion order.
- A POM element that XML parsing could yield either as a single object or as a list is modelled as a list.
- `src/commands/install.ts`, `src/commands/init.js` and `src/utils/makeMvnArtifactJson.js` are not part of this model.
