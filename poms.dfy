/** The parsed POM as the `Project` class of src/mvn/project.ts reads it, and what
    `resolveProperties` does to it: every dependency and every dependency-management entry
    gets a version, taken from the entry itself or from the first management entry for the
    same artifact and then passed through `resolveVersion`. */
module Poms {
  import opened Wrappers

  type Properties = map<string, string>

  /** A `<dependency>` element. `scope` and `optional` are read only by the dependency filter,
      which is not part of this model. */
  datatype Dependency = Dependency(
    groupid: string,
    artifactid: string,
    version: Option<string>,
    scope: Option<string>,
    optional: Option<string>)

  datatype ParentRef = ParentRef(groupid: string, artifactid: string, version: string)

  /** A parsed POM: `None` where the element is absent. `management` stands for the list
      `dependencymanagement.dependencies.dependency`. */
  datatype Pom = Pom(
    properties: Option<Properties>,
    dependencies: Option<seq<Dependency>>,
    management: Option<seq<Dependency>>,
    parent: Option<ParentRef>)

  /** The two dependency lists of a POM that `resolveProperties` walks. */
  datatype Section = Dependencies | Management

  function Other(s: Section): Section {
    if s == Dependencies then Management else Dependencies
  }

  function List(p: Pom, s: Section): Option<seq<Dependency>> {
    if s == Dependencies then p.dependencies else p.management
  }

  function WithList(p: Pom, s: Section, l: seq<Dependency>): (q: Pom)
    ensures List(q, s) == Some(l) && List(q, Other(s)) == List(p, Other(s))
    ensures q.properties == p.properties && q.parent == p.parent
  {
    if s == Dependencies then p.(dependencies := Some(l)) else p.(management := Some(l))
  }

  /** The dependency-management list handed to `resolveProperties`: either the very list
      object of the POM being resolved (so entries resolved earlier in the same call are seen
      resolved), or a separate list. */
  datatype ManagementList = Own | Supplied(entries: seq<Dependency>)

  /** The management entries as they stand when the POM is `p`. */
  function Table(p: Pom, m: ManagementList): seq<Dependency> {
    match m
    case Own => p.management.GetOr([])
    case Supplied(entries) => entries
  }

  predicate SameArtifact(e: Dependency, d: Dependency) {
    e.groupid == d.groupid && e.artifactid == d.artifactid
  }

  /** `table.find(e => e.groupid === d.groupid && e.artifactid === d.artifactid)`, as an
      index. */
  function FirstMatch(table: seq<Dependency>, d: Dependency): (r: Option<nat>)
    ensures r.Some? ==> r.value < |table| && SameArtifact(table[r.value], d)
    ensures r.Some? ==> forall j :: 0 <= j < r.value ==> !SameArtifact(table[j], d)
    ensures r.None? ==> forall j :: 0 <= j < |table| ==> !SameArtifact(table[j], d)
  {
    if table == [] then None
    else if SameArtifact(table[0], d) then Some(0)
    else
      match FirstMatch(table[1..], d)
      case None => None
      case Some(i) => Some(i + 1)
  }

  /** The text handed to `resolveVersion` for `d`: its own version unless that is missing or
      empty, else the version of the first management entry for the same artifact, else "". */
  function VersionInput(d: Dependency, table: seq<Dependency>): string {
    if d.version.Some? && d.version.value != "" then d.version.value
    else
      match FirstMatch(table, d)
      case None => ""
      case Some(i) => table[i].version.GetOr("")
  }

  /** A version-less dependency takes the version of the first management entry with the
      same group and artifact, even when a later entry for it has one. */
  lemma ManagedVersion(d: Dependency, table: seq<Dependency>, i: nat)
    requires d.version.None? || d.version == Some("")
    requires i < |table| && SameArtifact(table[i], d)
    requires forall j :: 0 <= j < i ==> !SameArtifact(table[j], d)
    ensures VersionInput(d, table) == table[i].version.GetOr("")
  {
  }

  /** With no management entry for it, a version-less dependency resolves "". */
  lemma UnmanagedVersion(d: Dependency, table: seq<Dependency>)
    requires d.version.None? || d.version == Some("")
    requires forall j :: 0 <= j < |table| ==> !SameArtifact(table[j], d)
    ensures VersionInput(d, table) == ""
  {
  }

  /** `resolveVersion(version, pom, properties)`: not part of this model, so a parameter. */
  type VersionResolver = (string, Pom, Properties) -> string

  /** One turn of a `resolveProperties` loop: entry `i` of section `s` gets its version.
      `resolveVersion` sees the POM as it stands at that turn. */
  function ResolveAt(p: Pom, s: Section, i: nat, m: ManagementList, props: Properties, rv: VersionResolver): Pom
    requires List(p, s).Some? && i < |List(p, s).value|
  {
    var l := List(p, s).value;
    var d := l[i];
    WithList(p, s, l[i := d.(version := Some(rv(VersionInput(d, Table(p, m)), p, props)))])
  }

  /** The POM after the first `k` turns of the loop over section `s`. */
  function ResolveUpTo(p: Pom, s: Section, k: nat, m: ManagementList, props: Properties, rv: VersionResolver): (q: Pom)
    requires List(p, s).Some? && k <= |List(p, s).value|
    ensures List(q, s).Some? && |List(q, s).value| == |List(p, s).value|
    ensures List(q, Other(s)) == List(p, Other(s))
    ensures q.properties == p.properties && q.parent == p.parent
  {
    if k == 0 then p else ResolveAt(ResolveUpTo(p, s, k - 1, m, props, rv), s, k - 1, m, props, rv)
  }

  /** After `k` turns every entry keeps all but its version, the first `k` have one and the
      rest are untouched. */
  lemma {:induction false} ResolveUpToEntries(p: Pom, s: Section, k: nat, m: ManagementList, props: Properties, rv: VersionResolver)
    requires List(p, s).Some? && k <= |List(p, s).value|
    ensures var l := List(ResolveUpTo(p, s, k, m, props, rv), s).value;
      && (forall j :: 0 <= j < |l| ==> l[j] == List(p, s).value[j].(version := l[j].version))
      && (forall j :: k <= j < |l| ==> l[j] == List(p, s).value[j])
      && (forall j :: 0 <= j < k ==> l[j].version.Some?)
  {
    if k > 0 {
      ResolveUpToEntries(p, s, k - 1, m, props, rv);
    }
  }

  /** The whole loop over section `s`, skipped when the POM lacks it. */
  function ResolveSection(p: Pom, s: Section, m: ManagementList, props: Properties, rv: VersionResolver): Pom {
    if List(p, s).None? then p else ResolveUpTo(p, s, |List(p, s).value|, m, props, rv)
  }

  /** `resolveProperties(properties, dependencymanagement)`: the dependencies, then the
      management entries. */
  function Resolved(p: Pom, m: ManagementList, props: Properties, rv: VersionResolver): Pom {
    ResolveSection(ResolveSection(p, Dependencies, m, props, rv), Management, m, props, rv)
  }

  /** Entry `j` ends the loop with the version `resolveVersion` gave it at turn `j`, from the
      input chosen against the management entries as they stood at that turn. */
  lemma {:induction false} ResolvedAtTurn(p: Pom, s: Section, k: nat, m: ManagementList, props: Properties, rv: VersionResolver, j: nat)
    requires List(p, s).Some? && j < k <= |List(p, s).value|
    ensures var before := ResolveUpTo(p, s, j, m, props, rv);
      List(ResolveUpTo(p, s, k, m, props, rv), s).value[j].version
        == Some(rv(VersionInput(List(p, s).value[j], Table(before, m)), before, props))
  {
    if k - 1 != j {
      ResolvedAtTurn(p, s, k - 1, m, props, rv, j);
    } else {
      ResolveUpToEntries(p, s, j, m, props, rv);
    }
  }

  /** `resolveProperties` keeps both lists' length, order and every field but the version, and
      gives every entry a version. */
  lemma ResolvedShape(p: Pom, m: ManagementList, props: Properties, rv: VersionResolver, s: Section)
    ensures var q := Resolved(p, m, props, rv);
      && q.properties == p.properties && q.parent == p.parent
      && (List(p, s).None? ==> List(q, s).None?)
      && (List(p, s).Some? ==>
            && List(q, s).Some? && |List(q, s).value| == |List(p, s).value|
            && forall j :: 0 <= j < |List(p, s).value| ==>
                 && List(q, s).value[j].version.Some?
                 && List(q, s).value[j] == List(p, s).value[j].(version := List(q, s).value[j].version))
  {
    var p1 := ResolveSection(p, Dependencies, m, props, rv);
    if List(p, Dependencies).Some? {
      ResolveUpToEntries(p, Dependencies, |List(p, Dependencies).value|, m, props, rv);
    }
    if List(p1, Management).Some? {
      ResolveUpToEntries(p1, Management, |List(p1, Management).value|, m, props, rv);
    }
  }

  /** `resolveProperties` leaves a dependency list where there was one. */
  lemma ResolvedKeepsDependencies(p: Pom, m: ManagementList, props: Properties, rv: VersionResolver)
    requires p.dependencies.Some?
    ensures Resolved(p, m, props, rv).dependencies.Some?
  {
    ResolvedShape(p, m, props, rv, Dependencies);
  }

  /** The dependency list after `resolveProperties`: entry `j` keeps everything but its version,
      which is `resolveVersion` applied to its own version or the managed one, with the POM as
      it stood after the first `j` dependencies. */
  lemma ResolvedDependency(p: Pom, m: ManagementList, props: Properties, rv: VersionResolver, j: nat)
    requires p.dependencies.Some? && j < |p.dependencies.value|
    ensures var d := p.dependencies.value[j];
      var before := ResolveUpTo(p, Dependencies, j, m, props, rv);
      && Resolved(p, m, props, rv).dependencies.Some?
      && j < |Resolved(p, m, props, rv).dependencies.value|
      && Resolved(p, m, props, rv).dependencies.value[j]
           == d.(version := Some(rv(VersionInput(d, Table(p, m)), before, props)))
  {
    var n := |p.dependencies.value|;
    ResolvedAtTurn(p, Dependencies, n, m, props, rv, j);
    var before := ResolveUpTo(p, Dependencies, j, m, props, rv);
    assert Table(before, m) == Table(p, m);
    ResolvedShape(p, m, props, rv, Dependencies);
  }
}
