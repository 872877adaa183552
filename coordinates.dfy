/** The identity of a Maven project (the fields `groupID`, `artifactID`, `version` of the
    `Project` class of src/mvn/project.ts), how a target string is parsed into it, and the
    names, paths and URLs the class derives from it. */
module Coordinates {
  import opened Wrappers
  import opened JsText

  /** The version a target without `@` gets, to be looked up later. */
  const Latest := "latest"

  /** The default repository prefix of the POM and JAR URLs. */
  const CentralRepository := "https://repo1.maven.org/maven2"

  /** A project's identity. `artifactID` is `None` where the source leaves the field
      `undefined`: a one-argument target whose part before `@` holds no `:`. */
  datatype Coordinate = Coordinate(groupID: string, artifactID: Option<string>, version: string) {

    /** `artifactID` as a template literal renders it. */
    function ArtifactText(): string {
      match artifactID
      case Some(a) => a
      case None => "undefined"
    }

    /** The path of the project inside a Maven repository. */
    function RepoPath(): string {
      ReplaceChar(groupID, '.', '/') + "/" + ArtifactText() + "/" + version
    }

    function PomName(): string {
      ArtifactText() + "-" + version + ".pom"
    }

    function JarName(): string {
      ArtifactText() + "-" + version + ".jar"
    }

    function PomUrl(prefix: string): string {
      prefix + "/" + RepoPath() + "/" + PomName()
    }

    function JarUrl(prefix: string): string {
      prefix + "/" + RepoPath() + "/" + JarName()
    }

    function ToString(): string {
      groupID + ":" + ArtifactText() + "@" + version
    }

    /** The search query that asks for the latest version. */
    function SearchEndpoint(): string {
      "http://search.maven.org/solrsearch/select?q=g:%22" + groupID + "%22+AND+a:%22"
        + ArtifactText() + "%22"
    }
  }

  /** The part before the first `@` and the version: the text up to the second `@`, or
      "latest" when there is no `@`. */
  function SplitVersion(target: string): (string, string) {
    if '@' in target then
      var pieces := SplitTwo(target, '@');
      (pieces[0], pieces[1])
    else
      (target, Latest)
  }

  /** The first two `:`-pieces of `head`; the second is undefined when there is no `:`. */
  function SplitIds(head: string): (string, Option<string>) {
    var pieces := SplitTwo(head, ':');
    (pieces[0], if |pieces| == 2 then Some(pieces[1]) else None)
  }

  /** The one-argument constructor: no validation, no error. */
  function ParseTarget(target: string): Coordinate {
    var (head, version) := SplitVersion(target);
    var (group, artifact) := SplitIds(head);
    Coordinate(group, artifact, version)
  }

  /** The version is the text between the first and the second `@`, and the ids come from
      the text before the first `@`, whatever follows the second `@`. */
  lemma VersionBetweenAts(head: string, version: string, rest: string)
    requires '@' !in head && '@' !in version
    requires rest == [] || rest[0] == '@'
    ensures SplitVersion(head + "@" + version + rest) == (head, version)
  {
    SplitTwoOf(head, '@', version, rest);
    assert head + "@" + version + rest == head + ['@'] + version + rest;
  }

  /** The group and the artifact are the first two `:`-pieces of the head; anything from a
      second `:` on is dropped. */
  lemma IdsBeforeColons(group: string, artifact: string, rest: string)
    requires ':' !in group && ':' !in artifact
    requires rest == [] || rest[0] == ':'
    ensures SplitIds(group + ":" + artifact + rest) == (group, Some(artifact))
  {
    SplitTwoOf(group, ':', artifact, rest);
    assert group + ":" + artifact + rest == group + [':'] + artifact + rest;
  }

  /** `toString` prints the group, `:`, the artifact and `@` before the version, so when the
      fields hold no separator its first `@` and its first `:` fall exactly there. An undefined
      artifact prints as "undefined" and so comes back as that text. */
  lemma {:induction false} ToStringSplits(c: Coordinate)
    requires '@' !in c.groupID && ':' !in c.groupID
    requires '@' !in c.ArtifactText() && ':' !in c.ArtifactText()
    requires '@' !in c.version
    ensures SplitVersion(c.ToString()) == (c.groupID + ":" + c.ArtifactText(), c.version)
    ensures SplitIds(c.groupID + ":" + c.ArtifactText()) == (c.groupID, Some(c.ArtifactText()))
  {
    var a := c.ArtifactText();
    var head := c.groupID + ":" + a;
    assert c.ToString() == head + "@" + c.version + "";
    VersionBetweenAts(head, c.version, "");
    assert head == c.groupID + ":" + a + "";
    IdsBeforeColons(c.groupID, a, "");
  }

  /** Parsing what `toString` prints gives the same three fields back. */
  lemma {:induction false} ParseToString(c: Coordinate)
    requires c.artifactID.Some?
    requires '@' !in c.groupID && ':' !in c.groupID
    requires '@' !in c.artifactID.value && ':' !in c.artifactID.value
    requires '@' !in c.version
    ensures ParseTarget(c.ToString()) == c
  {
    ToStringSplits(c);
  }

  /** A target without `@` names the latest version, whatever else it holds. */
  lemma ParseWithoutVersion(target: string)
    requires '@' !in target
    ensures ParseTarget(target).version == Latest
  {
  }

  /** A target with neither `@` nor `:` is all group: the artifact is left undefined and
      the version is "latest". */
  lemma ParseWithoutArtifact(head: string)
    requires '@' !in head && ':' !in head
    ensures ParseTarget(head) == Coordinate(head, None, Latest)
  {
  }

  /** A target `group@version` whose part before the first `@` holds no `:` leaves the artifact
      undefined, whatever follows a second `@`. */
  lemma {:induction false} HeadWithoutColon(head: string, version: string, rest: string)
    requires '@' !in head && '@' !in version && ':' !in head
    requires rest == [] || rest[0] == '@'
    ensures ParseTarget(head + "@" + version + rest) == Coordinate(head, None, version)
  {
    VersionBetweenAts(head, version, rest);
  }

  /** A target `group:artifact`, possibly followed by more `:`-pieces, and without `@`
      names the latest version of that group and artifact. */
  lemma {:induction false} ParseGroupArtifact(group: string, artifact: string, rest: string)
    requires '@' !in group && ':' !in group
    requires '@' !in artifact && ':' !in artifact
    requires '@' !in rest && (rest == [] || rest[0] == ':')
    ensures ParseTarget(group + ":" + artifact + rest) == Coordinate(group, Some(artifact), Latest)
  {
    var t := group + ":" + artifact + rest;
    assert '@' !in t by {
      forall i | 0 <= i < |t|
        ensures t[i] != '@'
      {
        if i < |group| {
          assert t[i] == group[i];
        } else if i == |group| {
          assert t[i] == ':';
        } else if i < |group| + 1 + |artifact| {
          assert t[i] == artifact[i - |group| - 1];
        } else {
          assert t[i] == rest[i - |group| - 1 - |artifact|];
        }
      }
    }
    IdsBeforeColons(group, artifact, rest);
  }

  /** The POM file name is the artifact, `-`, the version and `.pom`. */
  lemma PomNameLayout(c: Coordinate)
    ensures var n, a := c.PomName(), c.ArtifactText();
      && |n| == |a| + |c.version| + 5
      && n[..|a|] == a && n[|a|] == '-' && n[|a| + 1..|n| - 4] == c.version && n[|n| - 4..] == ".pom"
  {
    var n, a := c.PomName(), c.ArtifactText();
    assert n == a + ("-" + c.version + ".pom");
    assert n[|a| + 1..] == c.version + ".pom";
  }

  /** The JAR file name is the artifact, `-`, the version and `.jar`, and differs from the
      POM file name only in the extension. */
  lemma JarNameLayout(c: Coordinate)
    ensures var n, a := c.JarName(), c.ArtifactText();
      && |n| == |a| + |c.version| + 5
      && n[..|a|] == a && n[|a|] == '-' && n[|a| + 1..|n| - 4] == c.version && n[|n| - 4..] == ".jar"
      && n[..|n| - 3] == c.PomName()[..|n| - 3]
  {
    var n, a := c.JarName(), c.ArtifactText();
    assert n == a + ("-" + c.version + ".jar");
    assert n[|a| + 1..] == c.version + ".jar";
    assert n[..|n| - 3] == a + "-" + c.version + "." == c.PomName()[..|n| - 3];
  }

  /** The repository path: the group with every `.` turned into `/`, then the artifact and
      the version as two more segments. */
  lemma RepoPathLayout(c: Coordinate)
    ensures var p := c.RepoPath();
      && |p| == |c.groupID| + 2 + |c.ArtifactText()| + |c.version|
      && (forall i :: 0 <= i < |c.groupID| ==> p[i] == if c.groupID[i] == '.' then '/' else c.groupID[i])
      && '.' !in p[..|c.groupID|]
      && p[|c.groupID|..] == "/" + c.ArtifactText() + "/" + c.version
  {
    var g := ReplaceChar(c.groupID, '.', '/');
    assert c.RepoPath() == g + ("/" + c.ArtifactText() + "/" + c.version);
    assert c.RepoPath()[..|c.groupID|] == g;
  }

  /** The POM URL and the JAR URL share the prefix and the repository path, and differ only
      in the extension of the file name. */
  lemma PomAndJarUrls(c: Coordinate, prefix: string)
    ensures var pom, jar, base := c.PomUrl(prefix), c.JarUrl(prefix), prefix + "/" + c.RepoPath() + "/";
      && pom == base + c.PomName() && jar == base + c.JarName()
      && |pom| == |jar|
      && pom[..|pom| - 3] == jar[..|jar| - 3]
      && pom[|pom| - 3..] == "pom" && jar[|jar| - 3..] == "jar"
  {
    var stem := prefix + "/" + c.RepoPath() + "/" + c.ArtifactText() + "-" + c.version + ".";
    assert c.PomUrl(prefix) == stem + "pom";
    assert c.JarUrl(prefix) == stem + "jar";
  }
}
