/** The parts of the `jpm.json` manifest that `install` and `remove` read and write. */
module JpmJson {
  import opened Wrappers
  import opened JsObject

  /** One repository's dependencies, or one entry of `mvnPeers`: artifact name to version. */
  type Versions = Object<string>

  /** `dependencies` maps a repository name to its `Versions`; `mvnPeers` maps a Maven
      artifact to the peers it brought in. Every other top-level field is kept as text. */
  datatype Manifest = Manifest(
    dependencies: Option<Object<Versions>>,
    mvnPeers: Option<Object<Versions>>,
    otherFields: Object<string>)

  /** Every object of a parsed manifest has distinct keys. */
  predicate WellFormed(m: Manifest) {
    && (m.dependencies.Some? ==> NestedWf(m.dependencies.value))
    && (m.mvnPeers.Some? ==> NestedWf(m.mvnPeers.value))
  }

  predicate NestedWf(o: Object<Versions>) {
    Wf(o) && forall i :: 0 <= i < |o| ==> Wf(o[i].1)
  }
}
