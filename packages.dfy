/**
 * The package records the yarn-classic resolver produces. The resolver itself
 * is not part of this model: the orchestrator receives its output as data.
 */
module Packages {
  import opened Wrappers

  /** The resolver's package classes. */
  datatype PackageKind = Registry | Url | Git | File | Link | Workspace
  {
    /** Registry, URL and Git packages are copied into the offline mirror; the others are not. */
    predicate IsMirrored() {
      Registry? || Url? || Git?
    }
  }

  /**
   * One resolved package. Datatype equality stands for the resolver's
   * field-by-field equality of records of the same class. `locator` is the
   * `url` of a mirrored package and the `path` of a file, link or workspace one.
   */
  datatype Package = Package(
    kind: PackageKind,
    name: string,
    version: string,
    dev: bool,
    locator: string,
    integrity: Option<string>,
    purl: string)
}
